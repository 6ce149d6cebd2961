/** What writes outside the patches do to a row's history, told from the actions alone: which of
  * them still stands after a run, and when the history is right all the same.
  */
module OutsideWrites {
  import opened Text
  import opened EntityPatch

  // --- what a request had read -----------------------------------------------

  // How many actions came before the check of the request: the last time it had only begun.
  ghost function CheckedAfter(sc: Schema, e0: Entity, acts: seq<Action>, t: nat): (c: nat)
    ensures c <= |acts|
  {
    if acts == [] then 0 else
    var n := |acts| - 1;
    var e := Run(sc, e0, acts[..n]);
    if t < |e.requests| && e.requests[t].phase.Begun? then n else CheckedAfter(sc, e0, acts[..n], t)
  }

  lemma BegunIsChecked(sc: Schema, e: Entity, a: Action, t: nat)
    requires t < |e.requests| && e.requests[t].phase.Begun?
    requires t < |Step(sc, e, a).requests| && Step(sc, e, a).requests[t].phase.Checked?
    ensures Step(sc, e, a).requests[t].phase == Checked(Current(e), e.version)
  {
    hide Step;
    if a == Check(t) {
      CheckReads(sc, e, t);
    } else {
      BegunChanges(sc, e, a, t);
    }
  }

  lemma CheckedStaysSame(sc: Schema, e: Entity, a: Action, t: nat)
    requires t < |e.requests| && !e.requests[t].phase.Begun?
    requires t < |Step(sc, e, a).requests| && Step(sc, e, a).requests[t].phase.Checked?
    ensures e.requests[t].phase == Step(sc, e, a).requests[t].phase
  {
    hide Step;
    PhaseAdvances(sc, e, a, t);
  }

  // A checked request has read the content and the version at its check.
  lemma {:induction false} ReadIsContent(sc: Schema, e0: Entity, acts: seq<Action>, t: nat)
    requires e0.requests == [] && t < |Run(sc, e0, acts).requests| && Run(sc, e0, acts).requests[t].phase.Checked?
    ensures var c := CheckedAfter(sc, e0, acts, t);
            && c < |acts|
            && Run(sc, e0, acts).requests[t].phase
               == Checked(Current(Run(sc, e0, acts[..c])), Run(sc, e0, acts[..c]).version)
  {
    hide Step;
    var n := |acts| - 1;
    var (e, a) := (Run(sc, e0, acts[..n]), acts[n]);
    if t >= |e.requests| {
      NewRequestBegins(sc, e, a, t);
    } else if e.requests[t].phase.Begun? {
      BegunIsChecked(sc, e, a, t);
    } else {
      CheckedStaysSame(sc, e, a, t);
      ReadIsContent(sc, e0, acts[..n], t);
      assert acts[..n][..CheckedAfter(sc, e0, acts[..n], t)] == acts[..CheckedAfter(sc, e0, acts, t)];
    }
  }

  // --- the outside write that stands -----------------------------------------

  // The action is a write whose diff names the field.
  ghost predicate Names(sc: Schema, e: Entity, a: Action, f: Field) {
    && Writes(sc, e, a)
    && |Step(sc, e, a).committed| > |e.committed| && f in Step(sc, e, a).committed[|e.committed|].diff
  }

  // The value of the outside write to the field that no later patch has named or written over: a
  // write of a patch that does not name the field brings back what stood at its check.
  ghost function Standing(sc: Schema, e0: Entity, acts: seq<Action>, f: Field): Option<Value>
    decreases |acts|
  {
    if acts == [] then None else
    var n := |acts| - 1;
    var (e, a) := (Run(sc, e0, acts[..n]), acts[n]);
    if a.Outside? && a.field == f then Some(a.value)
    else if !Writes(sc, e, a) then Standing(sc, e0, acts[..n], f)
    else if Names(sc, e, a, f) then None
    else Standing(sc, e0, acts[..CheckedAfter(sc, e0, acts[..n], a.request)], f)
  }

  lemma WriteLeaves(sc: Schema, e: Entity, a: Action, f: Field)
    requires Writes(sc, e, a) && f !in sc.derived && f in e.requests[a.request].phase.read.row
    ensures var (e', read) := (Step(sc, e, a), e.requests[a.request].phase.read);
            && f in e'.row
            && (Names(sc, e, a, f) ==> f !in e'.displaced)
            && (!Names(sc, e, a, f) ==>
                  e'.row[f] == read.row[f] && (f in e'.displaced <==> f in read.displaced))
  {
    OnlyWritesCommit(sc, e, a);
    var r := e.requests[a.request];
    hide Step, Writes, HasFields, Overlay, DiffOf;
    DiffRedoUndo(sc, r.phase.read.row, Overlay(sc, r.phase.read.row, r.patch));
  }

  lemma OutsideLeaves(sc: Schema, e: Entity, g: Field, value: Value, f: Field)
    requires f in e.row
    ensures var e' := Step(sc, e, Outside(g, value));
            && f in e'.row && (f in e'.displaced <==> f == g || f in e.displaced)
            && e'.row[f] == if f == g then value else e.row[f]
  {
  }

  lemma {:induction false} StandingIs(sc: Schema, id: string, row: Row, acts: seq<Action>, f: Field)
    requires HasFields(sc, row) && f in row && f !in sc.derived
    ensures var (e, s) := (Run(sc, Created(id, row), acts), Standing(sc, Created(id, row), acts, f));
            f in e.row && (f in e.displaced <==> s.Some?) && (s.Some? ==> e.row[f] == s.value)
    decreases |acts|
  {
    if acts != [] {
      hide Step, Writes, Names, HasFields, OutsideStep, DiffOf, Overlay, WithDerived;
      var (n, e0) := (|acts| - 1, Created(id, row));
      var (e, a) := (Run(sc, e0, acts[..n]), acts[n]);
      StandingIs(sc, id, row, acts[..n], f);
      if a.Outside? {
        OutsideLeaves(sc, e, a.field, a.value, f);
        OutsideIsNoWrite(sc, e, a);
      } else if !Writes(sc, e, a) {
        OnlyWritesCommit(sc, e, a);
      } else {
        WriteHasRead(sc, e, a);
        var c := CheckedAfter(sc, e0, acts[..n], a.request);
        ReadIsContent(sc, e0, acts[..n], a.request);
        assert acts[..n][..c] == acts[..c];
        StandingIs(sc, id, row, acts[..c], f);
        WriteLeaves(sc, e, a, f);
      }
    }
  }

  lemma OutsideIsNoWrite(sc: Schema, e: Entity, a: Action)
    requires a.Outside?
    ensures !Writes(sc, e, a)
  {
  }

  lemma WriteHasRead(sc: Schema, e: Entity, a: Action)
    requires Writes(sc, e, a)
    ensures a.Write? && a.request < |e.requests| && e.requests[a.request].phase.Checked?
    ensures e.requests[a.request].phase.version == e.version
  {
  }

  // --- when history is right -------------------------------------------------

  /** Over any run a field is undisturbed exactly if no outside write to it stands, or one that
    * stands has the value that the last patch naming the field gave it.
    */
  lemma UndisturbedIff(sc: Schema, id: string, row: Row, acts: seq<Action>, f: Field)
    requires HasFields(sc, row) && f in row && f !in sc.derived
    ensures var (e, s) := (Run(sc, Created(id, row), acts), Standing(sc, Created(id, row), acts, f));
            Undisturbed(Current(e), f) <==> (s.Some? ==> s.value == LastNew(Diffs(e.committed), f, row[f]))
  {
    hide Run, Standing, HasFields, LastNew, Diffs, RequestsOk, HistoryOk, CommitOk;
    StandingIs(sc, id, row, acts, f);
    RunKeepsInv(sc, id, row, acts);
    RunKeepsCreated(sc, Created(id, row), acts);
    var e := Run(sc, Created(id, row), acts);
    assert Tracks(row, Diffs(e.committed), Current(e), f);
  }

  /** So replaying the history of a settled row gives a field's current value exactly then. */
  lemma {:induction false} ReplayIsRightIff(sc: Schema, id: string, row: Row, acts: seq<Action>, f: Field)
    requires HasFields(sc, row) && Settled(Run(sc, Created(id, row), acts)) && f in row && f !in sc.derived
    ensures var (e, s) := (Run(sc, Created(id, row), acts), Standing(sc, Created(id, row), acts, f));
            && f in e.row && f in RedoAll(row, History(e))
            && (RedoAll(row, History(e))[f] == e.row[f]
                <==> (s.Some? ==> s.value == LastNew(Diffs(e.committed), f, row[f])))
  {
    hide Run, Standing, History, RedoAll, Undisturbed, HasFields, Settled, LastNew, Diffs;
    HistoryRebuildsRow(sc, id, row, acts, f);
    UndisturbedIff(sc, id, row, acts, f);
  }

  // How many actions came before the check of the first patch that named the field; all if none did.
  ghost function FirstPatchAfter(sc: Schema, e0: Entity, acts: seq<Action>, f: Field): (c: nat)
    ensures c <= |acts|
  {
    if acts == [] then 0 else
    var n := |acts| - 1;
    var (e, a) := (Run(sc, e0, acts[..n]), acts[n]);
    if FirstNaming(Diffs(e.committed), f) < |e.committed| then FirstPatchAfter(sc, e0, acts[..n], f)
    else if Names(sc, e, a, f) then CheckedAfter(sc, e0, acts[..n], a.request)
    else |acts|
  }

  lemma FirstNamingSnoc(commits: seq<Commit>, c: Commit, f: Field)
    ensures var (k, k') := (FirstNaming(Diffs(commits), f), FirstNaming(Diffs(commits + [c]), f));
            && (k < |commits| ==> k' == k)
            && (k == |commits| ==> k' == if f in c.diff then k else k + 1)
  {
    assert Diffs(commits + [c])[..|commits|] == Diffs(commits);
  }

  lemma FirstReadStep(sc: Schema, e: Entity, a: Action, f: Field)
    ensures var (e', k) := (Step(sc, e, a), FirstNaming(Diffs(e.committed), f));
            && (k < |e.committed| ==> FirstRead(e', f) == FirstRead(e, f))
            && (k == |e.committed| && Names(sc, e, a, f) ==>
                  FirstRead(e', f) == e.requests[a.request].phase.read)
            && (k == |e.committed| && !Names(sc, e, a, f) ==> FirstRead(e', f) == Current(e'))
            && (FirstNaming(Diffs(e'.committed), f) < |e'.committed| <==> k < |e.committed| || Names(sc, e, a, f))
  {
    hide Step, Writes, Names, FirstNaming, Diffs;
    if Writes(sc, e, a) {
      var c := WriteCommits(sc, e, a, f);
      FirstNamingSnoc(e.committed, c, f);
    } else {
      NamesNothing(sc, e, a, f);
    }
  }

  lemma WriteCommits(sc: Schema, e: Entity, a: Action, f: Field) returns (c: Commit)
    requires Writes(sc, e, a)
    ensures a.Write? && a.request < |e.requests| && e.requests[a.request].phase.Checked?
    ensures Step(sc, e, a).committed == e.committed + [c] && c.read == e.requests[a.request].phase.read
    ensures Names(sc, e, a, f) <==> f in c.diff
  {
    hide Step, HasFields, Overlay, DiffOf, WithDerived;
    OnlyWritesCommit(sc, e, a);
    c := Step(sc, e, a).committed[|e.committed|];
  }

  lemma NamesNothing(sc: Schema, e: Entity, a: Action, f: Field)
    requires !Writes(sc, e, a)
    ensures !Names(sc, e, a, f) && Step(sc, e, a).committed == e.committed
  {
    hide Step, Writes, HasFields, Overlay, DiffOf, WithDerived, OutsideStep;
    OnlyWritesCommit(sc, e, a);
  }

  lemma {:induction false} FirstReadIs(sc: Schema, e0: Entity, acts: seq<Action>, f: Field)
    requires e0.requests == [] && e0.committed == []
    ensures FirstRead(Run(sc, e0, acts), f) == Current(Run(sc, e0, acts[..FirstPatchAfter(sc, e0, acts, f)]))
  {
    if acts != [] {
      hide Step, Names, FirstNaming, Diffs, FirstRead, CheckedAfter, Writes;
      var n := |acts| - 1;
      var (e, a) := (Run(sc, e0, acts[..n]), acts[n]);
      FirstReadIs(sc, e0, acts[..n], f);
      FirstReadStep(sc, e, a, f);
      var c := FirstPatchAfter(sc, e0, acts, f);
      if FirstNaming(Diffs(e.committed), f) < |e.committed| {
        assert acts[..n][..c] == acts[..c];
      } else if Names(sc, e, a, f) {
        NamesWrites(sc, e, a, f);
        WriteHasRead(sc, e, a);
        ReadIsContent(sc, e0, acts[..n], a.request);
        assert acts[..n][..c] == acts[..c];
      } else {
        assert acts[..c] == acts;
      }
    }
  }

  lemma NamesWrites(sc: Schema, e: Entity, a: Action, f: Field)
    requires Names(sc, e, a, f)
    ensures Writes(sc, e, a)
  {
  }

  // What the first patch naming the field had read is in step with the field as created.
  lemma FirstReadTracks(sc: Schema, id: string, row: Row, acts: seq<Action>, f: Field)
    requires HasFields(sc, row) && f in row && f !in sc.derived
    ensures var s := FirstRead(Run(sc, Created(id, row), acts), f);
            f in s.row && (if f in s.displaced then s.displaced[f] else s.row[f]) == row[f]
  {
    RunKeepsInv(sc, id, row, acts);
    RunKeepsCreated(sc, Created(id, row), acts);
    var e := Run(sc, Created(id, row), acts);
    var diffs := Diffs(e.committed);
    var k := FirstNaming(diffs, f);
    hide Run, RequestsOk, HistoryOk, LastNew, FirstNaming, Diffs, HasFields;
    UnnamedKeeps(diffs, f, row[f], k);
    assert diffs[..|diffs|] == diffs;
    if k < |diffs| {
      assert CommitOk(sc, row, e.committed, k);
      assert Tracks(row, diffs[..k], e.committed[k].read, f);
    } else {
      assert Tracks(row, diffs, Current(e), f);
    }
  }

  /** Undoing the history of a settled row gives back a field as created exactly if no outside
    * write to it stood at the check of the first patch naming it, or one with the created value.
    */
  lemma {:induction false} UndoIsRightIff(sc: Schema, id: string, row: Row, acts: seq<Action>, f: Field)
    requires HasFields(sc, row) && Settled(Run(sc, Created(id, row), acts)) && f in row && f !in sc.derived
    ensures var e := Run(sc, Created(id, row), acts);
            var first := acts[..FirstPatchAfter(sc, Created(id, row), acts, f)];
            var s := Standing(sc, Created(id, row), first, f);
            && f in e.row && f in UndoAll(e.row, History(e))
            && (UndoAll(e.row, History(e))[f] == row[f] <==> (s.Some? ==> s.value == row[f]))
  {
    hide Run, Standing, History, UndoAll, FirstRead, FirstPatchAfter, HasFields, Settled;
    HistoryUndoesRow(sc, id, row, acts, f);
    FirstReadIs(sc, Created(id, row), acts, f);
    FirstReadTracks(sc, id, row, acts, f);
    StandingIs(sc, id, row, acts[..FirstPatchAfter(sc, Created(id, row), acts, f)], f);
  }

  // --- runs in which no outside write is lost --------------------------------

  // The last outside write to the field since the last patch that named it.
  ghost function SincePatch(sc: Schema, e0: Entity, acts: seq<Action>, f: Field): Option<Value> {
    if acts == [] then None else
    var n := |acts| - 1;
    var (e, a) := (Run(sc, e0, acts[..n]), acts[n]);
    if a.Outside? && a.field == f then Some(a.value)
    else if Names(sc, e, a, f) then None
    else SincePatch(sc, e0, acts[..n], f)
  }

  // Action `i` writes the field from outside between the check and the write, action `w`, of a
  // patch that does not name it.
  ghost predicate Crosses(sc: Schema, e0: Entity, acts: seq<Action>, f: Field, i: nat, w: nat) {
    && i < w < |acts| && acts[i].Outside? && acts[i].field == f
    && var e := Run(sc, e0, acts[..w]);
    && Writes(sc, e, acts[w]) && !Names(sc, e, acts[w], f)
    && CheckedAfter(sc, e0, acts[..w], acts[w].request) <= i
  }

  ghost predicate Uncrossed(sc: Schema, e0: Entity, acts: seq<Action>, f: Field) {
    forall i: nat, w: nat :: !Crosses(sc, e0, acts, f, i, w)
  }

  lemma UncrossedPrefix(sc: Schema, e0: Entity, acts: seq<Action>, f: Field, m: nat)
    requires m <= |acts| && Uncrossed(sc, e0, acts, f)
    ensures Uncrossed(sc, e0, acts[..m], f)
  {
    hide Writes, Names, CheckedAfter, Run;
    forall i: nat, w: nat ensures !Crosses(sc, e0, acts[..m], f, i, w) {
      if i < w < m {
        assert acts[..m][..w] == acts[..w];
        assert !Crosses(sc, e0, acts, f, i, w);
      }
    }
  }

  lemma {:induction false} VersionRises(sc: Schema, e0: Entity, acts: seq<Action>, c: nat)
    requires c <= |acts|
    ensures Run(sc, e0, acts[..c]).version <= Run(sc, e0, acts).version
  {
    if c < |acts| {
      hide Step, Writes, HasFields, Overlay, DiffOf, WithDerived, OutsideStep;
      var n := |acts| - 1;
      VersionRises(sc, e0, acts[..n], c);
      assert acts[..n][..c] == acts[..c];
      OnlyWritesCommit(sc, Run(sc, e0, acts[..n]), acts[n]);
    } else {
      assert acts[..c] == acts;
    }
  }

  lemma LastStepNames(sc: Schema, e0: Entity, acts: seq<Action>, f: Field)
    requires acts != []
    ensures var (n, a) := (|acts| - 1, acts[|acts| - 1]);
            var (e, e') := (Run(sc, e0, acts[..n]), Run(sc, e0, acts));
            && e'.version >= e.version && (Names(sc, e, a, f) ==> e'.version > e.version)
            && (!(a.Outside? && a.field == f) && !Names(sc, e, a, f) ==>
                  SincePatch(sc, e0, acts, f) == SincePatch(sc, e0, acts[..n], f))
  {
    hide Step, Writes, HasFields, Overlay, DiffOf, WithDerived, OutsideStep, Names;
    var (n, a) := (|acts| - 1, acts[|acts| - 1]);
    var e := Run(sc, e0, acts[..n]);
    OnlyWritesCommit(sc, e, a);
    if Names(sc, e, a, f) {
      NamesWrites(sc, e, a, f);
    }
  }

  // While the version stays and nothing writes the field from outside, nothing changes.
  lemma {:induction false} NothingSince(sc: Schema, e0: Entity, acts: seq<Action>, f: Field, c: nat)
    requires c <= |acts| && Run(sc, e0, acts[..c]).version == Run(sc, e0, acts).version
    requires forall i :: c <= i < |acts| ==> !(acts[i].Outside? && acts[i].field == f)
    ensures SincePatch(sc, e0, acts, f) == SincePatch(sc, e0, acts[..c], f)
  {
    hide Run, Names, SincePatch;
    if c < |acts| {
      var n := |acts| - 1;
      VersionRises(sc, e0, acts[..n], c);
      assert acts[..n][..c] == acts[..c];
      LastStepNames(sc, e0, acts, f);
      NothingSince(sc, e0, acts[..n], f, c);
    } else {
      assert acts[..c] == acts;
    }
  }

  // A write that does not name the field, and that no outside write to it crosses, changes neither.
  lemma CarriedStands(sc: Schema, e0: Entity, acts: seq<Action>, f: Field, c: nat)
    requires e0.requests == [] && Uncrossed(sc, e0, acts, f) && acts != []
    requires var (n, a) := (|acts| - 1, acts[|acts| - 1]);
             && Writes(sc, Run(sc, e0, acts[..n]), a) && !Names(sc, Run(sc, e0, acts[..n]), a, f)
             && c == CheckedAfter(sc, e0, acts[..n], a.request)
    ensures c < |acts| && SincePatch(sc, e0, acts[..|acts| - 1], f) == SincePatch(sc, e0, acts[..c], f)
  {
    hide Run, Names, Uncrossed, CheckedAfter, SincePatch, Writes;
    var (n, a) := (|acts| - 1, acts[|acts| - 1]);
    WriteHasRead(sc, Run(sc, e0, acts[..n]), a);
    ReadIsContent(sc, e0, acts[..n], a.request);
    assert acts[..n][..c] == acts[..c];
    forall i | c <= i < n ensures !(acts[i].Outside? && acts[i].field == f) {
      NotCrossed(sc, e0, acts, f, i, n);
    }
    NothingSince(sc, e0, acts[..n], f, c);
  }

  lemma StandingStep(sc: Schema, e0: Entity, acts: seq<Action>, f: Field)
    requires acts != []
    ensures var (n, a) := (|acts| - 1, acts[|acts| - 1]);
            var e := Run(sc, e0, acts[..n]);
            if a.Outside? && a.field == f then Standing(sc, e0, acts, f) == SincePatch(sc, e0, acts, f)
            else if Names(sc, e, a, f) then Standing(sc, e0, acts, f) == SincePatch(sc, e0, acts, f)
            else
              && SincePatch(sc, e0, acts, f) == SincePatch(sc, e0, acts[..n], f)
              && Standing(sc, e0, acts, f)
                 == if Writes(sc, e, a) then Standing(sc, e0, acts[..CheckedAfter(sc, e0, acts[..n], a.request)], f)
                    else Standing(sc, e0, acts[..n], f)
  {
    hide Run, CheckedAfter, Step, HasFields;
  }

  lemma {:induction false} UncrossedStands(sc: Schema, e0: Entity, acts: seq<Action>, f: Field)
    requires e0.requests == [] && Uncrossed(sc, e0, acts, f)
    ensures Standing(sc, e0, acts, f) == SincePatch(sc, e0, acts, f)
    decreases |acts|
  {
    if acts != [] {
      hide Standing, SincePatch, Run, Writes, Names, Uncrossed, CheckedAfter;
      var n := |acts| - 1;
      var (e, a) := (Run(sc, e0, acts[..n]), acts[n]);
      StandingStep(sc, e0, acts, f);
      UncrossedPrefix(sc, e0, acts, f, n);
      UncrossedStands(sc, e0, acts[..n], f);
      if Writes(sc, e, a) && !Names(sc, e, a, f) {
        WriteHasRead(sc, e, a);
        var c := CheckedAfter(sc, e0, acts[..n], a.request);
        CarriedStands(sc, e0, acts, f, c);
        UncrossedPrefix(sc, e0, acts, f, c);
        UncrossedStands(sc, e0, acts[..c], f);
      }
    } else {
      hide Run, Writes, Names, Uncrossed, CheckedAfter;
    }
  }

  lemma NotCrossed(sc: Schema, e0: Entity, acts: seq<Action>, f: Field, i: nat, w: nat)
    requires Uncrossed(sc, e0, acts, f)
    ensures !Crosses(sc, e0, acts, f, i, w)
  {
  }

  /** When no outside write to a field falls between the check and the write of a patch that does
    * not name it, the field is undisturbed exactly if the last outside write to it since the last
    * patch naming it ends in that patch's value.
    */
  lemma {:induction false} UncrossedUndisturbedIff(sc: Schema, id: string, row: Row, acts: seq<Action>, f: Field)
    requires HasFields(sc, row) && f in row && f !in sc.derived && Uncrossed(sc, Created(id, row), acts, f)
    ensures var (e, s) := (Run(sc, Created(id, row), acts), SincePatch(sc, Created(id, row), acts, f));
            Undisturbed(Current(e), f) <==> (s.Some? ==> s.value == LastNew(Diffs(e.committed), f, row[f]))
  {
    hide Run, Standing, SincePatch, HasFields, LastNew, Diffs, Undisturbed, Uncrossed;
    UncrossedStands(sc, Created(id, row), acts, f);
    UndisturbedIff(sc, id, row, acts, f);
  }
}
