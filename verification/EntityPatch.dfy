/** Patching an epic or an issue: read, check `If-Match`, compare and set, record the diff.
  *
  * Any number of requests work on one row; each runs in steps and any other step may come in
  * between. `Schema` says which fields an entity has; the two handlers differ in nothing else
  * here. A derived field (an issue's milestone) is carried through a patch but owned by a
  * database trigger. Any field may also be written outside every patch, with no new version and
  * no diff: an epic's milestone by the milestone's own handler, an issue's release version by a
  * trigger, references by an import or by the deletion of what they refer to.
  */
module EntityPatch {
  import opened Text
  import IfMatch

  datatype Field =
    | Subject | Description | Color | StatusId | TypeId | PriorityId | SizeId | EpicId | ParentId
    | MilestoneId | AssignedTo | QaAssigneeId | ReviewerId | Category | StartDate | EndDate | DueDate
    | ResolutionKind | ReleaseVersionId | ReleaseText

  // A JSON scalar.
  datatype Value = Null | Json(text: string)

  type Row = map<Field, Value>
  type Diff = map<Field, (Value, Value)>

  // `fields` in the order the handler compares them; a null does not clear a field of `sticky`.
  datatype Schema = Schema(fields: seq<Field>, sticky: set<Field>, derived: set<Field>)

  const ISSUE := Schema(
    [Subject, Description, StatusId, TypeId, PriorityId, SizeId, EpicId, ParentId, MilestoneId, AssignedTo,
     QaAssigneeId, ReviewerId, Category, StartDate, DueDate, ResolutionKind, ReleaseVersionId, ReleaseText],
    {Subject, Description, StartDate, DueDate}, {MilestoneId})

  const EPIC := Schema(
    [Subject, Description, Color, StatusId, AssignedTo, MilestoneId, StartDate, EndDate],
    {Subject, Description, Color, StartDate, EndDate}, {})

  ghost predicate HasFields(sc: Schema, row: Row) {
    row.Keys == set f <- sc.fields
  }

  // --- the pure parts of the handler -----------------------------------------

  // Does the patch give the field a value?
  predicate Gives(sc: Schema, patch: Row, f: Field) {
    f !in sc.derived && f in patch && (patch[f] != Null || f !in sc.sticky)
  }

  // The write set: a present field of the patch, the stored value otherwise.
  function Overlay(sc: Schema, stored: Row, patch: Row): Row {
    map f <- stored :: if Gives(sc, patch, f) then patch[f] else stored[f]
  }

  function DiffField(diff: Diff, f: Field, before: Value, after: Value): Diff {
    if before != after then diff[f := (before, after)] else diff
  }

  // The diff after comparing the first `n` fields.
  function DiffUpTo(sc: Schema, before: Row, after: Row, n: nat): Diff
    requires n <= |sc.fields| && HasFields(sc, before) && HasFields(sc, after)
  {
    if n == 0 then map[] else
    DiffField(DiffUpTo(sc, before, after, n - 1), sc.fields[n - 1], before[sc.fields[n - 1]], after[sc.fields[n - 1]])
  }

  function DiffOf(sc: Schema, before: Row, after: Row): Diff
    requires HasFields(sc, before) && HasFields(sc, after)
  {
    DiffUpTo(sc, before, after, |sc.fields|)
  }

  // Replay and undo of a recorded diff.
  function Redo(row: Row, diff: Diff): Row {
    map f <- row :: if f in diff then diff[f].1 else row[f]
  }

  function Undo(row: Row, diff: Diff): Row {
    map f <- row :: if f in diff then diff[f].0 else row[f]
  }

  lemma {:induction false} DiffUpToHolds(sc: Schema, before: Row, after: Row, n: nat)
    requires n <= |sc.fields| && HasFields(sc, before) && HasFields(sc, after)
    ensures forall f <- DiffUpTo(sc, before, after, n) ::
              f in before && before[f] != after[f] && DiffUpTo(sc, before, after, n)[f] == (before[f], after[f])
    ensures forall i :: 0 <= i < n && before[sc.fields[i]] != after[sc.fields[i]] ==>
              sc.fields[i] in DiffUpTo(sc, before, after, n)
  {
    if n > 0 {
      DiffUpToHolds(sc, before, after, n - 1);
    }
  }

  // The recorded diff is exactly what takes the one row to the other, and back.
  lemma DiffRedoUndo(sc: Schema, before: Row, after: Row)
    requires HasFields(sc, before) && HasFields(sc, after)
    ensures Redo(before, DiffOf(sc, before, after)) == after
    ensures Undo(after, DiffOf(sc, before, after)) == before
    ensures DiffOf(sc, before, after) == map[] <==> before == after
  {
    DiffUpToHolds(sc, before, after, |sc.fields|);
    var diff := DiffOf(sc, before, after);
    forall f <- before ensures f in diff <==> before[f] != after[f] {
      var i :| 0 <= i < |sc.fields| && sc.fields[i] == f;
    }
  }

  // --- requests on one row ---------------------------------------------------

  datatype Reply =
    | Updated(version: nat)
    | NotFound
    | PreconditionRequired
    | PreconditionFailed
    | Unprocessable

  // The row's content; and for the fields whose value comes from outside the patches, the value
  // that the outside writes displaced.
  datatype Snapshot = Snapshot(row: Row, displaced: Row)

  datatype Phase =
    | Begun
    | Checked(read: Snapshot, version: nat)
    | Applied(version: nat, diff: Diff)
    | Ended(reply: Reply)

  datatype Request = Request(ifMatch: Option<string>, patch: Row, phase: Phase)

  // `history` holds the recorded diff by the version it led to, `recorded` those versions in the
  // order of recording. `displaced` and `committed` observe: the latter the diff of every write,
  // recorded or not, with what that write had read.
  datatype Entity = Entity(
    id: string, live: bool, created: Row, row: Row, displaced: Row, version: nat, rank: real,
    requests: seq<Request>, history: map<nat, Diff>, recorded: seq<nat>, committed: seq<Commit>)

  datatype Commit = Commit(diff: Diff, read: Snapshot)

  datatype Action =
    | Begin(ifMatch: Option<string>, patch: Row)
    | Check(request: nat)
    | Refuse(request: nat)
    | Write(request: nat, derived: Row)
    | Record(request: nat)
    | Outside(field: Field, value: Value)
    | Reorder(rank: real)
    | Delete

  function Created(id: string, row: Row): Entity {
    Entity(id, true, row, row, map[], 1, 1.0, [], map[], [], [])
  }

  // The trigger's values for the derived fields.
  function WithDerived(sc: Schema, row: Row, derived: Row): Row {
    map f <- row :: if f in sc.derived && f in derived then derived[f] else row[f]
  }

  function SetPhase(e: Entity, t: nat, p: Phase): Entity
    requires t < |e.requests|
  {
    e.(requests := e.requests[t := e.requests[t].(phase := p)])
  }

  // `get_*`, `check_if_match` and the refusal of a client-set derived field.
  function CheckPhase(sc: Schema, e: Entity, r: Request): Phase {
    if !e.live then Ended(NotFound) else
    match IfMatch.CheckIfMatch(r.ifMatch, IfMatch.Etag(e.id, e.version))
    case Required => Ended(PreconditionRequired)
    case Failed => Ended(PreconditionFailed)
    case Accepted =>
      if exists f <- sc.derived :: f in r.patch && r.patch[f] != Null then Ended(Unprocessable)
      else Checked(Snapshot(e.row, e.displaced), e.version)
  }

  // `update_*`: the guarded write. It is the version read that is compared, and the row read
  // that the patch is laid over and the diff is taken from.
  function WriteStep(sc: Schema, e: Entity, t: nat, derived: Row): Entity
    requires t < |e.requests| && e.requests[t].phase.Checked?
    requires HasFields(sc, e.requests[t].phase.read.row)
  {
    var r := e.requests[t];
    if !e.live then SetPhase(e, t, Ended(NotFound))
    else if e.version != r.phase.version then SetPhase(e, t, Ended(PreconditionFailed))
    else
      var stored := r.phase.read.row;
      var next := Overlay(sc, stored, r.patch);
      var diff := DiffOf(sc, stored, next);
      SetPhase(e.(row := WithDerived(sc, next, derived), displaced := r.phase.read.displaced - diff.Keys,
                  version := e.version + 1, committed := e.committed + [Commit(diff, r.phase.read)]),
               t, Applied(e.version + 1, diff))
  }

  // A write outside the patches.
  function OutsideStep(e: Entity, f: Field, value: Value): Entity {
    if f !in e.row then e else
    e.(row := e.row[f := value], displaced := if f in e.displaced then e.displaced else e.displaced[f := e.row[f]])
  }

  // History is recorded after the write, and only a change is.
  function RecordStep(e: Entity, t: nat): Entity
    requires t < |e.requests| && e.requests[t].phase.Applied?
  {
    var Applied(v, diff) := e.requests[t].phase;
    var e1 := if diff == map[] then e else e.(history := e.history[v := diff], recorded := e.recorded + [v]);
    SetPhase(e1, t, Ended(Updated(v)))
  }

  ghost function Step(sc: Schema, e: Entity, a: Action): Entity {
    match a
    case Begin(ifMatch, patch) => e.(requests := e.requests + [Request(ifMatch, patch, Begun)])
    case Check(t) =>
      if t < |e.requests| && e.requests[t].phase.Begun? then SetPhase(e, t, CheckPhase(sc, e, e.requests[t])) else e
    case Refuse(t) =>
      if t < |e.requests| && e.requests[t].phase.Checked? then SetPhase(e, t, Ended(Unprocessable)) else e
    case Write(t, derived) =>
      if t < |e.requests| && e.requests[t].phase.Checked? && HasFields(sc, e.requests[t].phase.read.row)
      then WriteStep(sc, e, t, derived) else e
    case Record(t) => if t < |e.requests| && e.requests[t].phase.Applied? then RecordStep(e, t) else e
    case Outside(f, value) => OutsideStep(e, f, value)
    case Reorder(rank) => e.(rank := rank)
    case Delete => e.(live := false)
  }

  ghost function Run(sc: Schema, e: Entity, acts: seq<Action>): Entity {
    if acts == [] then e else Step(sc, Run(sc, e, acts[..|acts| - 1]), acts[|acts| - 1])
  }

  // --- replaying diffs -------------------------------------------------------

  function RedoAll(row: Row, diffs: seq<Diff>): Row {
    if diffs == [] then row else Redo(RedoAll(row, diffs[..|diffs| - 1]), diffs[|diffs| - 1])
  }

  function UndoAll(row: Row, diffs: seq<Diff>): Row {
    if diffs == [] then row else UndoAll(Undo(row, diffs[|diffs| - 1]), diffs[..|diffs| - 1])
  }

  // The new value of the last diff that names the field; `start` if none does.
  function LastNew(diffs: seq<Diff>, f: Field, start: Value): Value {
    if diffs == [] then start else
    var last := diffs[|diffs| - 1];
    if f in last then last[f].1 else LastNew(diffs[..|diffs| - 1], f, start)
  }

  // The index of the first diff that names the field; the length if none does.
  function FirstNaming(diffs: seq<Diff>, f: Field): (k: nat)
    ensures k <= |diffs| && (k < |diffs| ==> f in diffs[k]) && forall i :: 0 <= i < k ==> f !in diffs[i]
  {
    if diffs == [] then 0 else
    var k := FirstNaming(diffs[..|diffs| - 1], f);
    if k < |diffs| - 1 || f in diffs[|diffs| - 1] then k else |diffs|
  }

  lemma {:induction false} RedoAllField(row: Row, diffs: seq<Diff>, f: Field)
    requires f in row
    ensures RedoAll(row, diffs).Keys == row.Keys && RedoAll(row, diffs)[f] == LastNew(diffs, f, row[f])
  {
    if diffs != [] {
      RedoAllField(row, diffs[..|diffs| - 1], f);
    }
  }

  lemma {:induction false} UndoAllField(row: Row, diffs: seq<Diff>, f: Field)
    requires f in row
    ensures var k := FirstNaming(diffs, f);
            && UndoAll(row, diffs).Keys == row.Keys
            && UndoAll(row, diffs)[f] == if k < |diffs| then diffs[k][f].0 else row[f]
  {
    if diffs != [] {
      UndoAllField(Undo(row, diffs[|diffs| - 1]), diffs[..|diffs| - 1], f);
    }
  }

  lemma {:induction false} UnnamedKeeps(diffs: seq<Diff>, f: Field, start: Value, k: nat)
    requires k <= FirstNaming(diffs, f)
    ensures LastNew(diffs[..k], f, start) == start
    decreases k
  {
    if k > 0 {
      UnnamedKeeps(diffs, f, start, k - 1);
      assert diffs[..k][..k - 1] == diffs[..k - 1];
    }
  }

  // --- the invariant ---------------------------------------------------------

  function Diffs(commits: seq<Commit>): (r: seq<Diff>)
    ensures |r| == |commits| && forall i :: 0 <= i < |commits| ==> r[i] == commits[i].diff
  {
    seq(|commits|, i requires 0 <= i < |commits| => commits[i].diff)
  }

  // The field holds what the diffs end in, or an outside write displaced just that.
  ghost predicate Tracks(created: Row, diffs: seq<Diff>, s: Snapshot, f: Field)
    requires f in created && f in s.row
  {
    (if f in s.displaced then s.displaced[f] else s.row[f]) == LastNew(diffs, f, created[f])
  }

  ghost predicate AllTrack(sc: Schema, created: Row, diffs: seq<Diff>, s: Snapshot) {
    && HasFields(sc, created) && HasFields(sc, s.row)
    && forall f <- s.row :: f !in sc.derived ==> Tracks(created, diffs, s, f)
  }

  // The diff names old values of what was read, and no derived field.
  ghost predicate CommitOk(sc: Schema, created: Row, commits: seq<Commit>, k: nat)
    requires k < |commits|
  {
    var c := commits[k];
    && AllTrack(sc, created, Diffs(commits)[..k], c.read)
    && forall f <- c.diff :: f !in sc.derived && f in c.read.row && c.diff[f].0 == c.read.row[f]
  }

  function Current(e: Entity): Snapshot {
    Snapshot(e.row, e.displaced)
  }

  ghost predicate RowOk(sc: Schema, e: Entity) {
    && e.version == |e.committed| + 1
    && AllTrack(sc, e.created, Diffs(e.committed), Current(e))
    && forall k :: 0 <= k < |e.committed| ==> CommitOk(sc, e.created, e.committed, k)
  }

  // A request that passed its checks did so for the version it read.
  ghost predicate CheckedOk(sc: Schema, e: Entity, r: Request) {
    r.phase.Checked? ==>
      && HasFields(sc, r.phase.read.row)
      && r.phase.version <= e.version
      && IfMatch.CheckIfMatch(r.ifMatch, IfMatch.Etag(e.id, r.phase.version)) == IfMatch.Accepted
      && (r.phase.version == e.version ==> AllTrack(sc, e.created, Diffs(e.committed), r.phase.read))
  }

  ghost predicate RequestsOk(sc: Schema, e: Entity) {
    forall t :: 0 <= t < |e.requests| ==> CheckedOk(sc, e, e.requests[t])
  }

  ghost predicate AppliedOk(e: Entity, t: nat)
    requires t < |e.requests|
  {
    e.requests[t].phase.Applied? ==>
      var v := e.requests[t].phase.version;
      2 <= v <= |e.committed| + 1 && e.committed[v - 2].diff == e.requests[t].phase.diff
  }

  // Every committed diff is recorded, empty, or waiting to be recorded.
  ghost predicate Accounted(e: Entity, v: nat)
    requires 2 <= v <= |e.committed| + 1
  {
    if v in e.history then e.history[v] == e.committed[v - 2].diff else
    e.committed[v - 2].diff == map[]
    || exists t :: 0 <= t < |e.requests| && e.requests[t].phase == Applied(v, e.committed[v - 2].diff)
  }

  ghost predicate HistoryOk(e: Entity) {
    && (forall v <- e.history :: 2 <= v <= |e.committed| + 1)
    && (forall v :: v in e.recorded <==> v in e.history)
    && (forall t :: 0 <= t < |e.requests| ==> AppliedOk(e, t))
    && (forall v: nat :: 2 <= v <= |e.committed| + 1 ==> Accounted(e, v))
  }

  ghost predicate Inv(sc: Schema, e: Entity) {
    RowOk(sc, e) && RequestsOk(sc, e) && HistoryOk(e)
  }

  // Does the step write the row?
  ghost predicate Writes(sc: Schema, e: Entity, a: Action) {
    && a.Write? && e.live && a.request < |e.requests| && e.requests[a.request].phase.Checked?
    && HasFields(sc, e.requests[a.request].phase.read.row)
    && e.requests[a.request].phase.version == e.version
  }

  // Every step either writes, or overwrites one field from outside, or leaves the row alone.
  lemma OnlyWritesCommit(sc: Schema, e: Entity, a: Action)
    ensures Step(sc, e, a).created == e.created
    ensures !Writes(sc, e, a) ==>
              && Step(sc, e, a).committed == e.committed && Step(sc, e, a).version == e.version
              && (a.Outside? ==> Current(Step(sc, e, a)) == Current(OutsideStep(e, a.field, a.value)))
              && (!a.Outside? ==> Current(Step(sc, e, a)) == Current(e))
    ensures Writes(sc, e, a) ==>
              var r := e.requests[a.request];
              var next := Overlay(sc, r.phase.read.row, r.patch);
              && HasFields(sc, next)
              && Step(sc, e, a).version == e.version + 1
              && Step(sc, e, a).row == WithDerived(sc, next, a.derived)
              && Step(sc, e, a).displaced == r.phase.read.displaced - DiffOf(sc, r.phase.read.row, next).Keys
              && Step(sc, e, a).committed == e.committed + [Commit(DiffOf(sc, r.phase.read.row, next), r.phase.read)]
  {
    hide WriteStep, HasFields, CheckPhase, Overlay, DiffOf, WithDerived;
    if a.Write? && a.request < |e.requests| && e.requests[a.request].phase.Checked?
       && HasFields(sc, e.requests[a.request].phase.read.row) {
      WriteOutcome(sc, e, a.request, a.derived);
    }
  }

  lemma WriteOutcome(sc: Schema, e: Entity, t: nat, derived: Row)
    requires t < |e.requests| && e.requests[t].phase.Checked? && HasFields(sc, e.requests[t].phase.read.row)
    ensures var e' := WriteStep(sc, e, t, derived);
            var r := e.requests[t];
            var next := Overlay(sc, r.phase.read.row, r.patch);
            && e'.created == e.created && e'.id == e.id && e'.history == e.history && e'.recorded == e.recorded
            && HasFields(sc, next)
            && (e.live && r.phase.version == e.version ==>
                  && e'.version == e.version + 1 && e'.row == WithDerived(sc, next, derived)
                  && e'.displaced == r.phase.read.displaced - DiffOf(sc, r.phase.read.row, next).Keys
                  && e'.committed == e.committed + [Commit(DiffOf(sc, r.phase.read.row, next), r.phase.read)])
            && (!(e.live && r.phase.version == e.version) ==>
                  e'.version == e.version && Current(e') == Current(e) && e'.committed == e.committed)
  {
    hide DiffOf, WithDerived;
  }

  lemma OutsideTracks(sc: Schema, created: Row, diffs: seq<Diff>, e: Entity, f: Field, value: Value)
    requires AllTrack(sc, created, diffs, Current(e))
    ensures AllTrack(sc, created, diffs, Current(OutsideStep(e, f, value)))
  {
    hide LastNew;
  }

  // What a write leaves is in step with the diffs just as what it read was.
  lemma WriteTracks(sc: Schema, created: Row, diffs: seq<Diff>, read: Snapshot, patch: Row, derived: Row)
    requires AllTrack(sc, created, diffs, read)
    ensures var next := Overlay(sc, read.row, patch);
            && HasFields(sc, next)
            && var diff := DiffOf(sc, read.row, next);
            && AllTrack(sc, created, diffs + [diff],
                        Snapshot(WithDerived(sc, next, derived), read.displaced - diff.Keys))
            && forall f <- diff :: f !in sc.derived && f in read.row && diff[f].0 == read.row[f]
  {
    var next := Overlay(sc, read.row, patch);
    var diff := DiffOf(sc, read.row, next);
    DiffUpToHolds(sc, read.row, next, |sc.fields|);
    DiffRedoUndo(sc, read.row, next);
    var after := Snapshot(WithDerived(sc, next, derived), read.displaced - diff.Keys);
    hide DiffOf;
    assert (diffs + [diff])[..|diffs|] == diffs;
    forall f <- after.row | f !in sc.derived ensures Tracks(created, diffs + [diff], after, f) {
      assert Tracks(created, diffs, read, f);
      assert Redo(read.row, diff)[f] == next[f];
    }
  }

  lemma DiffsSnoc(commits: seq<Commit>, c: Commit)
    ensures Diffs(commits + [c]) == Diffs(commits) + [c.diff]
  {
  }

  lemma CommitsKept(sc: Schema, created: Row, commits: seq<Commit>, c: Commit, k: nat)
    requires k < |commits| && CommitOk(sc, created, commits, k)
    ensures CommitOk(sc, created, commits + [c], k)
  {
    assert Diffs(commits + [c])[..k] == Diffs(commits)[..k];
  }

  lemma RowKept(sc: Schema, e: Entity, a: Action)
    requires RowOk(sc, e) && RequestsOk(sc, e)
    ensures RowOk(sc, Step(sc, e, a))
  {
    hide Step, Overlay, DiffOf, CommitOk, AllTrack, OutsideStep, WithDerived, IfMatch.CheckIfMatch;
    OnlyWritesCommit(sc, e, a);
    if Writes(sc, e, a) {
      var r := e.requests[a.request];
      assert CheckedOk(sc, e, r);
      WriteTracks(sc, e.created, Diffs(e.committed), r.phase.read, r.patch, a.derived);
      var c := Commit(DiffOf(sc, r.phase.read.row, Overlay(sc, r.phase.read.row, r.patch)), r.phase.read);
      DiffsSnoc(e.committed, c);
      NewCommitOk(sc, e.created, e.committed, c);
      forall k | 0 <= k < |e.committed| ensures CommitOk(sc, e.created, e.committed + [c], k) {
        CommitsKept(sc, e.created, e.committed, c, k);
      }
    } else if a.Outside? {
      OutsideTracks(sc, e.created, Diffs(e.committed), e, a.field, a.value);
    }
  }

  lemma NewCommitOk(sc: Schema, created: Row, commits: seq<Commit>, c: Commit)
    requires AllTrack(sc, created, Diffs(commits), c.read)
    requires forall f <- c.diff :: f !in sc.derived && f in c.read.row && c.diff[f].0 == c.read.row[f]
    ensures CommitOk(sc, created, commits + [c], |commits|)
  {
    DiffsSnoc(commits, c);
    assert Diffs(commits + [c])[..|commits|] == Diffs(commits);
  }

  lemma WriteTouches(sc: Schema, e: Entity, t: nat, derived: Row)
    requires t < |e.requests| && e.requests[t].phase.Checked? && HasFields(sc, e.requests[t].phase.read.row)
    ensures WriteStep(sc, e, t, derived).id == e.id
    ensures exists p: Phase ::
              !p.Checked? && !p.Begun? && WriteStep(sc, e, t, derived).requests == SetPhase(e, t, p).requests
  {
    hide Overlay, DiffOf, WithDerived;
    var e' := WriteStep(sc, e, t, derived);
    assert e'.requests == SetPhase(e, t, e'.requests[t].phase).requests;
  }

  // Does the action move the request on?
  predicate Moves(a: Action, t: nat) {
    a == Check(t) || a == Refuse(t) || a == Record(t) || (a.Write? && a.request == t)
  }

  lemma OthersStay(sc: Schema, e: Entity, a: Action, t: nat)
    requires t < |e.requests| && !Moves(a, t)
    ensures t < |Step(sc, e, a).requests| && Step(sc, e, a).requests[t] == e.requests[t]
  {
    hide WriteStep, CheckPhase, HasFields;
    if a.Write? && a.request < |e.requests| && e.requests[a.request].phase.Checked?
       && HasFields(sc, e.requests[a.request].phase.read.row) {
      WriteTouches(sc, e, a.request, a.derived);
    }
  }

  function Rank(p: Phase): nat {
    match p case Begun => 0 case Checked(_, _) => 1 case Applied(_, _) => 2 case Ended(_) => 3
  }

  // A request only moves on, and its patch and header stay.
  ghost predicate MovedOn(r: Request, r': Request) {
    && r'.ifMatch == r.ifMatch && r'.patch == r.patch
    && Rank(r.phase) <= Rank(r'.phase) && (Rank(r.phase) == Rank(r'.phase) ==> r'.phase == r.phase)
  }

  lemma PhaseAdvances(sc: Schema, e: Entity, a: Action, t: nat)
    requires t < |e.requests|
    ensures t < |Step(sc, e, a).requests| && MovedOn(e.requests[t], Step(sc, e, a).requests[t])
  {
    hide Step, MovedOn;
    if !Moves(a, t) {
      MovedOnRefl(e.requests[t]);
      OthersStay(sc, e, a, t);
    } else if a.Write? {
      WriteAdvances(sc, e, t, a.derived);
    } else if a.Check? {
      CheckAdvances(sc, e, t);
    } else {
      EndAdvances(sc, e, a, t);
    }
  }

  lemma EndAdvances(sc: Schema, e: Entity, a: Action, t: nat)
    requires t < |e.requests| && (a == Refuse(t) || a == Record(t))
    ensures t < |Step(sc, e, a).requests| && MovedOn(e.requests[t], Step(sc, e, a).requests[t])
  {
    hide WriteStep, CheckPhase, HasFields, OutsideStep, IfMatch.CheckIfMatch, IfMatch.Etag;
    match a
    case Refuse(_) =>
    case Record(_) =>
  }

  lemma MovedOnRefl(r: Request)
    ensures MovedOn(r, r)
  {
  }

  lemma WriteAdvances(sc: Schema, e: Entity, t: nat, derived: Row)
    requires t < |e.requests|
    ensures t < |Step(sc, e, Write(t, derived)).requests|
    ensures MovedOn(e.requests[t], Step(sc, e, Write(t, derived)).requests[t])
  {
    hide WriteStep, HasFields;
    if e.requests[t].phase.Checked? && HasFields(sc, e.requests[t].phase.read.row) {
      WriteTouches(sc, e, t, derived);
    }
  }

  lemma CheckAdvances(sc: Schema, e: Entity, t: nat)
    requires t < |e.requests|
    ensures t < |Step(sc, e, Check(t)).requests| && MovedOn(e.requests[t], Step(sc, e, Check(t)).requests[t])
  {
    hide CheckPhase;
    CheckMoves(sc, e, e.requests[t]);
  }

  lemma CheckMoves(sc: Schema, e: Entity, r: Request)
    ensures !CheckPhase(sc, e, r).Begun? && !CheckPhase(sc, e, r).Applied?
  {
    hide IfMatch.CheckIfMatch, IfMatch.Etag;
  }

  lemma BegunChanges(sc: Schema, e: Entity, a: Action, t: nat)
    requires t < |e.requests| && e.requests[t].phase.Begun?
    ensures t < |Step(sc, e, a).requests|
    ensures Step(sc, e, a).requests[t].phase == if a == Check(t) then CheckPhase(sc, e, e.requests[t]) else Begun
  {
    hide WriteStep, CheckPhase, HasFields;
    if !Moves(a, t) {
      OthersStay(sc, e, a, t);
    }
  }

  // Only a write that succeeds makes a checked request an applied one.
  lemma CheckedChanges(sc: Schema, e: Entity, a: Action, t: nat)
    requires t < |e.requests| && e.requests[t].phase.Checked?
    ensures t < |Step(sc, e, a).requests|
    ensures Step(sc, e, a).requests[t].phase.Applied? ==>
              var r := e.requests[t];
              && Writes(sc, e, a) && a.request == t
              && Step(sc, e, a).requests[t].phase
                 == Applied(e.version + 1, DiffOf(sc, r.phase.read.row, Overlay(sc, r.phase.read.row, r.patch)))
  {
    if !Moves(a, t) {
      OthersStay(sc, e, a, t);
    } else {
      hide Overlay, DiffOf, CheckPhase, WithDerived;
    }
  }

  lemma RequestChanges(sc: Schema, e: Entity, a: Action, t: nat)
    requires t < |e.requests|
    ensures t < |Step(sc, e, a).requests| && Step(sc, e, a).id == e.id
    ensures var r, r' := e.requests[t], Step(sc, e, a).requests[t];
            && r'.ifMatch == r.ifMatch && r'.patch == r.patch
            && (r'.phase == r.phase || !r'.phase.Checked? || (a == Check(t) && r'.phase == CheckPhase(sc, e, r)))
  {
    hide Step, CheckPhase;
    PhaseAdvances(sc, e, a, t);
    RequestsKeepId(sc, e, a);
    if e.requests[t].phase.Begun? {
      BegunChanges(sc, e, a, t);
    }
  }

  lemma RequestsKeepId(sc: Schema, e: Entity, a: Action)
    ensures Step(sc, e, a).id == e.id
  {
    hide WriteStep, CheckPhase, HasFields;
    if a.Write? && a.request < |e.requests| && e.requests[a.request].phase.Checked?
       && HasFields(sc, e.requests[a.request].phase.read.row) {
      WriteOutcome(sc, e, a.request, a.derived);
    }
  }

  lemma AllTrackHas(sc: Schema, created: Row, diffs: seq<Diff>, s: Snapshot)
    ensures AllTrack(sc, created, diffs, s) ==> HasFields(sc, created) && HasFields(sc, s.row)
  {
  }

  lemma RequestKept(sc: Schema, e: Entity, a: Action, t: nat)
    requires RowOk(sc, e) && t < |e.requests| && CheckedOk(sc, e, e.requests[t])
    ensures t < |Step(sc, e, a).requests| && CheckedOk(sc, Step(sc, e, a), Step(sc, e, a).requests[t])
  {
    AllTrackHas(sc, e.created, Diffs(e.committed), Current(e));
    hide Step, Overlay, DiffOf, IfMatch.CheckIfMatch, IfMatch.Etag, AllTrack, Diffs, OutsideStep, HasFields;
    RequestChanges(sc, e, a, t);
    OnlyWritesCommit(sc, e, a);
  }

  lemma NewRequestBegins(sc: Schema, e: Entity, a: Action, t: nat)
    requires |e.requests| <= t < |Step(sc, e, a).requests|
    ensures Step(sc, e, a).requests[t].phase.Begun?
    ensures Step(sc, e, a).committed == e.committed && Step(sc, e, a).history == e.history
  {
  }

  lemma AppliedKept(sc: Schema, e: Entity, a: Action, t: nat)
    requires t < |e.requests| && AppliedOk(e, t) && e.version == |e.committed| + 1
    ensures t < |Step(sc, e, a).requests| && AppliedOk(Step(sc, e, a), t)
  {
    hide Step, CheckPhase, Overlay, DiffOf, HasFields;
    PhaseAdvances(sc, e, a, t);
    CommittedGrows(sc, e, a);
    var r := e.requests[t];
    match r.phase
    case Begun =>
      BegunChanges(sc, e, a, t);
      CheckMoves(sc, e, r);
    case Checked(_, _) =>
      CheckedChanges(sc, e, a, t);
      OnlyWritesCommit(sc, e, a);
    case _ =>
  }

  lemma CommittedGrows(sc: Schema, e: Entity, a: Action)
    ensures e.committed <= Step(sc, e, a).committed
    ensures !a.Record? ==> Step(sc, e, a).history == e.history && Step(sc, e, a).recorded == e.recorded
  {
    hide WriteStep, CheckPhase, HasFields, IfMatch.CheckIfMatch, IfMatch.Etag;
    if a.Write? && a.request < |e.requests| && e.requests[a.request].phase.Checked?
       && HasFields(sc, e.requests[a.request].phase.read.row) {
      WriteOutcome(sc, e, a.request, a.derived);
    }
  }

  // A request waiting to record keeps waiting until it does.
  lemma PendingKept(sc: Schema, e: Entity, a: Action, t: nat)
    requires t < |e.requests| && e.requests[t].phase.Applied?
    ensures t < |Step(sc, e, a).requests|
    ensures Step(sc, e, a).requests[t].phase == e.requests[t].phase || a == Record(t)
    ensures a == Record(t) && e.requests[t].phase.diff == map[] ==>
              Step(sc, e, a).history == e.history && Step(sc, e, a).recorded == e.recorded
    ensures a == Record(t) && e.requests[t].phase.diff != map[] ==>
              var v := e.requests[t].phase.version;
              && Step(sc, e, a).history == e.history[v := e.requests[t].phase.diff]
              && Step(sc, e, a).recorded == e.recorded + [v]
  {
    hide WriteStep, CheckPhase, HasFields;
    if !Moves(a, t) {
      OthersStay(sc, e, a, t);
    }
  }

  lemma IdleRecord(sc: Schema, e: Entity, t: nat)
    requires !(t < |e.requests| && e.requests[t].phase.Applied?)
    ensures Step(sc, e, Record(t)) == e
  {
  }

  lemma AccountedKept(sc: Schema, e: Entity, a: Action, v: nat)
    requires HistoryOk(e) && 2 <= v <= |e.committed| + 1
    ensures v <= |Step(sc, e, a).committed| + 1 && Accounted(Step(sc, e, a), v)
  {
    hide Step;
    assert Accounted(e, v);
    var e' := Step(sc, e, a);
    CommittedGrows(sc, e, a);
    assert e'.committed[v - 2] == e.committed[v - 2];
    if a.Record? {
      var u := a.request;
      if u < |e.requests| && e.requests[u].phase.Applied? {
        assert AppliedOk(e, u);
        PendingKept(sc, e, a, u);
      } else {
        IdleRecord(sc, e, u);
      }
    }
    if t :| 0 <= t < |e.requests| && e.requests[t].phase == Applied(v, e.committed[v - 2].diff) {
      PendingKept(sc, e, a, t);
    }
  }

  lemma NewCommitIsPending(sc: Schema, e: Entity, a: Action)
    requires e.version == |e.committed| + 1 && |Step(sc, e, a).committed| > |e.committed|
    requires forall v <- e.history :: 2 <= v <= |e.committed| + 1
    ensures |Step(sc, e, a).committed| == |e.committed| + 1 && Accounted(Step(sc, e, a), |e.committed| + 2)
  {
    hide Overlay, DiffOf, IfMatch.CheckIfMatch, IfMatch.Etag;
    var e' := Step(sc, e, a);
    assert e'.requests[a.request].phase == Applied(|e.committed| + 2, e'.committed[|e.committed|].diff);
  }

  lemma {:induction false} RunKeepsInv(sc: Schema, id: string, row: Row, acts: seq<Action>)
    requires HasFields(sc, row)
    ensures Inv(sc, Run(sc, Created(id, row), acts))
  {
    if acts != [] {
      hide Step, RowOk, CheckedOk, AppliedOk, Accounted;
      var n := |acts| - 1;
      RunKeepsInv(sc, id, row, acts[..n]);
      StepKeepsInv(sc, Run(sc, Created(id, row), acts[..n]), acts[n]);
    }
  }

  lemma StepKeepsInv(sc: Schema, e: Entity, a: Action)
    requires Inv(sc, e)
    ensures Inv(sc, Step(sc, e, a))
  {
    assert e.version == |e.committed| + 1;
    RowKept(sc, e, a);
    hide Step, RowOk, CheckedOk, AppliedOk, Accounted;
    var e' := Step(sc, e, a);
    forall t | 0 <= t < |e'.requests| ensures CheckedOk(sc, e', e'.requests[t]) && AppliedOk(e', t) {
      if t < |e.requests| {
        RequestKept(sc, e, a, t);
        AppliedKept(sc, e, a, t);
      } else {
        NewRequestBegins(sc, e, a, t);
        BegunIsOk(sc, e', t);
      }
    }
    HistoryKept(sc, e, a);
  }

  lemma BegunIsOk(sc: Schema, e: Entity, t: nat)
    requires t < |e.requests| && e.requests[t].phase.Begun?
    ensures CheckedOk(sc, e, e.requests[t]) && AppliedOk(e, t)
  {
  }

  lemma HistoryKept(sc: Schema, e: Entity, a: Action)
    requires HistoryOk(e) && e.version == |e.committed| + 1
    ensures forall v <- Step(sc, e, a).history :: 2 <= v <= |Step(sc, e, a).committed| + 1
    ensures forall v :: v in Step(sc, e, a).recorded <==> v in Step(sc, e, a).history
    ensures forall v: nat :: 2 <= v <= |Step(sc, e, a).committed| + 1 ==> Accounted(Step(sc, e, a), v)
  {
    hide Step, Accounted;
    CommittedGrows(sc, e, a);
    var e' := Step(sc, e, a);
    if a.Record? {
      if a.request < |e.requests| && e.requests[a.request].phase.Applied? {
        assert AppliedOk(e, a.request);
        PendingKept(sc, e, a, a.request);
      } else {
        IdleRecord(sc, e, a.request);
      }
    }
    forall v: nat | 2 <= v <= |e'.committed| + 1 ensures Accounted(e', v) {
      if v <= |e.committed| + 1 {
        AccountedKept(sc, e, a, v);
      } else {
        NewCommitIsPending(sc, e, a);
      }
    }
  }

  // --- what a patch can rely on ----------------------------------------------

  lemma {:induction false} RunAdvances(sc: Schema, e: Entity, acts: seq<Action>, t: nat)
    requires t < |e.requests|
    ensures t < |Run(sc, e, acts).requests| && MovedOn(e.requests[t], Run(sc, e, acts).requests[t])
  {
    if acts != [] {
      hide Step, Rank;
      RunAdvances(sc, e, acts[..|acts| - 1], t);
      PhaseAdvances(sc, Run(sc, e, acts[..|acts| - 1]), acts[|acts| - 1], t);
    }
  }

  // The value that the outside writes among the actions leave in the field.
  function LastOutside(acts: seq<Action>, f: Field, start: Value): Value {
    if acts == [] then start else
    var last := acts[|acts| - 1];
    if last.Outside? && last.field == f then last.value else LastOutside(acts[..|acts| - 1], f, start)
  }

  // While the version stays, only outside writes change the row.
  lemma {:induction false} BetweenVersions(sc: Schema, e: Entity, acts: seq<Action>, f: Field)
    requires f in e.row
    ensures var e' := Run(sc, e, acts);
            && e'.version >= e.version && e'.id == e.id
            && (e'.version == e.version ==> f in e'.row && e'.row[f] == LastOutside(acts, f, e.row[f]))
  {
    if acts != [] {
      hide Step, Overlay, WithDerived, DiffOf, HasFields;
      var n := |acts| - 1;
      BetweenVersions(sc, e, acts[..n], f);
      OnlyWritesCommit(sc, Run(sc, e, acts[..n]), acts[n]);
      RequestsKeepId(sc, Run(sc, e, acts[..n]), acts[n]);
    }
  }

  // The check and the write of one request, with any other actions between them.
  ghost predicate ChecksThenWrites(sc: Schema, e0: Entity, t: nat, between: seq<Action>, derived: Row) {
    && t < |e0.requests| && e0.requests[t].phase.Begun?
    && t < |Step(sc, e0, Check(t)).requests| && Step(sc, e0, Check(t)).requests[t].phase.Checked?
    && Writes(sc, Run(sc, Step(sc, e0, Check(t)), between), Write(t, derived))
  }

  lemma CheckReads(sc: Schema, e: Entity, t: nat)
    requires t < |e.requests| && e.requests[t].phase.Begun?
    requires t < |Step(sc, e, Check(t)).requests| && Step(sc, e, Check(t)).requests[t].phase.Checked?
    ensures Step(sc, e, Check(t)).requests[t].phase == Checked(Current(e), e.version)
    ensures Step(sc, e, Check(t)).requests[t].ifMatch == e.requests[t].ifMatch
    ensures Step(sc, e, Check(t)).requests[t].patch == e.requests[t].patch
    ensures Current(Step(sc, e, Check(t))) == Current(e)
    ensures Step(sc, e, Check(t)).id == e.id && Step(sc, e, Check(t)).version == e.version
    ensures IfMatch.CheckIfMatch(e.requests[t].ifMatch, IfMatch.Etag(e.id, e.version)) == IfMatch.Accepted
  {
    hide IfMatch.CheckIfMatch, IfMatch.Etag;
  }

  /** No patch is lost to another. Whenever a write succeeds, the header was accepted for the very
    * version the row is at. A field that the patch gives a value has that value; every other field
    * keeps the row's own exactly if the outside writes since the check left it as it was read.
    */
  lemma {:induction false} NoUpdateIsLost(
    sc: Schema, e0: Entity, t: nat, between: seq<Action>, derived: Row, f: Field)
    requires ChecksThenWrites(sc, e0, t, between, derived) && f in e0.row && f !in sc.derived
    ensures var e := Run(sc, Step(sc, e0, Check(t)), between);
            var e' := Step(sc, e, Write(t, derived));
            var patch := e0.requests[t].patch;
            && e.version == e0.version && e'.version == e.version + 1
            && IfMatch.CheckIfMatch(e0.requests[t].ifMatch, IfMatch.Etag(e.id, e.version)) == IfMatch.Accepted
            && f in e.row && f in e'.row
            && (Gives(sc, patch, f) ==> e'.row[f] == patch[f])
            && (!Gives(sc, patch, f) ==>
                  (e'.row[f] == e.row[f] <==> LastOutside(between, f, e0.row[f]) == e0.row[f]))
  {
    var e1 := Step(sc, e0, Check(t));
    CheckReads(sc, e0, t);
    hide Step, Run, IfMatch.CheckIfMatch, IfMatch.Etag, DiffOf, HasFields;
    RunAdvances(sc, e1, between, t);
    var e := Run(sc, e1, between);
    assert e.requests[t].phase == e1.requests[t].phase;
    BetweenVersions(sc, e1, between, f);
    OnlyWritesCommit(sc, e, Write(t, derived));
  }

  // --- what a write leaves, field by field -----------------------------------

  // The fields that a null clears.
  predicate NullClearsInIssue(f: Field) {
    || f.StatusId? || f.TypeId? || f.PriorityId? || f.SizeId? || f.EpicId? || f.ParentId? || f.AssignedTo?
    || f.QaAssigneeId? || f.ReviewerId? || f.Category? || f.ResolutionKind? || f.ReleaseVersionId? || f.ReleaseText?
  }

  predicate NullClearsInEpic(f: Field) {
    f.StatusId? || f.AssignedTo? || f.MilestoneId?
  }

  // The fields that a null leaves alone.
  predicate NullLeavesInIssue(f: Field) {
    f.Subject? || f.Description? || f.StartDate? || f.DueDate?
  }

  predicate NullLeavesInEpic(f: Field) {
    f.Subject? || f.Description? || f.Color? || f.StartDate? || f.EndDate?
  }

  // An issue's fields after a patch that read `read`; its milestone is the trigger's.
  ghost predicate LeavesIssue(read: Row, patch: Row, after: Row) {
    && (forall f :: f in read <==> NullClearsInIssue(f) || NullLeavesInIssue(f) || f.MilestoneId?)
    && (forall f :: f in after <==> f in read)
    && (forall f <- after :: f != MilestoneId && f in patch && patch[f] != Null ==> after[f] == patch[f])
    && (forall f <- after :: NullClearsInIssue(f) && f in patch && patch[f] == Null ==> after[f] == Null)
    && (forall f <- after :: NullLeavesInIssue(f) && f in patch && patch[f] == Null ==> after[f] == read[f])
    && (forall f <- after :: f != MilestoneId && f !in patch ==> after[f] == read[f])
  }

  // An epic's.
  ghost predicate LeavesEpic(read: Row, patch: Row, after: Row) {
    && (forall f :: f in read <==> NullClearsInEpic(f) || NullLeavesInEpic(f))
    && (forall f :: f in after <==> f in read)
    && (forall f <- after :: f in patch && patch[f] != Null ==> after[f] == patch[f])
    && (forall f <- after :: NullClearsInEpic(f) && f in patch && patch[f] == Null ==> after[f] == Null)
    && (forall f <- after :: NullLeavesInEpic(f) && f in patch && patch[f] == Null ==> after[f] == read[f])
    && (forall f <- after :: f !in patch ==> after[f] == read[f])
  }

  lemma IssueHas()
    ensures forall f :: f in ISSUE.fields <==> f != Color && f != EndDate
  {
  }

  lemma IssueGives(patch: Row, f: Field)
    ensures f in ISSUE.fields <==> NullClearsInIssue(f) || NullLeavesInIssue(f) || f.MilestoneId?
    ensures Gives(ISSUE, patch, f)
            <==> f != MilestoneId && f in patch && (patch[f] == Null ==> !NullLeavesInIssue(f))
    ensures f in ISSUE.derived <==> f == MilestoneId
    ensures !(NullClearsInIssue(f) && NullLeavesInIssue(f))
    ensures f == MilestoneId ==> !NullClearsInIssue(f) && !NullLeavesInIssue(f)
  {
    hide ISSUE;
    IssueHas();
    IssueSets(f);
  }

  lemma IssueSets(f: Field)
    ensures f in ISSUE.sticky <==> NullLeavesInIssue(f)
    ensures f in ISSUE.derived <==> f == MilestoneId
  {
  }

  lemma EpicGives(patch: Row, f: Field)
    ensures f in EPIC.fields <==> NullClearsInEpic(f) || NullLeavesInEpic(f)
    ensures Gives(EPIC, patch, f) <==> f in patch && (patch[f] == Null ==> !NullLeavesInEpic(f))
    ensures f !in EPIC.derived
    ensures !(NullClearsInEpic(f) && NullLeavesInEpic(f))
  {
    hide EPIC;
    EpicHas();
    EpicSets(f);
  }

  lemma EpicHas()
    ensures forall f :: f in EPIC.fields <==> NullClearsInEpic(f) || NullLeavesInEpic(f)
  {
  }

  lemma EpicSets(f: Field)
    ensures f in EPIC.sticky <==> NullLeavesInEpic(f)
    ensures f !in EPIC.derived
  {
  }

  // What is laid over, and what the trigger adds.
  lemma Overlaid(sc: Schema, read: Row, patch: Row, derived: Row, f: Field)
    requires HasFields(sc, read)
    ensures f in read <==> f in sc.fields
    ensures var after := WithDerived(sc, Overlay(sc, read, patch), derived);
            && (f in after <==> f in read)
            && (f in read ==>
                  after[f] == if f in sc.derived && f in derived then derived[f]
                              else if Gives(sc, patch, f) then patch[f] else read[f])
  {
    hide Gives;
  }

  lemma IssueOverlaid(read: Row, patch: Row, derived: Row)
    requires HasFields(ISSUE, read)
    ensures var after := WithDerived(ISSUE, Overlay(ISSUE, read, patch), derived);
            && LeavesIssue(read, patch, after) && MilestoneId in after && MilestoneId in read
            && after[MilestoneId] == if MilestoneId in derived then derived[MilestoneId] else read[MilestoneId]
  {
    hide ISSUE, Gives, Overlay, WithDerived, HasFields, NullClearsInIssue, NullLeavesInIssue;
    forall f: Field
      ensures f in read <==> NullClearsInIssue(f) || NullLeavesInIssue(f) || f.MilestoneId?
      ensures var after := WithDerived(ISSUE, Overlay(ISSUE, read, patch), derived);
              && (f in after <==> f in read)
              && (f in read && f != MilestoneId ==>
                    after[f] == if f in patch && (patch[f] == Null ==> !NullLeavesInIssue(f)) then patch[f]
                                else read[f])
              && (f in read && f == MilestoneId ==> after[f] == if f in derived then derived[f] else read[f])
              && !(NullClearsInIssue(f) && NullLeavesInIssue(f))
              && (f == MilestoneId ==> !NullClearsInIssue(f) && !NullLeavesInIssue(f))
    {
      Overlaid(ISSUE, read, patch, derived, f);
      IssueGives(patch, f);
    }
  }

  lemma EpicOverlaid(read: Row, patch: Row, derived: Row)
    requires HasFields(EPIC, read)
    ensures LeavesEpic(read, patch, WithDerived(EPIC, Overlay(EPIC, read, patch), derived))
  {
    hide EPIC, Gives, Overlay, WithDerived, HasFields, NullClearsInEpic, NullLeavesInEpic;
    forall f: Field
      ensures f in read <==> NullClearsInEpic(f) || NullLeavesInEpic(f)
      ensures var after := WithDerived(EPIC, Overlay(EPIC, read, patch), derived);
              && (f in after <==> f in read)
              && (f in read ==>
                    after[f] == if f in patch && (patch[f] == Null ==> !NullLeavesInEpic(f)) then patch[f] else read[f])
              && !(NullClearsInEpic(f) && NullLeavesInEpic(f))
    {
      Overlaid(EPIC, read, patch, derived, f);
      EpicGives(patch, f);
    }
  }

  /** A write that succeeds sets each given field, clears the fields that a null clears, and leaves
    * the rest as they were read at the check; an issue's milestone it never takes from the patch.
    */
  lemma WriteSetsFields(sc: Schema, e: Entity, t: nat, derived: Row)
    requires Writes(sc, e, Write(t, derived))
    ensures var (read, patch) := (e.requests[t].phase.read.row, e.requests[t].patch);
            var after := Step(sc, e, Write(t, derived)).row;
            && (sc == ISSUE ==> LeavesIssue(read, patch, after))
            && (sc == ISSUE ==> MilestoneId in after && MilestoneId in read
                                && after[MilestoneId] == if MilestoneId in derived then derived[MilestoneId]
                                                         else read[MilestoneId])
            && (sc == EPIC ==> LeavesEpic(read, patch, after))
    ensures Step(sc, e, Write(t, derived)).version == e.version + 1
  {
    hide Step, DiffOf, Overlay, WithDerived, LeavesIssue, LeavesEpic, HasFields;
    OnlyWritesCommit(sc, e, Write(t, derived));
    var r := e.requests[t];
    if sc == ISSUE { IssueOverlaid(r.phase.read.row, r.patch, derived); }
    if sc == EPIC { EpicOverlaid(r.phase.read.row, r.patch, derived); }
  }

  // --- what is answered ------------------------------------------------------

  // What a check answers, or reads.
  lemma CheckAnswers(sc: Schema, e: Entity, t: nat)
    requires t < |e.requests| && e.requests[t].phase.Begun?
    ensures var (r, e') := (e.requests[t], Step(sc, e, Check(t)));
            var verdict := IfMatch.CheckIfMatch(r.ifMatch, IfMatch.Etag(e.id, e.version));
            && e' == e.(requests := e'.requests) && t < |e'.requests|
            && var p := e'.requests[t].phase;
            && (!e.live ==> p == Ended(NotFound))
            && (e.live && r.ifMatch == None ==> p == Ended(PreconditionRequired))
            && (e.live && r.ifMatch != None && verdict != IfMatch.Accepted ==> p == Ended(PreconditionFailed))
            && (e.live && verdict == IfMatch.Accepted && sc == ISSUE ==>
                  p == if MilestoneId in r.patch && r.patch[MilestoneId] != Null then Ended(Unprocessable)
                       else Checked(Snapshot(e.row, e.displaced), e.version))
            && (e.live && verdict == IfMatch.Accepted && sc == EPIC ==>
                  p == Checked(Snapshot(e.row, e.displaced), e.version))
  {
    hide IfMatch.Etag, Trim, Split, IfMatch.SomeTagMatches;
  }

  // What a write answers when it does not apply, and what is left to record when it does.
  lemma WriteAnswers(sc: Schema, e: Entity, t: nat, derived: Row)
    requires t < |e.requests| && e.requests[t].phase.Checked? && HasFields(sc, e.requests[t].phase.read.row)
    ensures var (r, e') := (e.requests[t], Step(sc, e, Write(t, derived)));
            && t < |e'.requests|
            && var p := e'.requests[t].phase;
            && (!e.live ==> p == Ended(NotFound) && e' == e.(requests := e'.requests))
            && (e.live && e.version != r.phase.version ==>
                  p == Ended(PreconditionFailed) && e' == e.(requests := e'.requests))
            && (e.live && e.version == r.phase.version ==>
                  p.Applied? && p.version == e.version + 1
                  && forall f <- p.diff :: f in r.phase.read.row && p.diff[f].0 == r.phase.read.row[f]
                                           && p.diff[f].0 != p.diff[f].1)
  {
    hide Overlay, WithDerived, DiffUpTo;
    var read := e.requests[t].phase.read.row;
    var next := Overlay(sc, read, e.requests[t].patch);
    assert HasFields(sc, next) by { OverlayHasFields(sc, read, e.requests[t].patch); }
    DiffUpToHolds(sc, read, next, |sc.fields|);
  }

  lemma OverlayHasFields(sc: Schema, stored: Row, patch: Row)
    requires HasFields(sc, stored)
    ensures HasFields(sc, Overlay(sc, stored, patch))
  {
  }

  // A record answers with the version, and enters the diff just if there is a change.
  lemma RecordAnswers(sc: Schema, e: Entity, t: nat)
    requires t < |e.requests| && e.requests[t].phase.Applied?
    ensures var (p, e') := (e.requests[t].phase, Step(sc, e, Record(t)));
            && t < |e'.requests| && e'.requests[t].phase == Ended(Updated(p.version))
            && (p.diff == map[] ==> e'.history == e.history && e'.recorded == e.recorded)
            && (p.diff != map[] ==>
                  e'.history == e.history[p.version := p.diff] && e'.recorded == e.recorded + [p.version])
            && e'.row == e.row && e'.version == e.version
  {
  }

  // A value that is refused after the check ends the request, and changes nothing else.
  lemma RefuseAnswers(sc: Schema, e: Entity, t: nat)
    requires t < |e.requests| && e.requests[t].phase.Checked?
    ensures Step(sc, e, Refuse(t)) == e.(requests := e.requests[t := e.requests[t].(phase := Ended(Unprocessable))])
  {
  }

  // A move among its siblings changes the rank alone, a deletion only that the row is gone.
  lemma OtherStepsLeave(sc: Schema, e: Entity, rank: real)
    ensures Step(sc, e, Reorder(rank)).rank == rank && !Step(sc, e, Delete).live
    ensures Step(sc, e, Reorder(rank)).(rank := e.rank) == e && Step(sc, e, Delete).(live := e.live) == e
  {
  }

  // --- what history can rely on ----------------------------------------------

  // The diffs of the history in version order, an unrecorded version counting as no change.
  function InVersionOrder(history: map<nat, Diff>, n: nat): seq<Diff> {
    if n == 0 then [] else InVersionOrder(history, n - 1) + [if n + 1 in history then history[n + 1] else map[]]
  }

  // Nothing is between its write and its record.
  ghost predicate Settled(e: Entity) {
    forall t :: 0 <= t < |e.requests| ==> !e.requests[t].phase.Applied?
  }

  lemma {:induction false} SettledHistory(e: Entity, n: nat)
    requires HistoryOk(e) && Settled(e) && n <= |e.committed|
    ensures InVersionOrder(e.history, n) == Diffs(e.committed)[..n]
  {
    if n > 0 {
      SettledHistory(e, n - 1);
      assert Accounted(e, n + 1);
      var diffs := Diffs(e.committed);
      assert diffs[..n] == diffs[..n - 1] + [diffs[n - 1]];
    }
  }

  // Did the outside writes behind the field's value, if there were any, leave it as it was?
  ghost predicate Undisturbed(s: Snapshot, f: Field) {
    f in s.row && (f in s.displaced ==> s.displaced[f] == s.row[f])
  }

  // While the version stays, the outside writes disturb a field exactly if the last of them leaves
  // another value than it had.
  lemma {:induction false} DisturbedByOutside(sc: Schema, e: Entity, acts: seq<Action>, f: Field)
    requires f in e.row && f !in e.displaced && Run(sc, e, acts).version == e.version
    ensures Undisturbed(Current(Run(sc, e, acts)), f) <==> LastOutside(acts, f, e.row[f]) == e.row[f]
  {
    BetweenVersions(sc, e, acts, f);
    DisplacedValue(sc, e, acts, f);
    hide Run;
  }

  lemma {:induction false} DisplacedValue(sc: Schema, e: Entity, acts: seq<Action>, f: Field)
    requires f in e.row && f !in e.displaced && Run(sc, e, acts).version == e.version
    ensures var s := Current(Run(sc, e, acts));
            f in s.row && (if f in s.displaced then s.displaced[f] else s.row[f]) == e.row[f]
  {
    if acts != [] {
      hide Step, Overlay, WithDerived, DiffOf, HasFields;
      var n := |acts| - 1;
      BetweenVersions(sc, e, acts[..n], f);
      OnlyWritesCommit(sc, Run(sc, e, acts[..n]), acts[n]);
      DisplacedValue(sc, e, acts[..n], f);
    }
  }

  function History(e: Entity): seq<Diff> {
    InVersionOrder(e.history, if e.version == 0 then 0 else e.version - 1)
  }

  lemma SettledRun(sc: Schema, id: string, row: Row, acts: seq<Action>)
    requires HasFields(sc, row) && Settled(Run(sc, Created(id, row), acts))
    ensures var e := Run(sc, Created(id, row), acts);
            && Inv(sc, e) && e.created == row && History(e) == Diffs(e.committed)
  {
    RunKeepsInv(sc, id, row, acts);
    RunKeepsCreated(sc, Created(id, row), acts);
    var e := Run(sc, Created(id, row), acts);
    hide Run, AllTrack, CommitOk, CheckedOk, Accounted;
    SettledHistory(e, |e.committed|);
    assert Diffs(e.committed)[..|e.committed|] == Diffs(e.committed);
  }

  /** Replaying the recorded diffs in version order on the row as created gives the field's current
    * value exactly if the outside writes since its last patch left it as it was, once no request is
    * between its write and its record.
    */
  lemma {:induction false} HistoryRebuildsRow(sc: Schema, id: string, row: Row, acts: seq<Action>, f: Field)
    requires HasFields(sc, row) && Settled(Run(sc, Created(id, row), acts)) && f in row && f !in sc.derived
    ensures var e := Run(sc, Created(id, row), acts);
            && f in e.row && f in RedoAll(row, History(e))
            && (RedoAll(row, History(e))[f] == e.row[f] <==> Undisturbed(Current(e), f))
  {
    SettledRun(sc, id, row, acts);
    var e := Run(sc, Created(id, row), acts);
    hide Run, History, RedoAll, CommitOk, RequestsOk, HistoryOk, Diffs;
    RedoAllField(row, Diffs(e.committed), f);
    assert Tracks(row, Diffs(e.committed), Current(e), f);
  }

  // What the first write that changed the field had read; the current content if none did.
  function FirstRead(e: Entity, f: Field): Snapshot {
    var k := FirstNaming(Diffs(e.committed), f);
    if k < |e.committed| then e.committed[k].read else Current(e)
  }

  /** Undoing the recorded diffs in reverse version order on the current row gives back the field as
    * created exactly if the outside writes before its first patch left it as it was.
    */
  lemma {:induction false} HistoryUndoesRow(sc: Schema, id: string, row: Row, acts: seq<Action>, f: Field)
    requires HasFields(sc, row) && Settled(Run(sc, Created(id, row), acts)) && f in row && f !in sc.derived
    ensures var e := Run(sc, Created(id, row), acts);
            && f in e.row && f in UndoAll(e.row, History(e))
            && (UndoAll(e.row, History(e))[f] == row[f] <==> Undisturbed(FirstRead(e, f), f))
  {
    SettledRun(sc, id, row, acts);
    var e := Run(sc, Created(id, row), acts);
    var diffs := Diffs(e.committed);
    var k := FirstNaming(diffs, f);
    hide Run, History, UndoAll, RedoAll, RequestsOk, HistoryOk, LastNew, FirstNaming, Diffs;
    assert f in e.row;
    UndoAllField(e.row, diffs, f);
    UnnamedKeeps(diffs, f, row[f], k);
    assert diffs[..|diffs|] == diffs;
    if k < |diffs| {
      assert CommitOk(sc, row, e.committed, k);
      assert Tracks(row, diffs[..k], e.committed[k].read, f);
    } else {
      assert Tracks(row, diffs, Current(e), f);
    }
  }

  lemma RunKeepsCreated(sc: Schema, e: Entity, acts: seq<Action>)
    ensures Run(sc, e, acts).created == e.created
  {
    if acts != [] {
      hide Step;
      RunKeepsCreated(sc, e, acts[..|acts| - 1]);
      OnlyWritesCommit(sc, Run(sc, e, acts[..|acts| - 1]), acts[|acts| - 1]);
    }
  }

  // Nowhere is the field's value one that outside writes gave.
  ghost predicate NeverDisplaced(e: Entity, f: Field) {
    && f !in e.displaced
    && (forall k :: 0 <= k < |e.committed| ==> f !in e.committed[k].read.displaced)
    && forall t :: 0 <= t < |e.requests| && e.requests[t].phase.Checked? ==> f !in e.requests[t].phase.read.displaced
  }

  lemma NeverDisplacedKept(sc: Schema, e: Entity, a: Action, f: Field)
    requires NeverDisplaced(e, f) && !(a.Outside? && a.field == f)
    ensures NeverDisplaced(Step(sc, e, a), f)
  {
    var e' := Step(sc, e, a);
    OnlyWritesCommit(sc, e, a);
    forall t | 0 <= t < |e'.requests| && e'.requests[t].phase.Checked?
      ensures f !in e'.requests[t].phase.read.displaced
    {
      if t < |e.requests| {
        RequestChanges(sc, e, a, t);
        hide Step, IfMatch.CheckIfMatch, IfMatch.Etag;
      }
    }
    hide Step, DiffOf, Overlay, WithDerived;
  }

  /** So a field that is only written by patches has a history that replays and undoes. */
  lemma {:induction false} PatchedFieldsReplay(sc: Schema, id: string, row: Row, acts: seq<Action>, f: Field)
    requires HasFields(sc, row) && f in row && f !in sc.derived
    requires forall a <- acts :: !(a.Outside? && a.field == f)
    ensures var e := Run(sc, Created(id, row), acts); Undisturbed(Current(e), f) && Undisturbed(FirstRead(e, f), f)
  {
    NeverDisplacedRun(sc, id, row, acts, f);
    RunKeepsInv(sc, id, row, acts);
    var e := Run(sc, Created(id, row), acts);
    hide Run, RequestsOk, HistoryOk, FirstNaming, Diffs;
    var k := FirstNaming(Diffs(e.committed), f);
    RunKeepsCreated(sc, Created(id, row), acts);
    if k < |e.committed| {
      assert CommitOk(sc, e.created, e.committed, k);
    }
  }

  lemma {:induction false} NeverDisplacedRun(sc: Schema, id: string, row: Row, acts: seq<Action>, f: Field)
    requires forall a <- acts :: !(a.Outside? && a.field == f)
    ensures NeverDisplaced(Run(sc, Created(id, row), acts), f)
  {
    if acts != [] {
      var n := |acts| - 1;
      assert acts[n] in acts;
      hide Step, NeverDisplaced;
      NeverDisplacedRun(sc, id, row, acts[..n], f);
      NeverDisplacedKept(sc, Run(sc, Created(id, row), acts[..n]), acts[n], f);
    }
  }

  // --- the order of recording ------------------------------------------------

  // The recorded diffs in the order they were recorded, which is all that a reader sees of it.
  function InRecordedOrder(history: map<nat, Diff>, recorded: seq<nat>): seq<Diff> {
    if recorded == [] then [] else
    InRecordedOrder(history, recorded[..|recorded| - 1])
    + [if recorded[|recorded| - 1] in history then history[recorded[|recorded| - 1]] else map[]]
  }

  function Recorded(e: Entity): seq<Diff> {
    InRecordedOrder(e.history, e.recorded)
  }

  /** Replaying history as recorded gives a field what replaying it in version order gives, exactly
    * if the last recorded diff that names the field ends in the same value as the one of the highest
    * version; for an undisturbed field of a settled row that is its current value.
    */
  lemma {:induction false} RecordedOrderReplaysIff(sc: Schema, id: string, row: Row, acts: seq<Action>, f: Field)
    requires HasFields(sc, row) && Settled(Run(sc, Created(id, row), acts)) && f in row && f !in sc.derived
    requires Undisturbed(Current(Run(sc, Created(id, row), acts)), f)
    ensures var e := Run(sc, Created(id, row), acts);
            && f in e.row && f in RedoAll(row, Recorded(e))
            && (RedoAll(row, Recorded(e))[f] == e.row[f]
                <==> LastNew(Recorded(e), f, row[f]) == LastNew(History(e), f, row[f]))
  {
    HistoryRebuildsRow(sc, id, row, acts, f);
    var e := Run(sc, Created(id, row), acts);
    hide Run, History, Recorded, RedoAll, LastNew, Settled;
    RedoAllField(row, Recorded(e), f);
    RedoAllField(row, History(e), f);
  }

  ghost predicate Rising(s: seq<nat>) {
    forall i, j :: 0 <= i < j < |s| ==> s[i] < s[j]
  }

  lemma RedoNothing(row: Row)
    ensures Redo(row, map[]) == row
  {
  }

  lemma RedoAllSnoc(row: Row, diffs: seq<Diff>, diff: Diff)
    ensures RedoAll(row, diffs + [diff]) == Redo(RedoAll(row, diffs), diff)
  {
    hide Redo;
    assert (diffs + [diff])[..|diffs|] == diffs;
  }

  // The versions recorded are those of the history up to `n + 1`.
  ghost predicate Holds(recorded: seq<nat>, history: map<nat, Diff>, n: nat) {
    forall v :: v in recorded <==> v in history && 2 <= v <= n + 1
  }

  lemma HoldsNothing(recorded: seq<nat>, history: map<nat, Diff>)
    requires Holds(recorded, history, 0)
    ensures recorded == []
  {
    HasFirst(recorded);
  }

  lemma HoldsLess(recorded: seq<nat>, history: map<nat, Diff>, n: nat)
    requires Holds(recorded, history, n) && n > 0 && n + 1 !in history
    ensures Holds(recorded, history, n - 1)
  {
  }

  lemma RisingLast(recorded: seq<nat>, history: map<nat, Diff>, n: nat)
    requires Rising(recorded) && Holds(recorded, history, n) && n > 0 && n + 1 in history
    ensures recorded != [] && recorded == recorded[..|recorded| - 1] + [n + 1]
    ensures Rising(recorded[..|recorded| - 1]) && Holds(recorded[..|recorded| - 1], history, n - 1)
  {
    assert n + 1 in recorded;
    var i :| 0 <= i < |recorded| && recorded[i] == n + 1;
    var before := recorded[..|recorded| - 1];
    assert recorded[|recorded| - 1] in recorded;
    assert recorded == before + [n + 1];
    forall v ensures v in before <==> v in history && 2 <= v <= n {
      assert v in recorded <==> v in before || v == n + 1;
    }
  }

  lemma RecordedMore(history: map<nat, Diff>, before: seq<nat>, v: nat)
    requires v in history
    ensures InRecordedOrder(history, before + [v]) == InRecordedOrder(history, before) + [history[v]]
  {
    assert (before + [v])[..|before|] == before;
  }

  // Both replays agree so far.
  ghost predicate ReplayAlike(row: Row, history: map<nat, Diff>, recorded: seq<nat>, n: nat) {
    RedoAll(row, InRecordedOrder(history, recorded)) == RedoAll(row, InVersionOrder(history, n))
  }

  lemma AlikeRecorded(row: Row, history: map<nat, Diff>, before: seq<nat>, n: nat)
    requires n > 0 && n + 1 in history && ReplayAlike(row, history, before, n - 1)
    ensures ReplayAlike(row, history, before + [n + 1], n)
  {
    RecordedMore(history, before, n + 1);
    RedoAllSnoc(row, InRecordedOrder(history, before), history[n + 1]);
    RedoAllSnoc(row, InVersionOrder(history, n - 1), history[n + 1]);
    hide RedoAll, InRecordedOrder, Redo;
  }

  lemma AlikeSkipped(row: Row, history: map<nat, Diff>, recorded: seq<nat>, n: nat)
    requires n > 0 && n + 1 !in history && ReplayAlike(row, history, recorded, n - 1)
    ensures ReplayAlike(row, history, recorded, n)
  {
    RedoAllSnoc(row, InVersionOrder(history, n - 1), map[]);
    RedoNothing(RedoAll(row, InVersionOrder(history, n - 1)));
    hide RedoAll, InRecordedOrder, Redo;
  }

  lemma {:induction false} RisingReplays(row: Row, history: map<nat, Diff>, recorded: seq<nat>, n: nat)
    requires Rising(recorded) && Holds(recorded, history, n)
    ensures ReplayAlike(row, history, recorded, n)
    decreases n
  {
    if n == 0 {
      HoldsNothing(recorded, history);
    } else {
      hide *;
      if n + 1 in history {
        RisingLast(recorded, history, n);
        RisingReplays(row, history, recorded[..|recorded| - 1], n - 1);
        AlikeRecorded(row, history, recorded[..|recorded| - 1], n);
      } else {
        HoldsLess(recorded, history, n);
        RisingReplays(row, history, recorded, n - 1);
        AlikeSkipped(row, history, recorded, n);
      }
    }
  }

  lemma HasFirst(s: seq<nat>)
    ensures s == [] || s[0] in s
  {
  }

  /** In particular when the versions were recorded in rising order. */
  lemma {:induction false} RisingOrderReplays(sc: Schema, id: string, row: Row, acts: seq<Action>)
    requires HasFields(sc, row) && Rising(Run(sc, Created(id, row), acts).recorded)
    ensures var e := Run(sc, Created(id, row), acts); RedoAll(row, Recorded(e)) == RedoAll(row, History(e))
  {
    hide Run, Inv, RedoAll, InRecordedOrder, InVersionOrder, Rising;
    RunKeepsInv(sc, id, row, acts);
    var e := Run(sc, Created(id, row), acts);
    RecordedIsHistory(sc, e);
    RisingReplays(row, e.history, e.recorded, e.version - 1);
  }

  lemma RecordedIsHistory(sc: Schema, e: Entity)
    requires Inv(sc, e)
    ensures e.version >= 1 && Holds(e.recorded, e.history, e.version - 1)
  {
    hide AllTrack, CommitOk, RequestsOk, AppliedOk, Accounted;
  }

  // --- runs that show the conditions are needed ------------------------------

  lemma Then(sc: Schema, base: Entity, acts: seq<Action>, e: Entity, a: Action)
    returns (acts': seq<Action>, e': Entity)
    requires e == Run(sc, base, acts)
    ensures acts' == acts + [a] && e' == Run(sc, base, acts') && e' == Step(sc, e, a)
  {
    hide Step;
    acts', e' := acts + [a], Step(sc, e, a);
    assert acts'[..|acts|] == acts;
  }

  lemma StarIsAccepted(current: string)
    ensures IfMatch.CheckIfMatch(Some("*"), current) == IfMatch.Accepted
  {
    TrimTight("*");
  }

  // A request for a patch without derived fields, and its accepted check.
  lemma ThenBegun(sc: Schema, base: Entity, acts: seq<Action>, e: Entity, patch: Row)
    returns (acts': seq<Action>, e': Entity)
    requires e == Run(sc, base, acts) && e.live && forall f <- sc.derived :: f !in patch
    ensures e' == Run(sc, base, acts') && e' == e.(requests := e.requests + [Request(Some("*"), patch, Begun)])
    ensures Step(sc, e', Check(|e.requests|))
            == e.(requests := e.requests + [Request(Some("*"), patch, Checked(Current(e), e.version))])
  {
    hide IfMatch.CheckIfMatch, IfMatch.Etag;
    acts', e' := Then(sc, base, acts, e, Begin(Some("*"), patch));
    StarIsAccepted(IfMatch.Etag(e.id, e.version));
    assert CheckPhase(sc, e', e'.requests[|e.requests|]) == Checked(Current(e), e.version);
  }

  lemma RunNothing(sc: Schema, e: Entity)
    ensures Run(sc, e, []) == e
  {
  }

  lemma RunOne(sc: Schema, e: Entity, a: Action)
    ensures Run(sc, e, [a]) == Step(sc, e, a)
  {
    hide Step;
    assert [a][..0] == [];
  }

  lemma OutsideOne(f: Field, value: Value, start: Value)
    ensures LastOutside([Outside(f, value)], f, start) == value
  {
  }

  /** An epic is put into a milestone between the check and the write of a patch of its subject,
    * and the write takes it out again.
    */
  lemma {:induction false} EpicAssignmentIsLost(id: string, row: Row, milestone: string, derived: Row)
    returns (acts: seq<Action>)
    requires HasFields(EPIC, row) && MilestoneId in row && row[MilestoneId] == Null
    ensures var e := Run(EPIC, Created(id, row), acts);
            var e' := Step(EPIC, e, Write(0, derived));
            && e'.version == e.version + 1
            && MilestoneId in e.row && e.row[MilestoneId] == Json(milestone)
            && MilestoneId in e'.row && e'.row[MilestoneId] == Null
  {
    var base, patch := Created(id, row), map[Subject := Json("b")];
    var e0;
    hide Run, Step, HasFields;
    RunNothing(EPIC, base);
    acts, e0 := ThenBegun(EPIC, base, [], base, patch);
    var between := [Outside(MilestoneId, Json(milestone))];
    var e1;
    acts, e1 := Then(EPIC, base, acts, e0, Check(0));
    RunOne(EPIC, e1, between[0]);
    var e;
    acts, e := Then(EPIC, base, acts, e1, between[0]);
    OutsideKeepsRequests(EPIC, e1, MilestoneId, Json(milestone));
    OutsideOne(MilestoneId, Json(milestone), Null);
    NoUpdateIsLost(EPIC, e0, 0, between, derived, MilestoneId);
    WriteKeepsRead(EPIC, e, 0, derived, MilestoneId);
  }

  lemma OutsideKeepsRequests(sc: Schema, e: Entity, f: Field, value: Value)
    requires f in e.row
    ensures var e' := Step(sc, e, Outside(f, value));
            && e'.requests == e.requests && e'.live == e.live && e'.version == e.version && e'.row == e.row[f := value]
            && e'.history == e.history && e'.recorded == e.recorded
            && f in e'.displaced && e'.displaced[f] == if f in e.displaced then e.displaced[f] else e.row[f]
  {
  }

  lemma WriteKeepsRead(sc: Schema, e: Entity, t: nat, derived: Row, f: Field)
    requires Writes(sc, e, Write(t, derived)) && f in e.requests[t].phase.read.row && f !in sc.derived
    requires !Gives(sc, e.requests[t].patch, f)
    ensures var e' := Step(sc, e, Write(t, derived)); f in e'.row && e'.row[f] == e.requests[t].phase.read.row[f]
  {
    hide Step, DiffOf, HasFields;
    OnlyWritesCommit(sc, e, Write(t, derived));
  }

  // A request checked and written, with no action between.
  lemma ThenWritten(sc: Schema, base: Entity, acts: seq<Action>, e: Entity, patch: Row, next: Row, diff: Diff)
    returns (acts': seq<Action>, e': Entity)
    requires e == Run(sc, base, acts) && e.live && HasFields(sc, e.row) && forall f <- sc.derived :: f !in patch
    requires next == Overlay(sc, e.row, patch) && HasFields(sc, next) && diff == DiffOf(sc, e.row, next)
    ensures e' == Run(sc, base, acts')
    ensures e' == e.(row := next, displaced := e.displaced - diff.Keys, version := e.version + 1,
                     committed := e.committed + [Commit(diff, Current(e))],
                     requests := e.requests + [Request(Some("*"), patch, Applied(e.version + 1, diff))])
  {
    hide Step, HasFields, DiffOf, Overlay, Run;
    var t := |e.requests|;
    acts', e' := ThenBegun(sc, base, acts, e, patch);
    acts', e' := Then(sc, base, acts', e', Check(t));
    WriteLeadsTo(sc, e', t, next, diff);
    acts', e' := Then(sc, base, acts', e', Write(t, map[]));
  }

  lemma WriteLeadsTo(sc: Schema, e: Entity, t: nat, next: Row, diff: Diff)
    requires e.live && t < |e.requests| && e.requests[t].phase == Checked(Current(e), e.version)
    requires HasFields(sc, e.row) && next == Overlay(sc, e.row, e.requests[t].patch)
    requires HasFields(sc, next) && diff == DiffOf(sc, e.row, next)
    ensures Step(sc, e, Write(t, map[]))
            == SetPhase(e.(row := next, displaced := e.displaced - diff.Keys, version := e.version + 1,
                           committed := e.committed + [Commit(diff, Current(e))]),
                        t, Applied(e.version + 1, diff))
  {
    hide HasFields, DiffOf;
    assert WithDerived(sc, next, map[]) == next;
  }

  lemma ThenRecord(sc: Schema, base: Entity, acts: seq<Action>, e: Entity, t: nat, v: nat, diff: Diff)
    returns (acts': seq<Action>, e': Entity)
    requires e == Run(sc, base, acts) && t < |e.requests| && e.requests[t].phase == Applied(v, diff)
    ensures e' == Run(sc, base, acts')
    ensures diff != map[] ==>
              e' == e.(requests := e.requests[t := e.requests[t].(phase := Ended(Updated(v)))],
                       history := e.history[v := diff], recorded := e.recorded + [v])
    ensures diff == map[] ==> e' == e.(requests := e.requests[t := e.requests[t].(phase := Ended(Updated(v)))])
  {
    acts', e' := Then(sc, base, acts, e, Record(t));
  }

  lemma EmptyPatch(sc: Schema, row: Row)
    requires HasFields(sc, row)
    ensures Overlay(sc, row, map[]) == row && DiffOf(sc, row, row) == map[]
  {
    DiffRedoUndo(sc, row, row);
  }

  /** A patch sets a component's version; the row's release version follows by a trigger, and the
    * history does not.
    */
  lemma {:induction false} TriggeredReleaseIsNotReplayed(id: string, row: Row, release: string)
    returns (acts: seq<Action>)
    requires HasFields(ISSUE, row) && ReleaseVersionId in row && row[ReleaseVersionId] == Null
    ensures var e := Run(ISSUE, Created(id, row), acts);
            && Settled(e) && ReleaseVersionId in e.row && e.row[ReleaseVersionId] == Json(release)
            && ReleaseVersionId in RedoAll(row, History(e))
            && RedoAll(row, History(e))[ReleaseVersionId] != e.row[ReleaseVersionId]
  {
    var base, f := Created(id, row), ReleaseVersionId;
    EmptyPatch(ISSUE, row);
    hide Run, Step, HasFields, DiffOf, Overlay, RedoAll, History;
    RunNothing(ISSUE, base);
    var e;
    acts, e := ThenWritten(ISSUE, base, [], base, map[], row, map[]);
    acts, e := ThenRecord(ISSUE, base, acts, e, 0, 2, map[]);
    var before := e;
    OutsideKeepsRequests(ISSUE, before, f, Json(release));
    acts, e := Then(ISSUE, base, acts, e, Outside(f, Json(release)));
    HistoryRebuildsRow(ISSUE, id, row, acts, f);
  }

  // A row of the issue schema with its subject changed, and the diff of that.
  lemma SubjectDiff(row: Row, subject: string) returns (next: Row, diff: Diff)
    requires HasFields(ISSUE, row) && subject != "" && Subject in row && row[Subject] != Json(subject)
    ensures next == Overlay(ISSUE, row, map[Subject := Json(subject)]) && HasFields(ISSUE, next)
    ensures Subject in row && next[Subject] == Json(subject) && diff == DiffOf(ISSUE, row, next)
    ensures next[ISSUE.fields[0]] == Json(subject)
    ensures Subject in diff && diff[Subject] == (row[Subject], Json(subject))
  {
    next := Overlay(ISSUE, row, map[Subject := Json(subject)]);
    diff := DiffOf(ISSUE, row, next);
    assert ISSUE.fields[0] == Subject;
    DiffUpToHolds(ISSUE, row, next, |ISSUE.fields|);
  }

  // The subject is set to "b" and then to "c"; nothing is recorded yet.
  lemma SubjectTwice(id: string, row: Row)
    returns (acts: seq<Action>, e: Entity, d2: Diff, d3: Diff)
    requires HasFields(ISSUE, row) && Subject in row && row[Subject] == Json("a")
    ensures e == Run(ISSUE, Created(id, row), acts)
    ensures Subject in row && Subject in e.row && e.row[Subject] == Json("c")
    ensures e.history == map[] && e.recorded == [] && |e.requests| == 2
    ensures e.requests[0].phase == Applied(2, d2) && e.requests[1].phase == Applied(3, d3)
    ensures Subject in d2 && d2[Subject].1 == Json("b") && Subject in d3
  {
    var base := Created(id, row);
    var next, last;
    next, d2 := SubjectDiff(row, "b");
    last, d3 := SubjectDiff(next, "c");
    hide Run, Step, HasFields, DiffOf, Overlay;
    RunNothing(ISSUE, base);
    acts, e := ThenWritten(ISSUE, base, [], base, map[Subject := Json("b")], next, d2);
    acts, e := ThenWritten(ISSUE, base, acts, e, map[Subject := Json("c")], last, d3);
  }

  /** Recording is not part of the write: two requests can record in the opposite order of their
    * versions, and replaying history as recorded then gives an older subject than the row has.
    */
  lemma {:induction false} RecordedOrderCanMislead(id: string, row: Row) returns (acts: seq<Action>)
    requires HasFields(ISSUE, row) && Subject in row && row[Subject] == Json("a")
    ensures var e := Run(ISSUE, Created(id, row), acts);
            && Settled(e) && e.recorded == [3, 2]
            && Subject in e.row && e.row[Subject] == Json("c")
            && Subject in RedoAll(row, Recorded(e)) && RedoAll(row, Recorded(e))[Subject] == Json("b")
  {
    hide Run, Step, HasFields, RedoAll, InRecordedOrder;
    var base := Created(id, row);
    var e, d2, d3;
    acts, e, d2, d3 := SubjectTwice(id, row);
    acts, e := ThenRecord(ISSUE, base, acts, e, 1, 3, d3);
    acts, e := ThenRecord(ISSUE, base, acts, e, 0, 2, d2);
    assert e.history == map[3 := d3, 2 := d2] && e.recorded == [3, 2];
    MisleadingReplay(row, e.history);
  }

  lemma MisleadingReplay(row: Row, history: map<nat, Diff>)
    requires Subject in row && 2 in history && 3 in history && Subject in history[2]
    ensures var replayed := RedoAll(row, InRecordedOrder(history, [3, 2]));
            Subject in replayed && replayed[Subject] == history[2][Subject].1
  {
    hide RedoAll, InRecordedOrder;
    RecordedTwo(history);
    RedoAllField(row, InRecordedOrder(history, [3, 2]), Subject);
  }

  lemma RecordedTwo(history: map<nat, Diff>)
    requires 2 in history && 3 in history
    ensures InRecordedOrder(history, [3, 2]) == [history[3], history[2]]
  {
    hide RedoAll;
    assert [3, 2][..1] == [3] && [3][..0] == [];
    assert InRecordedOrder(history, [3]) == [history[3]];
  }

  // --- the handler on stored state -------------------------------------------

  method DiffRows(sc: Schema, before: Row, after: Row) returns (diff: Diff)
    requires HasFields(sc, before) && HasFields(sc, after)
    ensures diff == DiffOf(sc, before, after)
    ensures Redo(before, diff) == after && Undo(after, diff) == before
  {
    diff := map[];
    var i := 0;
    while i < |sc.fields|
      invariant 0 <= i <= |sc.fields|
      invariant diff == DiffUpTo(sc, before, after, i)
    {
      var f := sc.fields[i];
      if before[f] != after[f] {
        diff := diff[f := (before[f], after[f])];
      }
      i := i + 1;
    }
    DiffRedoUndo(sc, before, after);
  }

  lemma CheckedCanWrite(sc: Schema, e: Entity, t: nat, derived: Row)
    requires Inv(sc, e) && t < |e.requests| && e.requests[t].phase.Checked?
    ensures HasFields(sc, e.requests[t].phase.read.row)
    ensures HasFields(sc, Overlay(sc, e.requests[t].phase.read.row, e.requests[t].patch))
    ensures Inv(sc, WriteStep(sc, e, t, derived))
    ensures Step(sc, e, Action.Write(t, derived)) == WriteStep(sc, e, t, derived)
  {
    assert CheckedOk(sc, e, e.requests[t]);
    StepKeepsInv(sc, e, Action.Write(t, derived));
    hide Inv, WriteStep;
  }

  /** One stored row, its history, and the requests at work on it. */
  class Backlog {
    const schema: Schema
    const id: string
    var live: bool
    var row: Row
    var version: nat
    var rank: real
    var requests: seq<Request>
    var history: map<nat, Diff>
    var recorded: seq<nat>
    var displaced: Row
    ghost var created: Row
    ghost var committed: seq<Commit>

    ghost function View(): Entity
      reads this
    {
      Entity(id, live, created, row, displaced, version, rank, requests, history, recorded, committed)
    }

    ghost predicate Valid()
      reads this
    {
      Inv(schema, View())
    }

    constructor (schema: Schema, id: string, row: Row)
      requires HasFields(schema, row)
      ensures this.schema == schema && Valid() && View() == Created(id, row)
    {
      this.schema, this.id, this.row, this.created := schema, id, row, row;
      live, displaced, version, rank := true, map[], 1, 1.0;
      requests, history, recorded, committed := [], map[], [], [];
      new;
      RunKeepsInv(schema, id, row, []);
    }

    // A PATCH arrives; the result is its number.
    method Begin(ifMatch: Option<string>, patch: Row) returns (t: nat)
      requires Valid()
      modifies this
      ensures Valid() && View() == Step(schema, old(View()), Action.Begin(ifMatch, patch))
      ensures t == old(|requests|) && requests[t] == Request(ifMatch, patch, Begun)
    {
      StepKeepsInv(schema, View(), Action.Begin(ifMatch, patch));
      hide Inv;
      t := |requests|;
      requests := requests + [Request(ifMatch, patch, Begun)];
    }

    // Reads the row and checks `If-Match` against what was read.
    method Check(t: nat)
      requires Valid() && t < |requests| && requests[t].phase.Begun?
      modifies this`requests
      ensures Valid() && View() == Step(schema, old(View()), Action.Check(t))
    {
      StepKeepsInv(schema, View(), Action.Check(t));
      hide Inv;
      var r := requests[t];
      var phase := Ended(NotFound);
      if live {
        match IfMatch.CheckIfMatch(r.ifMatch, IfMatch.Etag(id, version)) {
          case Required => phase := Ended(PreconditionRequired);
          case Failed => phase := Ended(PreconditionFailed);
          case Accepted =>
            if exists f <- schema.derived :: f in r.patch && r.patch[f] != Null {
              phase := Ended(Unprocessable);
            } else {
              phase := Checked(Snapshot(row, displaced), version);
            }
        }
      }
      requests := requests[t := r.(phase := phase)];
    }

    // The write guarded by the version read, and the diff from the row read.
    method Write(t: nat, derived: Row) returns (applied: bool)
      requires Valid() && t < |requests| && requests[t].phase.Checked?
      modifies this
      ensures Valid() && View() == Step(schema, old(View()), Action.Write(t, derived))
      ensures applied <==> old(live) && old(version) == old(requests[t].phase.version)
      ensures applied ==> version == old(version) + 1
      ensures applied && schema == ISSUE ==>
                LeavesIssue(old(requests[t].phase.read.row), old(requests[t].patch), row)
      ensures applied && schema == EPIC ==> LeavesEpic(old(requests[t].phase.read.row), old(requests[t].patch), row)
      ensures !applied ==> requests[t].phase == Ended(if old(live) then PreconditionFailed else NotFound)
      ensures !applied ==> row == old(row) && version == old(version)
    {
      hide Inv, Step, HasFields, Overlay, DiffOf, WithDerived, LeavesIssue, LeavesEpic;
      ghost var before := View();
      CheckedCanWrite(schema, before, t, derived);
      if Writes(schema, before, Action.Write(t, derived)) {
        WriteSetsFields(schema, before, t, derived);
      }
      var r := requests[t];
      applied := false;
      if !live {
        requests := requests[t := r.(phase := Ended(NotFound))];
      } else if version != r.phase.version {
        requests := requests[t := r.(phase := Ended(PreconditionFailed))];
      } else {
        var stored := r.phase.read.row;
        var next := Overlay(schema, stored, r.patch);
        var diff := DiffRows(schema, stored, next);
        applied, row, version := true, WithDerived(schema, next, derived), version + 1;
        displaced := r.phase.read.displaced - diff.Keys;
        committed := committed + [Commit(diff, r.phase.read)];
        requests := requests[t := r.(phase := Applied(version, diff))];
      }
      assert View() == WriteStep(schema, before, t, derived);
    }

    // A field is written outside every patch.
    method Overwrite(f: Field, value: Value)
      requires Valid() && f in row
      modifies this`row, this`displaced
      ensures Valid() && View() == Step(schema, old(View()), Outside(f, value))
      ensures row == old(row)[f := value]
    {
      StepKeepsInv(schema, View(), Outside(f, value));
      hide Inv;
      if f !in displaced {
        displaced := displaced[f := row[f]];
      }
      row := row[f := value];
    }

    // Records a change in the history, and answers.
    method Record(t: nat)
      requires Valid() && t < |requests| && requests[t].phase.Applied?
      modifies this
      ensures Valid() && View() == Step(schema, old(View()), Action.Record(t))
      ensures requests[t].phase == Ended(Updated(old(requests[t].phase.version)))
    {
      StepKeepsInv(schema, View(), Action.Record(t));
      hide Inv;
      var r := requests[t];
      var Applied(v, diff) := r.phase;
      if diff != map[] {
        history, recorded := history[v := diff], recorded + [v];
      }
      requests := requests[t := r.(phase := Ended(Updated(v)))];
    }
  }
}
