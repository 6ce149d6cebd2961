/** What the row of a documentation source shows, told from the actions of a run: the outcome that
  * was recorded last, and how the job behind it ended.
  */
module DocOutcomes {
  import opened DocLocks

  // --- how a task's job ended ------------------------------------------------

  predicate Awaits(w: World, t: TaskId, j: JobId) {
    j in w.jobs && w.jobs[j].task == t && t < |w.tasks| && w.tasks[t].phase.Running? && w.tasks[t].phase.job == j
  }

  // The action ends the job that the task waits for, and the job went well.
  predicate EndsWell(w: World, a: Action, t: TaskId) {
    a.EndJob? && a.ok && Awaits(w, t, a.job)
  }

  // The job goes wrong, or the timeout fires, or the task fails before it has a job.
  predicate EndsBadly(w: World, a: Action, t: TaskId) {
    || (a.EndJob? && !a.ok && Awaits(w, t, a.job))
    || (a == Timeout(t) && t < |w.tasks| && w.tasks[t].phase.Running?)
    || (a == FailEarly(t) && t < |w.tasks| && w.tasks[t].phase.Claimed?)
  }

  ghost predicate EndsWellAt(acts: seq<Action>, n: nat, t: TaskId) {
    n < |acts| && EndsWell(Run(EMPTY, acts[..n]), acts[n], t)
  }

  ghost predicate EndsBadlyAt(acts: seq<Action>, n: nat, t: TaskId) {
    n < |acts| && EndsBadly(Run(EMPTY, acts[..n]), acts[n], t)
  }

  ghost predicate EndedWell(acts: seq<Action>, t: TaskId) {
    exists n: nat :: EndsWellAt(acts, n, t)
  }

  ghost predicate EndedBadly(acts: seq<Action>, t: TaskId) {
    exists n: nat :: EndsBadlyAt(acts, n, t)
  }

  lemma EndedSnoc(acts: seq<Action>, t: TaskId)
    requires acts != []
    ensures var (n, w) := (|acts| - 1, Run(EMPTY, acts[..|acts| - 1]));
            && (EndedWell(acts, t) <==> EndedWell(acts[..n], t) || EndsWell(w, acts[n], t))
            && (EndedBadly(acts, t) <==> EndedBadly(acts[..n], t) || EndsBadly(w, acts[n], t))
  {
    hide Run, EndsWell, EndsBadly;
    var n := |acts| - 1;
    forall k: nat | k < n
      ensures EndsWellAt(acts, k, t) <==> EndsWellAt(acts[..n], k, t)
      ensures EndsBadlyAt(acts, k, t) <==> EndsBadlyAt(acts[..n], k, t)
    {
      assert acts[..n][..k] == acts[..k];
    }
    assert EndsWellAt(acts, n, t) <==> EndsWell(Run(EMPTY, acts[..n]), acts[n], t);
    assert EndsBadlyAt(acts, n, t) <==> EndsBadly(Run(EMPTY, acts[..n]), acts[n], t);
  }

  predicate AtWork(p: Phase) {
    p.Start? || p.Waiting? || p.Held? || p.Claimed? || p.Running?
  }

  // A task finishes by an end of its work, as that end says, and works no more.
  lemma FinishFollowsEnd(w: World, a: Action, t: TaskId)
    requires t < |w.tasks|
    ensures t < |Step(w, a).tasks|
    ensures var (p, p') := (w.tasks[t].phase, Step(w, a).tasks[t].phase);
            && (AtWork(p') ==> AtWork(p) && !EndsWell(w, a, t) && !EndsBadly(w, a, t))
            && (p'.Finished? && AtWork(p) ==> (p'.ok <==> EndsWell(w, a, t)) && (!p'.ok <==> EndsBadly(w, a, t)))
            && (p'.Finished? && !AtWork(p) ==> p' == p)
            && (!AtWork(p) ==> !EndsWell(w, a, t) && !EndsBadly(w, a, t))
            && !(EndsWell(w, a, t) && EndsBadly(w, a, t))
  {
    hide Step;
    if a.EndJob? {
      FinishFollowsEndJob(w, a, t);
    } else {
      FinishFollowsFailure(w, a, t);
    }
  }

  lemma FinishFollowsEndJob(w: World, a: Action, t: TaskId)
    requires a.EndJob? && t < |w.tasks|
    ensures t < |Step(w, a).tasks|
    ensures var (p, p') := (w.tasks[t].phase, Step(w, a).tasks[t].phase);
            p' == if Awaits(w, t, a.job) then Finished(p.lock, a.ok) else p
  {
  }

  lemma FinishFollowsFailure(w: World, a: Action, t: TaskId)
    requires !a.EndJob? && t < |w.tasks|
    ensures t < |Step(w, a).tasks|
    ensures var (p, p') := (w.tasks[t].phase, Step(w, a).tasks[t].phase);
            && (AtWork(p') ==> AtWork(p) && !EndsBadly(w, a, t))
            && (p'.Finished? && AtWork(p) ==> !p'.ok && EndsBadly(w, a, t))
            && (p'.Finished? && !AtWork(p) ==> p' == p)
  {
    hide Registered;
    if Enabled(w, a) {
      match a
      case Claim(_, _) =>
      case StartJob(_) =>
      case Timeout(_) =>
      case FailEarly(_) =>
      case Cancel(_) =>
      case _ =>
    }
  }

  // How the task ended, as far as its phase still tells.
  ghost predicate EndKnown(acts: seq<Action>, t: TaskId) {
    var w := Run(EMPTY, acts);
    && (t < |w.tasks| && !AtWork(w.tasks[t].phase) ==> !(EndedWell(acts, t) && EndedBadly(acts, t)))
    && (t < |w.tasks| && AtWork(w.tasks[t].phase) ==> !EndedWell(acts, t) && !EndedBadly(acts, t))
    && (t < |w.tasks| && w.tasks[t].phase.Finished? ==>
          (w.tasks[t].phase.ok <==> EndedWell(acts, t)) && (!w.tasks[t].phase.ok <==> EndedBadly(acts, t)))
    && (t >= |w.tasks| ==> !EndedWell(acts, t) && !EndedBadly(acts, t))
  }

  lemma NobodyEnds(w: World, a: Action, t: TaskId)
    requires t >= |w.tasks|
    ensures !EndsWell(w, a, t) && !EndsBadly(w, a, t)
  {
  }

  lemma {:induction false} RunKnowsEnds(acts: seq<Action>, t: TaskId)
    ensures EndKnown(acts, t)
  {
    hide Step, EndedWell, EndedBadly, EndsWell, EndsBadly;
    if acts == [] {
      NothingEnded(t);
    } else {
      var n := |acts| - 1;
      var w := Run(EMPTY, acts[..n]);
      RunKnowsEnds(acts[..n], t);
      EndedSnoc(acts, t);
      if t < |w.tasks| {
        FinishFollowsEnd(w, acts[n], t);
      } else {
        NobodyEnds(w, acts[n], t);
        if t < |Step(w, acts[n]).tasks| { NewTaskStarts(w, acts[n], t); }
      }
    }
  }

  lemma NothingEnded(t: TaskId)
    ensures !EndedWell([], t) && !EndedBadly([], t)
  {
  }

  // --- what was told last ----------------------------------------------------

  ghost predicate ToldAt(w: World, s: SourceId, e: Event, i: nat) {
    && i < |w.log| && w.log[i] == e && Tells(w, s, e)
    && forall k :: i < k < |w.log| ==> !Tells(w, s, w.log[k])
  }

  // The event is the last to say what the row of `s` shows.
  ghost predicate LastTold(w: World, s: SourceId, e: Event) {
    exists i: nat :: ToldAt(w, s, e, i)
  }

  ghost predicate NothingTold(w: World, s: SourceId) {
    forall k :: 0 <= k < |w.log| ==> !Tells(w, s, w.log[k])
  }

  lemma QuietKeepsLast(w: World, w': World, s: SourceId, e: Event)
    requires forall e <- w.log :: e.task < |w.tasks|
    requires |w.tasks| <= |w'.tasks| && forall u :: 0 <= u < |w.tasks| ==> w'.tasks[u].source == w.tasks[u].source
    requires w'.log == w.log || exists e :: w'.log == w.log + [e] && e.task < |w.tasks| && !Tells(w, s, e)
    ensures LastTold(w', s, e) <==> LastTold(w, s, e)
    ensures NothingTold(w', s) <==> NothingTold(w, s)
  {
    forall k | 0 <= k < |w.log| ensures w'.log[k] == w.log[k] && (Tells(w', s, w'.log[k]) <==> Tells(w, s, w.log[k])) {
      assert w.log[k] in w.log;
    }
    forall i: nat ensures ToldAt(w', s, e, i) <==> ToldAt(w, s, e, i) {
    }
  }

  lemma TellingIsLast(w: World, s: SourceId, e: Event, d: Event)
    requires w.log != [] && w.log[|w.log| - 1] == e && Tells(w, s, e)
    ensures LastTold(w, s, d) <==> d == e
    ensures !NothingTold(w, s)
  {
    assert forall i: nat :: ToldAt(w, s, d, i) ==> i == |w.log| - 1;
    assert ToldAt(w, s, e, |w.log| - 1);
  }

  lemma {:induction false} SomethingIsLast(w: World, s: SourceId, n: nat)
    requires n <= |w.log| && forall k :: n <= k < |w.log| ==> !Tells(w, s, w.log[k])
    ensures NothingTold(w, s) || exists e :: LastTold(w, s, e)
  {
    if n > 0 {
      if Tells(w, s, w.log[n - 1]) {
        assert ToldAt(w, s, w.log[n - 1], n - 1) && LastTold(w, s, w.log[n - 1]);
      } else {
        SomethingIsLast(w, s, n - 1);
      }
    }
  }

  lemma OneIsLast(w: World, s: SourceId, d: Event, e: Event)
    requires LastTold(w, s, d)
    ensures LastTold(w, s, e) <==> d == e
    ensures !NothingTold(w, s)
  {
    hide Tells;
    var i: nat :| ToldAt(w, s, d, i);
  }

  // --- the row ---------------------------------------------------------------

  // What the last telling event makes of the row.
  ghost predicate Shows(acts: seq<Action>, e: Event, row: Status) {
    match e
    case ClaimGranted(_) => row == Syncing
    case OutcomeMarked(t) =>
      || (row == Ready && EndedWell(acts, t) && !EndedBadly(acts, t))
      || (row == Failed && EndedBadly(acts, t) && !EndedWell(acts, t))
    case _ => true
  }

  ghost predicate RowTold(acts: seq<Action>, s: SourceId) {
    var w := Run(EMPTY, acts);
    && (s in w.rows ==> forall e :: LastTold(w, s, e) ==> Shows(acts, e, w.rows[s]))
    && (s in w.rows && NothingTold(w, s) ==> w.rows[s] == Idle)
  }

  // Only sources that exist or did have tasks.
  ghost predicate TasksKnown(w: World) {
    forall t :: 0 <= t < |w.tasks| ==> w.tasks[t].source in w.rows || w.tasks[t].source in w.deleted
  }

  lemma KnownStays(w: World, a: Action, s: SourceId)
    requires s in w.rows || s in w.deleted
    ensures s in Step(w, a).rows || s in Step(w, a).deleted
  {
    hide Registered;
  }

  lemma NewTaskIsKnown(w: World, a: Action, t: TaskId)
    requires |w.tasks| <= t < |Step(w, a).tasks|
    ensures var s := Step(w, a).tasks[t].source; s in Step(w, a).rows || s in Step(w, a).deleted
    ensures Step(w, a).log == w.log && Step(w, a).rows == w.rows
  {
  }

  lemma {:induction false} RunKnowsTasks(acts: seq<Action>)
    ensures TasksKnown(Run(EMPTY, acts))
  {
    if acts != [] {
      hide Step;
      var (n, w) := (|acts| - 1, Run(EMPTY, acts[..|acts| - 1]));
      RunKnowsTasks(acts[..n]);
      forall t | 0 <= t < |Step(w, acts[n]).tasks|
        ensures var s := Step(w, acts[n]).tasks[t].source;
                s in Step(w, acts[n]).rows || s in Step(w, acts[n]).deleted
      {
        if t < |w.tasks| {
          SourceKept(w, acts[n], t);
          KnownStays(w, acts[n], w.tasks[t].source);
        } else {
          NewTaskIsKnown(w, acts[n], t);
        }
      }
    }
  }

  // A row just created has nothing told of it.
  lemma CreatedUntold(w: World, a: Action, s: SourceId)
    requires TasksKnown(w) && s !in w.rows && s in Step(w, a).rows
    ensures NothingTold(Step(w, a), s) && Step(w, a).rows[s] == Idle
  {
    RowsOnlyCreated(w, a, s);
    hide Step;
  }

  // A recorded outcome is that of the task's phase.
  lemma MarkShowsPhase(w: World, a: Action, s: SourceId, t: TaskId)
    requires Step(w, a).log == w.log + [OutcomeMarked(t)]
    ensures t < |w.tasks| && w.tasks[t].phase.Finished?
    ensures w.tasks[t].source == s && s in w.rows ==>
              s in Step(w, a).rows && Step(w, a).rows[s] == if w.tasks[t].phase.ok then Ready else Failed
  {
    hide Registered;
    if !a.Mark? {
      OnlyMarksMark(w, a, t);
    }
    assert a.Mark? ==> Step(w, a).log == w.log + [OutcomeMarked(a.task)] || Step(w, a) == w;
    assert (w.log + [OutcomeMarked(t)])[|w.log|] == OutcomeMarked(t);
    if a.Mark? { assert (w.log + [OutcomeMarked(a.task)])[|w.log|] == OutcomeMarked(a.task); }
  }

  lemma OnlyMarksMark(w: World, a: Action, t: TaskId)
    requires Step(w, a).log == w.log + [OutcomeMarked(t)]
    ensures a.Mark?
  {
    hide Registered;
    assert (w.log + [OutcomeMarked(t)])[|w.log|] == OutcomeMarked(t);
  }

  // Once its outcome is recorded a task ends no more.
  lemma MarkedEndsNoMore(acts: seq<Action>, a: Action, t: TaskId)
    requires var w := Run(EMPTY, acts); t < |w.tasks| && !AtWork(w.tasks[t].phase)
    ensures EndedWell(acts + [a], t) <==> EndedWell(acts, t)
    ensures EndedBadly(acts + [a], t) <==> EndedBadly(acts, t)
  {
    hide Run, Step, EndedWell, EndedBadly, EndsWell, EndsBadly;
    EndedSnoc(acts + [a], t);
    assert (acts + [a])[..|acts|] == acts;
    FinishFollowsEnd(Run(EMPTY, acts), a, t);
  }

  lemma ToldIsMarked(acts: seq<Action>, s: SourceId, t: TaskId)
    requires LastTold(Run(EMPTY, acts), s, OutcomeMarked(t))
    ensures var w := Run(EMPTY, acts); t < |w.tasks| && !AtWork(w.tasks[t].phase)
  {
    RunKeepsLog(acts);
    var w := Run(EMPTY, acts);
    hide Run, LogOk;
    var i: nat :| ToldAt(w, s, OutcomeMarked(t), i);
    assert OutcomeMarked(t) in w.log;
    assert PhaseLogged(w.log, t, w.tasks[t]);
  }

  // A step that tells nothing of `s`.
  lemma QuietRowTold(acts: seq<Action>, a: Action, s: SourceId)
    requires var (w, w') := (Run(EMPTY, acts), Step(Run(EMPTY, acts), a));
             && RowTold(acts, s) && s in w.rows && s in w'.rows && w'.rows[s] == w.rows[s]
             && (w'.log == w.log || exists e :: w'.log == w.log + [e] && e.task < |w.tasks| && !Tells(w, s, e))
    ensures RowTold(acts + [a], s)
  {
    RunKeepsLog(acts);
    var (w, w') := (Run(EMPTY, acts), Step(Run(EMPTY, acts), a));
    RunSnoc(acts, a);
    hide Run, Step, LastTold, NothingTold, EndedWell, EndedBadly, AtWork, LogOk, PhaseLogged;
    LogGrows(w, a);
    forall u | 0 <= u < |w.tasks| ensures w'.tasks[u].source == w.tasks[u].source {
      SourceKept(w, a, u);
    }
    QuietKeepsLast(w, w', s, ClaimGranted(0));
    forall e | LastTold(w', s, e) ensures Shows(acts + [a], e, w'.rows[s]) {
      QuietKeepsLast(w, w', s, e);
      if e.OutcomeMarked? {
        ToldIsMarked(acts, s, e.task);
        MarkedEndsNoMore(acts, a, e.task);
      }
    }
  }

  lemma RunSnoc(acts: seq<Action>, a: Action)
    ensures Run(EMPTY, acts + [a]) == Step(Run(EMPTY, acts), a)
  {
    hide Step;
    assert (acts + [a])[..|acts|] == acts;
  }

  // A step that tells of `s`.
  lemma TellingRowTold(acts: seq<Action>, a: Action, s: SourceId, e: Event)
    requires var (w, w') := (Run(EMPTY, acts), Step(Run(EMPTY, acts), a));
             && s in w.rows && s in w'.rows && w'.log == w.log + [e] && Tells(w, s, e)
             && (w'.rows[s] == Syncing <==> e.ClaimGranted?)
    ensures RowTold(acts + [a], s)
  {
    var (w, w') := (Run(EMPTY, acts), Step(Run(EMPTY, acts), a));
    RunSnoc(acts, a);
    SourceKept(w, a, e.task);
    hide Run, Step, LastTold, NothingTold, EndedWell, EndedBadly;
    if e.OutcomeMarked? {
      MarkShowsPhase(w, a, s, e.task);
      RunKnowsEnds(acts, e.task);
      MarkedEndsNoMore(acts, a, e.task);
    }
    assert w'.log[|w.log|] == e;
    forall d | LastTold(w', s, d) ensures Shows(acts + [a], d, w'.rows[s]) {
      TellingIsLast(w', s, e, d);
    }
    TellingIsLast(w', s, e, e);
  }

  lemma {:induction false} RunTellsRow(acts: seq<Action>, s: SourceId)
    ensures RowTold(acts, s)
  {
    if acts != [] {
      var (n, a) := (|acts| - 1, acts[|acts| - 1]);
      var (w, w') := (Run(EMPTY, acts[..n]), Run(EMPTY, acts));
      assert acts[..n] + [a] == acts;
      RunSnoc(acts[..n], a);
      RunTellsRow(acts[..n], s);
      hide Run, Step, RowTold, Tells;
      if s in w'.rows {
        if s in w.rows {
          RowFollowsLog(w, a, s);
          LogGrows(w, a);
          if e :| w'.log == w.log + [e] && Tells(w, s, e) {
            assert w'.log[|w.log|] == e;
            TellingRowTold(acts[..n], a, s, e);
          } else {
            QuietRowTold(acts[..n], a, s);
          }
        } else {
          RunKnowsTasks(acts[..n]);
          CreatedUntold(w, a, s);
          UntoldRowTold(acts, s);
        }
      } else {
        AbsentRowTold(acts, s);
      }
    }
  }

  lemma UntoldRowTold(acts: seq<Action>, s: SourceId)
    requires var w := Run(EMPTY, acts); s in w.rows && NothingTold(w, s) && w.rows[s] == Idle
    ensures RowTold(acts, s)
  {
    hide Run, Tells;
  }

  lemma AbsentRowTold(acts: seq<Action>, s: SourceId)
    requires s !in Run(EMPTY, acts).rows
    ensures RowTold(acts, s)
  {
    hide Run;
  }

  /** In every run an existing source shows `syncing` exactly if the last thing told of it is a
    * granted claim, `ready` exactly if it is the outcome of a task whose job ended well, `error`
    * exactly if it is that of a task whose work ended otherwise, and is fresh if nothing was told.
    */
  lemma {:induction false} StatusIsTheLastOutcome(acts: seq<Action>, s: SourceId)
    requires s in Run(EMPTY, acts).rows
    ensures var w := Run(EMPTY, acts);
            && (w.rows[s] == Idle <==> NothingTold(w, s))
            && (w.rows[s] == Syncing <==> exists t :: LastTold(w, s, ClaimGranted(t)))
            && (w.rows[s] == Ready <==> exists t :: LastTold(w, s, OutcomeMarked(t)) && EndedWell(acts, t))
            && (w.rows[s] == Failed <==> exists t :: LastTold(w, s, OutcomeMarked(t)) && EndedBadly(acts, t))
    ensures forall t :: !(LastTold(Run(EMPTY, acts), s, OutcomeMarked(t)) && EndedWell(acts, t) && EndedBadly(acts, t))
  {
    RunTellsRow(acts, s);
    var w := Run(EMPTY, acts);
    hide Run, LastTold, EndedWell, EndedBadly;
    SomethingIsLast(w, s, |w.log|);
    if d :| LastTold(w, s, d) {
      LastTells(w, s, d);
      forall e ensures LastTold(w, s, e) <==> e == d {
        OneIsLast(w, s, d, e);
      }
      OneIsLast(w, s, d, d);
    } else {
      assert NothingTold(w, s);
    }
  }

  lemma LastTells(w: World, s: SourceId, e: Event)
    requires LastTold(w, s, e)
    ensures e.ClaimGranted? || e.OutcomeMarked?
  {
  }

  // --- what a step leaves alone ----------------------------------------------

  // The action is about the row of `s`.
  predicate IsAbout(w: World, a: Action, s: SourceId) {
    || (a.CreateRow? && a.source == s) || (a.DeleteRow? && a.source == s)
    || ((a.Claim? || a.Mark?) && a.task < |w.tasks| && w.tasks[a.task].source == s)
  }

  lemma OtherRowsStay(w: World, a: Action, s: SourceId)
    requires !IsAbout(w, a, s)
    ensures var w' := Step(w, a);
            (s in w'.rows <==> s in w.rows) && (s in w.rows ==> w'.rows[s] == w.rows[s])
  {
    hide Registered;
    if Enabled(w, a) {
      match a
      case Claim(_, _) =>
      case Mark(_) =>
      case CreateRow(_) =>
      case DeleteRow(_) =>
      case _ =>
    }
  }

  // A claim is granted exactly if the source exists and is due; refused, it lets go of the lock.
  lemma ClaimAnswers(w: World, t: TaskId, due: bool)
    requires t < |w.tasks| && w.tasks[t].phase.Held? && w.tasks[t].kind == Refresh
    ensures var (w', s, l) := (Step(w, Claim(t, due)), w.tasks[t].source, w.tasks[t].phase.lock);
            && t < |w'.tasks|
            && (s in w.rows && due ==>
                  && w'.rows == w.rows[s := Syncing] && w'.holder == w.holder
                  && w'.tasks[t].phase == Claimed(l))
            && (!(s in w.rows && due) ==>
                  w'.rows == w.rows && w'.holder == w.holder - {l} && w'.tasks[t].phase == Done)
  {
  }

  // Cancelled wherever it stands, a task is done; its lock is free, and its job and row are as they
  // were. A record that fails leaves the row too.
  lemma CancelAnswers(w: World, t: TaskId)
    requires t < |w.tasks| && !w.tasks[t].phase.Done?
    ensures var (w', p) := (Step(w, Cancel(t)), w.tasks[t].phase);
            && t < |w'.tasks| && w'.tasks[t].phase == Done && w'.jobs == w.jobs && w'.rows == w.rows
            && w'.holder == (if p.Holds() then w.holder - {p.lock} else w.holder)
    ensures var w' := Step(w, FailMark(t));
            && w'.rows == w.rows && w'.holder == w.holder
            && (w.tasks[t].phase.Finished? && (w.tasks[t].kind == Refresh || w.tasks[t].phase.ok) ==>
                  t < |w'.tasks| && w'.tasks[t].phase == Marked(w.tasks[t].phase.lock))
  {
  }

  // A deletion takes the row, and forgetting its lock later takes that.
  lemma DeletionTakes(w: World, s: SourceId)
    requires s in w.rows
    ensures Step(w, DeleteRow(s)) == w.(rows := w.rows - {s}, deleted := w.deleted + {s})
    ensures s in w.deleted ==>
              Step(w, Forget(s)) == w.(registry := w.registry - {s}, forgotten := w.forgotten + {s})
  {
  }

  // Each held lock is held by a task at work under it.
  ghost predicate HeldByTasks(w: World) {
    forall l <- w.holder ::
      w.holder[l] < |w.tasks| && w.tasks[w.holder[l]].phase.Holds() && w.tasks[w.holder[l]].phase.lock == l
  }

  lemma HeldByTasksKept(w: World, a: Action)
    requires HeldByTasks(w)
    ensures HeldByTasks(Step(w, a))
  {
    if Locks(a) {
      HeldByTasksKeptByLock(w, a);
    } else {
      forall l <- w.holder ensures HolderFrameAt(w, a, l) {
        HolderFrame(w, a, w.holder[l]);
      }
      HolderIsKept(w, a);
    }
    hide Step;
  }

  // The task that holds the lock holds it still.
  ghost predicate HolderFrameAt(w: World, a: Action, l: LockId)
    requires l in w.holder
  {
    var (t, w') := (w.holder[l], Step(w, a));
    t < |w'.tasks| && w'.tasks[t].phase.Holds() && w'.tasks[t].phase.lock == l
  }

  lemma HolderIsKept(w: World, a: Action)
    requires !Locks(a)
    ensures Step(w, a).holder == w.holder
  {
    hide Registered;
  }

  lemma HeldByTasksKeptByLock(w: World, a: Action)
    requires HeldByTasks(w) && Locks(a)
    ensures HeldByTasks(Step(w, a))
  {
  }

  /** No lock is leaked: in every run whoever holds a lock is a task that still works under it. */
  lemma {:induction false} NoLockIsLeaked(acts: seq<Action>)
    ensures HeldByTasks(Run(EMPTY, acts))
  {
    if acts != [] {
      hide Step, HeldByTasks;
      NoLockIsLeaked(acts[..|acts| - 1]);
      HeldByTasksKept(Run(EMPTY, acts[..|acts| - 1]), acts[|acts| - 1]);
    }
  }

  // An edit's outcome is recorded only when it went well.
  ghost predicate EditMarkedWell(acts: seq<Action>, t: TaskId) {
    var w := Run(EMPTY, acts);
    t < |w.tasks| && w.tasks[t].kind == Edit && OutcomeMarked(t) in w.log ==> EndedWell(acts, t)
  }

  lemma KindKept(w: World, a: Action, t: TaskId)
    requires t < |w.tasks|
    ensures t < |Step(w, a).tasks| && Step(w, a).tasks[t].kind == w.tasks[t].kind
  {
    hide Registered;
    if Enabled(w, a) {
      match a
      case Claim(_, _) =>
      case StartJob(_) =>
      case EndJob(_, _) =>
      case Mark(_) =>
      case Cancel(_) =>
      case _ =>
    }
  }

  lemma MarkedEditWentWell(w: World, a: Action, t: TaskId)
    requires OutcomeMarked(t) in Step(w, a).log && OutcomeMarked(t) !in w.log
    ensures t < |w.tasks| && w.tasks[t].phase.Finished?
    ensures w.tasks[t].kind == Edit ==> w.tasks[t].phase.ok
  {
    hide Registered;
    if Enabled(w, a) {
      match a
      case Claim(_, _) =>
      case Mark(_) =>
      case FailMark(_) =>
      case Release(_) =>
      case Cancel(_) =>
      case _ =>
    }
  }

  /** A push that went wrong is not recorded: a source never shows the failure of an edit. */
  lemma {:induction false} EditsRecordSuccess(acts: seq<Action>, t: TaskId)
    ensures EditMarkedWell(acts, t)
  {
    if acts != [] {
      var (n, a) := (|acts| - 1, acts[|acts| - 1]);
      var w := Run(EMPTY, acts[..n]);
      EditsRecordSuccess(acts[..n], t);
      EndedSnoc(acts, t);
      RunKeepsLog(acts[..n]);
      hide Step, EndedWell, EndedBadly, LogOk;
      if t < |w.tasks| {
        KindKept(w, a, t);
        if OutcomeMarked(t) in Step(w, a).log && OutcomeMarked(t) !in w.log {
          MarkedEditWentWell(w, a, t);
          RunKnowsEnds(acts[..n], t);
        }
      } else if t < |Step(w, a).tasks| {
        NewTaskLogsNothing(w, a);
        assert forall e <- w.log :: e.task < |w.tasks|;
      }
    }
  }

  // An edit that went well and let go of its lock, other than by a cancellation, was recorded, or
  // recording it failed.
  ghost predicate EditSettled(acts: seq<Action>, t: TaskId) {
    var w := Run(EMPTY, acts);
    t < |w.tasks| && w.tasks[t].kind == Edit && LockReleased(t) in w.log && EndedWell(acts, t) ==> Settled(w.log, t)
  }

  lemma ReleaseFollowsPhase(w: World, a: Action, t: TaskId)
    requires LockReleased(t) in Step(w, a).log && LockReleased(t) !in w.log
    ensures t < |w.tasks|
    ensures w.tasks[t].kind == Edit ==>
              w.tasks[t].phase.Marked? || (w.tasks[t].phase.Finished? && !w.tasks[t].phase.ok)
  {
    hide Registered;
    if Enabled(w, a) {
      match a
      case Claim(_, _) =>
      case Mark(_) =>
      case FailMark(_) =>
      case Release(_) =>
      case Cancel(_) =>
      case _ =>
    }
  }

  lemma ReleasedIsDone(acts: seq<Action>, t: TaskId)
    requires var w := Run(EMPTY, acts); t < |w.tasks| && LockReleased(t) in w.log
    ensures !AtWork(Run(EMPTY, acts).tasks[t].phase)
  {
    RunKeepsLog(acts);
    hide Run, LogOk;
    assert PhaseLogged(Run(EMPTY, acts).log, t, Run(EMPTY, acts).tasks[t]);
  }

  lemma SettledStays(w: World, a: Action, t: TaskId)
    ensures Settled(w.log, t) ==> Settled(Step(w, a).log, t)
  {
    LogGrows(w, a);
    hide Step;
  }

  lemma {:induction false} EditsAreSettled(acts: seq<Action>, t: TaskId)
    ensures EditSettled(acts, t)
  {
    if acts != [] {
      hide *;
      var n := |acts| - 1;
      EditsAreSettled(acts[..n], t);
      EditStaysSettled(acts[..n], acts[n], t);
      assert acts[..n] + [acts[n]] == acts;
    }
  }

  lemma EditStaysSettled(acts: seq<Action>, a: Action, t: TaskId)
    requires EditSettled(acts, t)
    ensures EditSettled(acts + [a], t)
  {
    hide Run, Step, EndedWell, EndedBadly, LogInv, Settled, AtWork, EndsWell, EndsBadly;
    var w := Run(EMPTY, acts);
    RunSnoc(acts, a);
    EndedSnoc(acts + [a], t);
    assert (acts + [a])[..|acts|] == acts;
    RunKeepsLog(acts);
    SettledStays(w, a, t);
    if t < |w.tasks| {
      KindKept(w, a, t);
      LateEndsNothing(w, a, t);
      if LockReleased(t) in w.log {
        ReleasedIsDone(acts, t);
      } else if LockReleased(t) in Step(w, a).log {
        ReleaseFollowsPhase(w, a, t);
        if w.tasks[t].kind == Edit { EndIsSettled(acts, a, t); }
      }
    } else if t < |Step(w, a).tasks| {
      NewTaskReleasedNothing(w, a, t);
    }
  }

  lemma NewTaskReleasedNothing(w: World, a: Action, t: TaskId)
    requires LogInv(w) && |w.tasks| <= t < |Step(w, a).tasks|
    ensures LockReleased(t) !in Step(w, a).log
  {
    NewTaskLogsNothing(w, a);
    hide Step, LogOk, PhaseLogged;
    assert forall e <- w.log :: e.task < |w.tasks|;
  }

  lemma LateEndsNothing(w: World, a: Action, t: TaskId)
    requires t < |w.tasks|
    ensures !AtWork(w.tasks[t].phase) ==> !EndsWell(w, a, t)
  {
  }

  lemma EndIsSettled(acts: seq<Action>, a: Action, t: TaskId)
    requires var w := Run(EMPTY, acts); t < |w.tasks| && LogInv(w)
    requires var p := Run(EMPTY, acts).tasks[t].phase; p.Marked? || (p.Finished? && !p.ok)
    ensures var w := Run(EMPTY, acts); w.tasks[t].phase.Marked? ==> Settled(w.log, t)
    ensures var w := Run(EMPTY, acts); w.tasks[t].phase.Finished? ==> !EndedWell(acts, t)
    ensures !AtWork(Run(EMPTY, acts).tasks[t].phase)
  {
    RunKnowsEnds(acts, t);
    hide Run, LogOk;
    assert PhaseLogged(Run(EMPTY, acts).log, t, Run(EMPTY, acts).tasks[t]);
  }
}
