/** Keeping fetches and edits of one documentation source apart.
  *
  * A task (a refresh, or the edit half of saving a document) looks up its source's lock, waits
  * for it, and works under it: a refresh claims the row, runs git, records the outcome; an edit
  * runs git and records a successful push. Git itself runs as a detached blocking job: when the
  * timeout fires the task goes on with a failure and the job keeps running. A request whose
  * client disconnects is cancelled wherever it waits: its lock is dropped and nothing is recorded.
  */
module DocLocks {

  type SourceId = nat
  type TaskId = nat
  type LockId = nat
  type JobId = nat

  datatype Kind = Refresh | Edit

  datatype Phase =
    | Start
    | Waiting(lock: LockId)
    | Held(lock: LockId)
    | Claimed(lock: LockId)
    | Running(lock: LockId, job: JobId)
    | Finished(lock: LockId, ok: bool)
    | Marked(lock: LockId)
    | Done
  {
    predicate HasLock() { !Start? && !Done? }
    predicate Holds() { HasLock() && !Waiting? }
    // Between a granted claim and the record of its outcome.
    predicate Open() { Claimed? || Running? || Finished? }
  }

  datatype Task = Task(kind: Kind, source: SourceId, phase: Phase)

  datatype Job = Job(source: SourceId, task: TaskId)

  datatype Status = Idle | Syncing | Ready | Failed

  // `MarkFailed`: recording the outcome failed, and the failure is ignored.
  // `LockDropped`: the request was cancelled while it held the lock.
  datatype Event =
    | ClaimGranted(task: TaskId)
    | OutcomeMarked(task: TaskId)
    | MarkFailed(task: TaskId)
    | LockReleased(task: TaskId)
    | LockDropped(task: TaskId)

  // `locks[l]` is the source lock `l` was created for; `registry` is the shared map.
  datatype World = World(
    rows: map<SourceId, Status>,
    deleted: set<SourceId>,
    forgotten: set<SourceId>,
    registry: map<SourceId, LockId>,
    locks: seq<SourceId>,
    holder: map<LockId, TaskId>,
    tasks: seq<Task>,
    jobs: map<JobId, Job>,
    nextJob: JobId,
    log: seq<Event>)

  const EMPTY := World(map[], {}, {}, map[], [], map[], [], map[], 0, [])

  datatype Action =
    | CreateRow(source: SourceId)
    | Begin(kind: Kind, source: SourceId)
    | LockFor(task: TaskId)
    | Acquire(task: TaskId)
    | Claim(task: TaskId, due: bool)
    | FailEarly(task: TaskId)
    | StartJob(task: TaskId)
    | EndJob(job: JobId, ok: bool)
    | Timeout(task: TaskId)
    | Mark(task: TaskId)
    | FailMark(task: TaskId)
    | Release(task: TaskId)
    | Cancel(task: TaskId)
    | DeleteRow(source: SourceId)
    | Forget(source: SourceId)

  // --- the lock registry -----------------------------------------------------

  function Registered(registry: map<SourceId, LockId>, locks: seq<SourceId>, s: SourceId)
    : (map<SourceId, LockId>, seq<SourceId>)
  {
    if s in registry then (registry, locks) else (registry[s := |locks|], locks + [s])
  }

  class DocsConfig {
    var registry: map<SourceId, LockId>
    var locks: seq<SourceId>

    ghost predicate Valid()
      reads this
    {
      forall s <- registry :: registry[s] < |locks| && locks[registry[s]] == s
    }

    constructor ()
      ensures Valid() && registry == map[] && locks == []
    {
      registry, locks := map[], [];
    }

    // The lock of a source, made on demand: the same one for as long as it is not forgotten.
    method LockFor(s: SourceId) returns (lock: LockId)
      requires Valid()
      modifies this
      ensures Valid()
      ensures (registry, locks) == Registered(old(registry), old(locks), s)
      ensures s in registry && registry[s] == lock && lock < |locks| && locks[lock] == s
      ensures s in old(registry) ==> lock == old(registry)[s]
    {
      if s !in registry {
        registry := registry[s := |locks|];
        locks := locks + [s];
      }
      lock := registry[s];
    }

    method ForgetLock(s: SourceId)
      requires Valid()
      modifies this
      ensures Valid() && registry == old(registry) - {s} && locks == old(locks)
    {
      registry := registry - {s};
    }
  }

  // --- steps -----------------------------------------------------------------

  function SetPhase(w: World, t: TaskId, p: Phase): World
    requires t < |w.tasks|
  {
    w.(tasks := w.tasks[t := w.tasks[t].(phase := p)])
  }

  // May the action happen at all?
  predicate Enabled(w: World, a: Action) {
    match a
    case CreateRow(s) => s !in w.rows && s !in w.deleted
    // A request is let in when it has found the source's row, which may be gone by now.
    case Begin(_, s) => s in w.rows || s in w.deleted
    case LockFor(t) => t < |w.tasks| && w.tasks[t].phase.Start?
    case Acquire(t) => t < |w.tasks| && w.tasks[t].phase.Waiting? && w.tasks[t].phase.lock !in w.holder
    case Claim(t, _) => t < |w.tasks| && w.tasks[t].phase.Held? && w.tasks[t].kind == Refresh
    case FailEarly(t) => t < |w.tasks| && w.tasks[t].phase.Claimed?
    case StartJob(t) => t < |w.tasks| &&
      if w.tasks[t].kind == Refresh then w.tasks[t].phase.Claimed? else w.tasks[t].phase.Held?
    case EndJob(j, _) => j in w.jobs
    case Timeout(t) => t < |w.tasks| && w.tasks[t].phase.Running?
    case Mark(t) => t < |w.tasks| && w.tasks[t].phase.Finished? && (w.tasks[t].kind == Edit ==> w.tasks[t].phase.ok)
    case FailMark(t) => t < |w.tasks| && w.tasks[t].phase.Finished? && (w.tasks[t].kind == Edit ==> w.tasks[t].phase.ok)
    // A refused claim and an unsuccessful edit release without recording anything.
    case Release(t) => t < |w.tasks| &&
      (w.tasks[t].phase.Marked?
       || (w.tasks[t].kind == Edit && w.tasks[t].phase.Finished? && !w.tasks[t].phase.ok))
    case Cancel(t) => t < |w.tasks| && !w.tasks[t].phase.Done?
    case DeleteRow(s) => s in w.rows
    case Forget(s) => s in w.deleted
  }

  function Step(w: World, a: Action): World {
    if !Enabled(w, a) then w else
    match a
    case CreateRow(s) => w.(rows := w.rows[s := Idle])
    case Begin(kind, s) => w.(tasks := w.tasks + [Task(kind, s, Start)])
    case LockFor(t) =>
      var s := w.tasks[t].source;
      var (registry, locks) := Registered(w.registry, w.locks, s);
      SetPhase(w.(registry := registry, locks := locks), t, Waiting(registry[s]))
    case Acquire(t) =>
      var l := w.tasks[t].phase.lock;
      SetPhase(w.(holder := w.holder[l := t]), t, Held(l))
    case Claim(t, due) =>
      var s, l := w.tasks[t].source, w.tasks[t].phase.lock;
      if s in w.rows && due
      then SetPhase(w.(rows := w.rows[s := Syncing], log := w.log + [ClaimGranted(t)]), t, Claimed(l))
      else SetPhase(w.(holder := w.holder - {l}, log := w.log + [LockReleased(t)]), t, Done)
    case FailEarly(t) => SetPhase(w, t, Finished(w.tasks[t].phase.lock, false))
    case StartJob(t) =>
      SetPhase(w.(jobs := w.jobs[w.nextJob := Job(w.tasks[t].source, t)], nextJob := w.nextJob + 1),
               t, Running(w.tasks[t].phase.lock, w.nextJob))
    case EndJob(j, ok) =>
      var t := w.jobs[j].task;
      var w1 := w.(jobs := w.jobs - {j});
      if t < |w.tasks| && w.tasks[t].phase.Running? && w.tasks[t].phase.job == j
      then SetPhase(w1, t, Finished(w.tasks[t].phase.lock, ok))
      else w1
    case Timeout(t) => SetPhase(w, t, Finished(w.tasks[t].phase.lock, false))
    case Mark(t) =>
      var s, p := w.tasks[t].source, w.tasks[t].phase;
      var rows := if s in w.rows then w.rows[s := if p.ok then Ready else Failed] else w.rows;
      SetPhase(w.(rows := rows, log := w.log + [OutcomeMarked(t)]), t, Marked(p.lock))
    case FailMark(t) =>
      SetPhase(w.(log := w.log + [MarkFailed(t)]), t, Marked(w.tasks[t].phase.lock))
    case Release(t) =>
      SetPhase(w.(holder := w.holder - {w.tasks[t].phase.lock}, log := w.log + [LockReleased(t)]), t, Done)
    case Cancel(t) =>
      var p := w.tasks[t].phase;
      if p.Holds()
      then SetPhase(w.(holder := w.holder - {p.lock}, log := w.log + [LockDropped(t)]), t, Done)
      else SetPhase(w, t, Done)
    case DeleteRow(s) => w.(rows := w.rows - {s}, deleted := w.deleted + {s})
    case Forget(s) => w.(registry := w.registry - {s}, forgotten := w.forgotten + {s})
  }

  function Run(w: World, acts: seq<Action>): World {
    if acts == [] then w else Step(Run(w, acts[..|acts| - 1]), acts[|acts| - 1])
  }

  // --- the invariant ---------------------------------------------------------

  ghost predicate RegistryOk(w: World) {
    && w.rows.Keys !! w.deleted
    && w.forgotten <= w.deleted
    && forall s <- w.registry :: w.registry[s] < |w.locks| && w.locks[w.registry[s]] == s
  }

  // A task's lock was made for its source, and is still the registered one unless the source
  // has been forgotten.
  ghost predicate LockOk(
    registry: map<SourceId, LockId>, locks: seq<SourceId>, forgotten: set<SourceId>, task: Task)
  {
    task.phase.HasLock() ==>
      && task.phase.lock < |locks|
      && locks[task.phase.lock] == task.source
      && (task.source !in forgotten ==> task.source in registry && registry[task.source] == task.phase.lock)
  }

  ghost predicate TaskLockOk(w: World, task: Task) {
    LockOk(w.registry, w.locks, w.forgotten, task)
  }

  ghost predicate TaskLocksOk(w: World) {
    forall t :: 0 <= t < |w.tasks| ==> TaskLockOk(w, w.tasks[t])
  }

  ghost predicate HolderOk(w: World, t: TaskId)
    requires t < |w.tasks|
  {
    w.tasks[t].phase.Holds() ==> w.tasks[t].phase.lock in w.holder && w.holder[w.tasks[t].phase.lock] == t
  }

  ghost predicate HoldersOk(w: World) {
    forall t :: 0 <= t < |w.tasks| ==> HolderOk(w, t)
  }

  ghost predicate JobOk(w: World, t: TaskId)
    requires t < |w.tasks|
  {
    w.tasks[t].phase.Running? ==>
      w.tasks[t].phase.job in w.jobs && w.jobs[w.tasks[t].phase.job] == Job(w.tasks[t].source, t)
  }

  ghost predicate JobsOk(w: World) {
    && (forall j <- w.jobs :: j < w.nextJob)
    && (forall t :: 0 <= t < |w.tasks| ==> JobOk(w, t))
  }

  ghost predicate Inv(w: World) {
    RegistryOk(w) && TaskLocksOk(w) && HoldersOk(w) && JobsOk(w)
  }

  lemma LocksFrame(w: World, a: Action)
    requires !a.LockFor? && !a.Forget?
    ensures Step(w, a).registry == w.registry && Step(w, a).locks == w.locks
    ensures Step(w, a).forgotten == w.forgotten
  {
    hide Registered;
    if Enabled(w, a) {
      match a
      case Claim(_, _) =>
      case StartJob(_) =>
      case EndJob(_, _) =>
      case Mark(_) =>
      case Cancel(_) =>
      case _ =>
    }
  }

  lemma RowsFrame(w: World, a: Action)
    requires !a.CreateRow? && !a.DeleteRow?
    ensures Step(w, a).rows.Keys == w.rows.Keys && Step(w, a).deleted == w.deleted
  {
    hide Registered;
    if Enabled(w, a) {
      match a
      case Claim(_, _) =>
      case StartJob(_) =>
      case EndJob(_, _) =>
      case Mark(_) =>
      case Cancel(_) =>
      case _ =>
    }
  }

  lemma RegistryKeptByLookup(w: World, a: Action)
    requires (a.LockFor? || a.Forget?) && RegistryOk(w)
    ensures RegistryOk(Step(w, a))
  {
    RowsFrame(w, a);
  }

  lemma RegistryKept(w: World, a: Action)
    requires RegistryOk(w)
    ensures RegistryOk(Step(w, a))
  {
    if a.LockFor? || a.Forget? {
      hide Step, RegistryOk;
      RegistryKeptByLookup(w, a);
    } else {
      LocksFrame(w, a);
      if !a.CreateRow? && !a.DeleteRow? {
        hide Step;
        RowsFrame(w, a);
      }
    }
  }

  lemma RegisteredKeepsLocks(
    registry: map<SourceId, LockId>, locks: seq<SourceId>, forgotten: set<SourceId>, s: SourceId, task: Task)
    requires forall s <- registry :: registry[s] < |locks| && locks[registry[s]] == s
    ensures var (registry', locks') := Registered(registry, locks, s);
            && s in registry' && registry'[s] < |locks'| && locks'[registry'[s]] == s
            && (LockOk(registry, locks, forgotten, task) ==> LockOk(registry', locks', forgotten, task))
  {
  }

  lemma TaskLockKept(w: World, a: Action, t: TaskId)
    requires RegistryOk(w) && t < |w.tasks| && TaskLockOk(w, w.tasks[t])
    ensures t < |Step(w, a).tasks| && TaskLockOk(Step(w, a), Step(w, a).tasks[t])
  {
    hide Step, LockOk, Enabled;
    if a.LockFor? && Enabled(w, a) {
      LockForKeeps(w, a.task, t);
    } else if a.Forget? && Enabled(w, a) {
      ForgetKeeps(w, a.source, t);
    } else {
      LocksStay(w, a, t);
    }
  }

  lemma LockForKeeps(w: World, u: TaskId, t: TaskId)
    requires RegistryOk(w) && Enabled(w, LockFor(u)) && t < |w.tasks| && TaskLockOk(w, w.tasks[t])
    ensures var w' := Step(w, LockFor(u)); t < |w'.tasks| && TaskLockOk(w', w'.tasks[t])
  {
    hide Registered;
    RegisteredKeepsLocks(w.registry, w.locks, w.forgotten, w.tasks[u].source, w.tasks[t]);
  }

  lemma ForgetKeeps(w: World, s: SourceId, t: TaskId)
    requires t < |w.tasks| && TaskLockOk(w, w.tasks[t])
    ensures var w' := Step(w, Forget(s)); t < |w'.tasks| && TaskLockOk(w', w'.tasks[t])
  {
  }

  // No other step touches the locks, or gives a task one.
  lemma LocksStay(w: World, a: Action, t: TaskId)
    requires t < |w.tasks| && TaskLockOk(w, w.tasks[t]) && (Enabled(w, a) ==> !a.LockFor? && !a.Forget?)
    ensures t < |Step(w, a).tasks| && TaskLockOk(Step(w, a), Step(w, a).tasks[t])
  {
    hide Step, LockOk;
    if Enabled(w, a) {
      hide Enabled;
      LocksFrame(w, a);
      TaskFrame(w, a, t);
      SameLockOk(w.registry, w.locks, w.forgotten, w.tasks[t], Step(w, a).tasks[t]);
    } else {
      NotEnabled(w, a);
    }
  }

  lemma NotEnabled(w: World, a: Action)
    requires !Enabled(w, a)
    ensures Step(w, a) == w
  {
  }

  lemma TaskFrame(w: World, a: Action, t: TaskId)
    requires t < |w.tasks| && !a.LockFor?
    ensures t < |Step(w, a).tasks|
    ensures var (x, y) := (w.tasks[t], Step(w, a).tasks[t]);
            && y.source == x.source
            && (y.phase.HasLock() ==> x.phase.HasLock() && y.phase.lock == x.phase.lock)
  {
    hide Step;
    if a.EndJob? {
      EndFrame(w, a.job, a.ok, t);
    } else {
      StepFrame(w, a, t);
    }
  }

  lemma EndFrame(w: World, j: JobId, ok: bool, t: TaskId)
    requires t < |w.tasks|
    ensures t < |Step(w, EndJob(j, ok)).tasks|
    ensures var (x, y) := (w.tasks[t], Step(w, EndJob(j, ok)).tasks[t]);
            && y.source == x.source && (y.phase.HasLock() ==> x.phase.HasLock() && y.phase.lock == x.phase.lock)
  {
  }

  lemma StepFrame(w: World, a: Action, t: TaskId)
    requires t < |w.tasks| && !a.LockFor? && !a.EndJob?
    ensures t < |Step(w, a).tasks|
    ensures var (x, y) := (w.tasks[t], Step(w, a).tasks[t]);
            && y.source == x.source && (y.phase.HasLock() ==> x.phase.HasLock() && y.phase.lock == x.phase.lock)
  {
  }

  lemma SameLockOk(
    registry: map<SourceId, LockId>, locks: seq<SourceId>, forgotten: set<SourceId>, x: Task, y: Task)
    requires LockOk(registry, locks, forgotten, x) && x.source == y.source
    requires y.phase.HasLock() ==> x.phase.HasLock() && y.phase.lock == x.phase.lock
    ensures LockOk(registry, locks, forgotten, y)
  {
  }

  lemma NewTaskStarts(w: World, a: Action, t: TaskId)
    requires |w.tasks| <= t < |Step(w, a).tasks|
    ensures Step(w, a).tasks[t].phase.Start?
  {
    hide Registered;
    if Enabled(w, a) {
      match a
      case Claim(_, _) =>
      case StartJob(_) =>
      case EndJob(_, _) =>
      case Mark(_) =>
      case Cancel(_) =>
      case _ =>
    }
  }

  lemma TaskLocksKept(w: World, a: Action)
    requires RegistryOk(w) && TaskLocksOk(w)
    ensures TaskLocksOk(Step(w, a))
  {
    hide Step;
    forall t | 0 <= t < |Step(w, a).tasks| ensures TaskLockOk(Step(w, a), Step(w, a).tasks[t]) {
      if t < |w.tasks| {
        TaskLockKept(w, a, t);
      } else {
        NewTaskStarts(w, a, t);
      }
    }
  }

  // The steps that take a lock or may let one go.
  predicate Locks(a: Action) {
    a.Acquire? || a.Claim? || a.Release? || a.Cancel?
  }

  lemma HolderKeptByLock(w: World, a: Action, t: TaskId)
    requires Locks(a) && t < |w.tasks| && HolderOk(w, t) && (a.task < |w.tasks| ==> HolderOk(w, a.task))
    ensures t < |Step(w, a).tasks| && HolderOk(Step(w, a), t)
  {
  }

  lemma HolderFrame(w: World, a: Action, t: TaskId)
    requires !Locks(a) && t < |w.tasks|
    ensures t < |Step(w, a).tasks| && Step(w, a).holder == w.holder
    ensures var (x, y) := (w.tasks[t].phase, Step(w, a).tasks[t].phase);
            (y.Holds() <==> x.Holds()) && (x.Holds() ==> y.lock == x.lock)
  {
    hide Registered;
    if Enabled(w, a) {
      match a
      case StartJob(_) =>
      case EndJob(_, _) =>
      case Mark(_) =>
      case FailMark(_) =>
      case _ =>
    }
  }

  lemma HolderKept(w: World, a: Action, t: TaskId)
    requires t < |w.tasks| && HoldersOk(w)
    ensures t < |Step(w, a).tasks| && HolderOk(Step(w, a), t)
  {
    hide Step;
    assert HolderOk(w, t);
    if Locks(a) {
      HolderKeptByLock(w, a, t);
    } else {
      HolderFrame(w, a, t);
    }
  }

  lemma HoldersKept(w: World, a: Action)
    requires HoldersOk(w)
    ensures HoldersOk(Step(w, a))
  {
    hide Step, HolderOk;
    forall t | 0 <= t < |Step(w, a).tasks| ensures HolderOk(Step(w, a), t) {
      if t < |w.tasks| {
        HolderKept(w, a, t);
      } else {
        NewTaskStarts(w, a, t);
        StartHoldsNothing(Step(w, a), t);
      }
    }
  }

  lemma StartHoldsNothing(w: World, t: TaskId)
    requires t < |w.tasks| && w.tasks[t].phase.Start?
    ensures HolderOk(w, t)
  {
  }

  // Only a start makes a task wait for a job, and only a start or an end changes the jobs.
  lemma RunningChanges(w: World, a: Action, t: TaskId)
    requires t < |w.tasks| && !a.StartJob? && !a.EndJob?
    ensures t < |Step(w, a).tasks| && Step(w, a).jobs == w.jobs
    ensures Step(w, a).tasks[t].source == w.tasks[t].source
    ensures Step(w, a).tasks[t].phase.Running? ==> Step(w, a).tasks[t].phase == w.tasks[t].phase
  {
    hide Registered;
    if Enabled(w, a) {
      match a
      case Claim(_, _) =>
      case StartJob(_) =>
      case EndJob(_, _) =>
      case Mark(_) =>
      case Cancel(_) =>
      case _ =>
    }
  }

  lemma JobKeptByStart(w: World, a: Action, t: TaskId)
    requires a.StartJob? && t < |w.tasks| && JobOk(w, t) && forall j <- w.jobs :: j < w.nextJob
    ensures t < |Step(w, a).tasks| && JobOk(Step(w, a), t)
  {
  }

  lemma JobKeptByEnd(w: World, a: Action, t: TaskId)
    requires a.EndJob? && t < |w.tasks| && JobOk(w, t)
    ensures t < |Step(w, a).tasks| && JobOk(Step(w, a), t)
  {
  }

  lemma JobKept(w: World, a: Action, t: TaskId)
    requires t < |w.tasks| && JobOk(w, t) && forall j <- w.jobs :: j < w.nextJob
    ensures t < |Step(w, a).tasks| && JobOk(Step(w, a), t)
  {
    hide Step;
    if a.StartJob? {
      JobKeptByStart(w, a, t);
    } else if a.EndJob? {
      JobKeptByEnd(w, a, t);
    } else {
      RunningChanges(w, a, t);
    }
  }

  lemma JobIdsKept(w: World, a: Action)
    requires forall j <- w.jobs :: j < w.nextJob
    ensures forall j <- Step(w, a).jobs :: j < Step(w, a).nextJob
  {
    hide Registered;
  }

  lemma JobsKept(w: World, a: Action)
    requires JobsOk(w)
    ensures JobsOk(Step(w, a))
  {
    hide Step;
    JobIdsKept(w, a);
    forall t | 0 <= t < |Step(w, a).tasks| ensures JobOk(Step(w, a), t) {
      if t < |w.tasks| {
        JobKept(w, a, t);
      } else {
        NewTaskStarts(w, a, t);
      }
    }
  }

  lemma {:induction false} RunKeepsInv(acts: seq<Action>)
    ensures Inv(Run(EMPTY, acts))
  {
    if acts != [] {
      hide Step;
      var n := |acts| - 1;
      RunKeepsInv(acts[..n]);
      var w := Run(EMPTY, acts[..n]);
      RegistryKept(w, acts[n]);
      TaskLocksKept(w, acts[n]);
      HoldersKept(w, acts[n]);
      JobsKept(w, acts[n]);
    }
  }

  // --- mutual exclusion ------------------------------------------------------

  // The job's task no longer waits for it: the timeout fired or the request was cancelled, and
  // the job runs on.
  predicate Orphan(w: World, j: JobId)
    requires j in w.jobs
  {
    var t := w.jobs[j].task;
    !(t < |w.tasks| && w.tasks[t].phase.Running? && w.tasks[t].phase.job == j)
  }

  lemma OneHolder(w: World, t: TaskId, u: TaskId)
    requires Inv(w) && t < |w.tasks| && u < |w.tasks|
    requires w.tasks[t].phase.Holds() && w.tasks[u].phase.Holds()
    requires w.tasks[t].source == w.tasks[u].source && w.tasks[t].source !in w.forgotten
    ensures t == u
  {
    assert TaskLockOk(w, w.tasks[t]) && TaskLockOk(w, w.tasks[u]);
    assert HolderOk(w, t) && HolderOk(w, u);
  }

  lemma AwaitedJobIsLocked(w: World, j: JobId)
    requires Inv(w) && j in w.jobs && !Orphan(w, j)
    ensures w.jobs[j].task < |w.tasks| && w.tasks[w.jobs[j].task].phase.Holds()
    ensures w.tasks[w.jobs[j].task].source == w.jobs[j].source
    ensures w.tasks[w.jobs[j].task].phase == Running(w.tasks[w.jobs[j].task].phase.lock, j)
  {
    assert JobOk(w, w.jobs[j].task);
  }

  /** In every interleaving at most one task works under the lock of a source that has not been
    * forgotten, and of the git jobs on its cache all but one are ones no task waits for.
    */
  lemma MutualExclusion(acts: seq<Action>, t: TaskId, u: TaskId)
    requires var w := Run(EMPTY, acts);
             && t < |w.tasks| && u < |w.tasks|
             && w.tasks[t].phase.Holds() && w.tasks[u].phase.Holds()
             && w.tasks[t].source == w.tasks[u].source && w.tasks[t].source !in w.forgotten
    ensures t == u
  {
    RunKeepsInv(acts);
    OneHolder(Run(EMPTY, acts), t, u);
  }

  lemma OneAwaitedJob(acts: seq<Action>, i: JobId, j: JobId)
    requires var w := Run(EMPTY, acts);
             && i in w.jobs && j in w.jobs && w.jobs[i].source == w.jobs[j].source
             && w.jobs[i].source !in w.forgotten && !Orphan(w, i) && !Orphan(w, j)
    ensures i == j
  {
    RunKeepsInv(acts);
    var w := Run(EMPTY, acts);
    hide Run, Orphan;
    AwaitedJobIsLocked(w, i);
    AwaitedJobIsLocked(w, j);
    OneHolder(w, w.jobs[i].task, w.jobs[j].task);
  }

  // Starting git on a source puts a second job on its cache exactly when an abandoned job is
  // still running there.
  lemma StartOverlapsIffOrphan(acts: seq<Action>, t: TaskId)
    requires var w := Run(EMPTY, acts);
             Enabled(w, StartJob(t)) && w.tasks[t].source !in w.forgotten
    ensures var w := Run(EMPTY, acts);
            (exists j <- w.jobs :: w.jobs[j].source == w.tasks[t].source)
            <==> exists j <- w.jobs :: w.jobs[j].source == w.tasks[t].source && Orphan(w, j)
  {
    RunKeepsInv(acts);
    var w := Run(EMPTY, acts);
    forall j <- w.jobs | w.jobs[j].source == w.tasks[t].source ensures Orphan(w, j) {
      if !Orphan(w, j) {
        AwaitedJobIsLocked(w, j);
        OneHolder(w, t, w.jobs[j].task);
      }
    }
  }

  lemma JobsStayAwaited(w: World, a: Action)
    requires JobsOk(w) && !a.Timeout? && !a.Cancel? && forall j <- w.jobs :: !Orphan(w, j)
    ensures forall j <- Step(w, a).jobs :: !Orphan(Step(w, a), j)
  {
    hide Registered;
  }

  lemma {:induction false} NoneAbandonedNoOrphan(acts: seq<Action>)
    requires forall a <- acts :: !a.Timeout? && !a.Cancel?
    ensures forall j <- Run(EMPTY, acts).jobs :: !Orphan(Run(EMPTY, acts), j)
  {
    if acts != [] {
      hide Step, Orphan;
      var n := |acts| - 1;
      assert acts[n] in acts;
      NoneAbandonedNoOrphan(acts[..n]);
      RunKeepsInv(acts[..n]);
      JobsStayAwaited(Run(EMPTY, acts[..n]), acts[n]);
    }
  }

  /** As long as no git timeout fires and no request is cancelled, at most one fetch or push runs
    * on the cache of a source that has not been deleted.
    */
  lemma OneJobPerSourceUnlessAbandoned(acts: seq<Action>, i: JobId, j: JobId)
    requires forall a <- acts :: !a.Timeout? && !a.Cancel?
    requires var w := Run(EMPTY, acts);
             && i in w.jobs && j in w.jobs && w.jobs[i].source == w.jobs[j].source
             && w.jobs[i].source !in w.forgotten
    ensures i == j
  {
    NoneAbandonedNoOrphan(acts);
    OneAwaitedJob(acts, i, j);
  }

  lemma Then(acts: seq<Action>, w: World, a: Action) returns (acts': seq<Action>, w': World)
    requires w == Run(EMPTY, acts)
    ensures acts' == acts + [a] && w' == Run(EMPTY, acts') && w' == Step(w, a)
  {
    hide Step;
    acts', w' := acts + [a], Step(w, a);
    assert acts'[..|acts|] == acts;
  }

  // A task on source `s`, begun on an idle lock, up to its holding it.
  lemma ThenHeld(acts: seq<Action>, w: World, kind: Kind, s: SourceId) returns (acts': seq<Action>, w': World)
    requires w == Run(EMPTY, acts) && (s in w.rows || s in w.deleted)
    requires s in w.registry ==> w.registry[s] !in w.holder
    requires s !in w.registry ==> |w.locks| !in w.holder
    ensures w' == Run(EMPTY, acts') && s in w'.registry
    ensures w'.tasks == w.tasks + [Task(kind, s, Held(w'.registry[s]))]
    ensures w'.jobs == w.jobs && w'.nextJob == w.nextJob && w'.rows == w.rows && w'.deleted == w.deleted
    ensures w'.holder == w.holder[w'.registry[s] := |w.tasks|]
    ensures s in w.registry ==> w'.registry == w.registry && w'.locks == w.locks
    ensures s !in w.registry ==> w'.registry == w.registry[s := |w.locks|] && |w'.locks| == |w.locks| + 1
  {
    var t := |w.tasks|;
    acts', w' := Then(acts, w, Begin(kind, s));
    assert w'.tasks[t] == Task(kind, s, Start);
    acts', w' := Then(acts', w', LockFor(t));
    acts', w' := Then(acts', w', Acquire(t));
  }

  // A refresh of source `s`, begun on an idle lock, up to its running git job.
  lemma ThenRefresh(acts: seq<Action>, w: World, s: SourceId) returns (acts': seq<Action>, w': World)
    requires w == Run(EMPTY, acts) && s in w.rows
    requires s in w.registry ==> w.registry[s] !in w.holder
    requires s !in w.registry ==> |w.locks| !in w.holder
    ensures w' == Run(EMPTY, acts') && s in w'.registry
    ensures w'.tasks == w.tasks + [Task(Refresh, s, Running(w'.registry[s], w.nextJob))]
    ensures w'.jobs == w.jobs[w.nextJob := Job(s, |w.tasks|)] && w'.nextJob == w.nextJob + 1
    ensures w'.rows == w.rows[s := Syncing] && w'.deleted == w.deleted
    ensures w'.holder == w.holder[w'.registry[s] := |w.tasks|]
    ensures s in w.registry ==> w'.registry == w.registry && w'.locks == w.locks
    ensures s !in w.registry ==> w'.registry == w.registry[s := |w.locks|] && |w'.locks| == |w.locks| + 1
  {
    var t := |w.tasks|;
    acts', w' := ThenHeld(acts, w, Refresh, s);
    acts', w' := Then(acts', w', Claim(t, true));
    acts', w' := Then(acts', w', StartJob(t));
  }

  // A running refresh times out, records the failure and lets go of the lock; its job runs on.
  lemma ThenGiveUp(acts: seq<Action>, w: World, t: TaskId) returns (acts': seq<Action>, w': World)
    requires w == Run(EMPTY, acts) && t < |w.tasks|
    requires w.tasks[t].phase.Running? && w.tasks[t].source in w.rows
    ensures w' == Run(EMPTY, acts') && w'.rows.Keys == w.rows.Keys && w'.deleted == w.deleted
    ensures w'.tasks == w.tasks[t := w.tasks[t].(phase := Done)] && w'.registry == w.registry
    ensures w'.jobs == w.jobs && w'.nextJob == w.nextJob
    ensures w'.holder == w.holder - {w.tasks[t].phase.lock}
  {
    acts', w' := Then(acts, w, Timeout(t));
    acts', w' := Then(acts', w', Mark(t));
    acts', w' := Then(acts', w', Release(t));
  }

  lemma ThenRow(s: SourceId) returns (acts: seq<Action>, w: World)
    ensures w == Run(EMPTY, acts) == EMPTY.(rows := map[s := Idle])
  {
    acts, w := Then([], EMPTY, CreateRow(s));
  }

  // With a timeout the exclusion is lost: a live source can have two git jobs on its cache.
  lemma {:induction false} TimeoutCanOverlap(s: SourceId) returns (acts: seq<Action>, i: JobId, j: JobId)
    ensures var w := Run(EMPTY, acts);
            && i != j && i in w.jobs && j in w.jobs
            && w.jobs[i].source == w.jobs[j].source == s && s in w.rows && s !in w.deleted
  {
    hide Run, Step;
    var w;
    acts, w := ThenRow(s);
    acts, w := ThenRefresh(acts, w, s);
    acts, w := ThenGiveUp(acts, w, 0);
    acts, w := ThenRefresh(acts, w, s);
    i, j := 0, 1;
  }

  lemma ThenForget(acts: seq<Action>, w: World, s: SourceId) returns (acts': seq<Action>, w': World)
    requires w == Run(EMPTY, acts) && s in w.rows
    ensures w' == Run(EMPTY, acts') && w'.tasks == w.tasks && w'.holder == w.holder
    ensures w'.registry == w.registry - {s} && w'.locks == w.locks && s in w'.deleted
  {
    acts', w' := Then(acts, w, DeleteRow(s));
    acts', w' := Then(acts', w', Forget(s));
  }

  // After the lock of a deleted source is forgotten, a task that had read the row earlier gets
  // another lock, and two tasks hold a lock of the source at once.
  lemma {:induction false} ForgettingCanShare(s: SourceId) returns (acts: seq<Action>, t: TaskId, u: TaskId)
    ensures var w := Run(EMPTY, acts);
            && t < u < |w.tasks| && w.tasks[t].phase.Holds() && w.tasks[u].phase.Holds()
            && w.tasks[t].source == w.tasks[u].source == s
  {
    hide Run, Step;
    var w;
    acts, w := ThenRow(s);
    acts, w := ThenRefresh(acts, w, s);
    acts, w := ThenForget(acts, w, s);
    acts, w := ThenHeld(acts, w, Edit, s);
    t, u := 0, 1;
  }

  // --- claims ----------------------------------------------------------------

  // The outcome of `t` was recorded, or recording it was tried and failed.
  ghost predicate Settled(log: seq<Event>, t: TaskId) {
    OutcomeMarked(t) in log || MarkFailed(t) in log
  }

  // The lock of `t` was let go.
  ghost predicate Freed(log: seq<Event>, t: TaskId) {
    LockReleased(t) in log || LockDropped(t) in log
  }

  // No lock is released with a claim unsettled unless its request is cancelled, and nothing is
  // recorded after the release.
  ghost predicate LogOk(log: seq<Event>) {
    log == [] ||
    (var before, last := log[..|log| - 1], log[|log| - 1];
     && LogOk(before)
     && !Freed(before, last.task)
     && (last.ClaimGranted? ==> !Settled(before, last.task))
     && (last.LockReleased? && ClaimGranted(last.task) in before ==> Settled(before, last.task)))
  }

  // What the log says of a task, by its phase.
  ghost predicate PhaseLogged(log: seq<Event>, t: TaskId, task: Task) {
    var open := task.phase.Open() && task.kind == Refresh;
    && (!task.phase.Done? ==> !Freed(log, t))
    && (!task.phase.Marked? && !task.phase.Done? ==> !Settled(log, t))
    && (task.phase.Marked? ==> Settled(log, t))
    && (!task.phase.Marked? && !task.phase.Done? ==> (ClaimGranted(t) in log <==> open))
  }

  ghost predicate LogInv(w: World) {
    && LogOk(w.log)
    && (forall t :: 0 <= t < |w.tasks| ==> PhaseLogged(w.log, t, w.tasks[t]))
    && (forall e <- w.log :: e.task < |w.tasks|)
  }

  // What a step appends to the log, by the task's phase.
  lemma LogGrows(w: World, a: Action)
    ensures Step(w, a).log == w.log ||
            (exists e :: Step(w, a).log == w.log + [e] && e.task < |w.tasks|
              && var p := w.tasks[e.task].phase;
              && !p.Done?
              && (e.ClaimGranted? ==> p.Held?)
              && (e.LockReleased? ==> p.Marked? || p.Held? || (p.Finished? && w.tasks[e.task].kind == Edit)))
    ensures |w.tasks| <= |Step(w, a).tasks|
  {
    hide Registered;
    if Enabled(w, a) {
      match a
      case Claim(t, _) =>
        assert Step(w, a).log == w.log + [ClaimGranted(t)] || Step(w, a).log == w.log + [LockReleased(t)];
      case Mark(t) => assert Step(w, a).log == w.log + [OutcomeMarked(t)];
      case FailMark(t) => assert Step(w, a).log == w.log + [MarkFailed(t)];
      case Release(t) => assert Step(w, a).log == w.log + [LockReleased(t)];
      case Cancel(t) => assert Step(w, a).log == w.log || Step(w, a).log == w.log + [LockDropped(t)];
      case _ =>
    }
  }

  lemma LogKept(w: World, a: Action)
    requires LogInv(w)
    ensures LogOk(Step(w, a).log)
    ensures forall e <- Step(w, a).log :: e.task < |Step(w, a).tasks|
  {
    hide Step;
    LogGrows(w, a);
    var log := Step(w, a).log;
    if log != w.log {
      assert log[..|log| - 1] == w.log;
      assert PhaseLogged(w.log, log[|log| - 1].task, w.tasks[log[|log| - 1].task]);
    }
  }

  // The steps that may append to the log.
  predicate Logs(a: Action) {
    a.Claim? || a.Mark? || a.FailMark? || a.Release? || a.Cancel?
  }

  lemma QuietPhaseLogKept(w: World, a: Action, t: TaskId)
    requires !Logs(a) && t < |w.tasks| && PhaseLogged(w.log, t, w.tasks[t])
    ensures t < |Step(w, a).tasks| && PhaseLogged(Step(w, a).log, t, Step(w, a).tasks[t])
  {
    hide Registered, Settled, Freed;
    if Enabled(w, a) {
      match a
      case FailEarly(_) =>
      case Timeout(_) =>
      case EndJob(_, _) =>
      case _ =>
    }
  }

  lemma ClaimPhaseLogKept(w: World, a: Action, t: TaskId)
    requires a.Claim? && t < |w.tasks| && PhaseLogged(w.log, t, w.tasks[t])
    ensures t < |Step(w, a).tasks| && PhaseLogged(Step(w, a).log, t, Step(w, a).tasks[t])
  {
  }

  lemma OtherEventLogged(log: seq<Event>, e: Event, t: TaskId, task: Task)
    requires e.task != t && PhaseLogged(log, t, task)
    ensures PhaseLogged(log + [e], t, task)
  {
  }

  lemma ReleasePhaseLogKept(w: World, u: TaskId, t: TaskId)
    requires t < |w.tasks| && PhaseLogged(w.log, t, w.tasks[t])
    ensures var w' := Step(w, Release(u)); t < |w'.tasks| && PhaseLogged(w'.log, t, w'.tasks[t])
  {
  }

  lemma CancelPhaseLogKept(w: World, u: TaskId, t: TaskId)
    requires t < |w.tasks| && PhaseLogged(w.log, t, w.tasks[t])
    ensures var w' := Step(w, Cancel(u)); t < |w'.tasks| && PhaseLogged(w'.log, t, w'.tasks[t])
  {
    if u != t {
      hide PhaseLogged;
      OtherEventLogged(w.log, LockDropped(u), t, w.tasks[t]);
    } else {
      hide Settled, Freed;
    }
  }

  lemma MarkPhaseLogKept(w: World, a: Action, t: TaskId)
    requires (a.Mark? || a.FailMark?) && t < |w.tasks| && PhaseLogged(w.log, t, w.tasks[t])
    ensures t < |Step(w, a).tasks| && PhaseLogged(Step(w, a).log, t, Step(w, a).tasks[t])
  {
  }

  lemma PhaseLogKept(w: World, a: Action, t: TaskId)
    requires t < |w.tasks| && PhaseLogged(w.log, t, w.tasks[t])
    ensures t < |Step(w, a).tasks| && PhaseLogged(Step(w, a).log, t, Step(w, a).tasks[t])
  {
    hide Step, PhaseLogged;
    if a.Claim? {
      ClaimPhaseLogKept(w, a, t);
    } else if a.Release? {
      ReleasePhaseLogKept(w, a.task, t);
    } else if a.Cancel? {
      CancelPhaseLogKept(w, a.task, t);
    } else if a.Mark? || a.FailMark? {
      MarkPhaseLogKept(w, a, t);
    } else {
      QuietPhaseLogKept(w, a, t);
    }
  }

  lemma {:induction false} RunKeepsLog(acts: seq<Action>)
    ensures LogInv(Run(EMPTY, acts))
  {
    if acts != [] {
      hide Step;
      var n := |acts| - 1;
      RunKeepsLog(acts[..n]);
      var w := Run(EMPTY, acts[..n]);
      var w' := Step(w, acts[n]);
      LogKept(w, acts[n]);
      forall t | 0 <= t < |w'.tasks| ensures PhaseLogged(w'.log, t, w'.tasks[t]) {
        if t < |w.tasks| {
          PhaseLogKept(w, acts[n], t);
        } else {
          NewTaskStarts(w, acts[n], t);
          NewTaskLogsNothing(w, acts[n]);
        }
      }
    }
  }

  lemma NewTaskLogsNothing(w: World, a: Action)
    requires |w.tasks| < |Step(w, a).tasks|
    ensures Step(w, a).log == w.log
  {
    hide Registered;
    if Enabled(w, a) {
      match a
      case Claim(_, _) =>
      case StartJob(_) =>
      case EndJob(_, _) =>
      case Mark(_) =>
      case Cancel(_) =>
      case _ =>
    }
  }

  lemma {:induction false} NothingAfterRelease(log: seq<Event>, j: nat, t: TaskId)
    requires LogOk(log) && j < |log| && log[j] == LockReleased(t)
    ensures forall i :: j < i < |log| ==> log[i].task != t
  {
    var n := |log| - 1;
    if j < n {
      NothingAfterRelease(log[..n], j, t);
      assert log[..n][j] in log[..n];
    }
  }

  lemma {:induction false} NoClaimOnceSettled(log: seq<Event>, k: nat, t: TaskId)
    requires LogOk(log) && k < |log| && log[k] in {OutcomeMarked(t), MarkFailed(t)}
    ensures forall i :: k < i < |log| ==> log[i] != ClaimGranted(t)
  {
    var n := |log| - 1;
    if k < n {
      NoClaimOnceSettled(log[..n], k, t);
      assert log[..n][k] in log[..n];
    }
  }

  lemma {:induction false} SettledBeforeRelease(log: seq<Event>, i: nat, j: nat, t: TaskId)
    requires LogOk(log) && i < j < |log| && log[i] == ClaimGranted(t) && log[j] == LockReleased(t)
    ensures exists k: nat :: k < j && log[k] in {OutcomeMarked(t), MarkFailed(t)}
  {
    var n := |log| - 1;
    var before := log[..n];
    if j < n {
      SettledBeforeRelease(before, i, j, t);
      var k: nat :| k < j && before[k] in {OutcomeMarked(t), MarkFailed(t)};
      assert log[k] in {OutcomeMarked(t), MarkFailed(t)};
    } else {
      assert before[i] in before;
      var k: nat :| k < n && before[k] in {OutcomeMarked(t), MarkFailed(t)};
      assert log[k] in {OutcomeMarked(t), MarkFailed(t)};
    }
  }

  /** In every interleaving, between the granting of a claim and the release of its lock the
    * outcome is recorded, or recording it fails; only a cancelled request drops the lock without.
    */
  lemma ClaimIsMarkedBeforeRelease(acts: seq<Action>, i: nat, j: nat, t: TaskId)
    requires var log := Run(EMPTY, acts).log;
             && i < |log| && j < |log| && log[i] == ClaimGranted(t)
             && log[j] in {LockReleased(t), LockDropped(t)}
    ensures var log := Run(EMPTY, acts).log;
            || log[j] == LockDropped(t)
            || exists k: nat :: i < k < j && log[k] in {OutcomeMarked(t), MarkFailed(t)}
  {
    RunKeepsLog(acts);
    var log := Run(EMPTY, acts).log;
    hide Run;
    if log[j] == LockReleased(t) {
      NothingAfterRelease(log, j, t);
      SettledBeforeRelease(log, i, j, t);
      var k: nat :| k < j && log[k] in {OutcomeMarked(t), MarkFailed(t)};
      NoClaimOnceSettled(log, k, t);
    }
  }

  // --- the status shown ------------------------------------------------------

  ghost predicate OpenRefresh(w: World, s: SourceId, t: TaskId) {
    t < |w.tasks| && w.tasks[t].kind == Refresh && w.tasks[t].source == s && w.tasks[t].phase.Open()
  }

  // The claim of `t` on source `s` was granted, and then its request was cancelled or its outcome
  // could not be recorded.
  ghost predicate AbandonedClaim(w: World, s: SourceId, t: TaskId) {
    && t < |w.tasks| && w.tasks[t].source == s
    && ClaimGranted(t) in w.log
    && (LockDropped(t) in w.log || MarkFailed(t) in w.log)
  }

  // The event says what the row of source `s` shows.
  ghost predicate Tells(w: World, s: SourceId, e: Event) {
    (e.ClaimGranted? || e.OutcomeMarked?) && e.task < |w.tasks| && w.tasks[e.task].source == s
  }

  ghost predicate ToldLastAt(w: World, s: SourceId, t: TaskId, i: nat) {
    && i < |w.log| && w.log[i] == ClaimGranted(t) && Tells(w, s, w.log[i])
    && forall k :: i < k < |w.log| ==> !Tells(w, s, w.log[k])
  }

  // Nothing has been recorded of source `s`, and no other claim granted, since the claim of `t`.
  ghost predicate LastClaim(w: World, s: SourceId, t: TaskId) {
    exists i: nat :: ToldLastAt(w, s, t, i)
  }

  ghost predicate StatusOk(w: World, s: SourceId) {
    && (s in w.rows ==> (w.rows[s] == Syncing <==> exists t: TaskId :: LastClaim(w, s, t)))
    && (s !in w.rows && s !in w.deleted ==> forall t: TaskId :: !LastClaim(w, s, t) && !OpenRefresh(w, s, t))
    && (s in w.rows ==> forall t: TaskId :: OpenRefresh(w, s, t) ==> LastClaim(w, s, t))
    && (forall t: TaskId :: LastClaim(w, s, t) ==> OpenRefresh(w, s, t) || AbandonedClaim(w, s, t))
  }

  lemma SourceKept(w: World, a: Action, t: TaskId)
    requires t < |w.tasks|
    ensures t < |Step(w, a).tasks| && Step(w, a).tasks[t].source == w.tasks[t].source
  {
    hide Registered;
    if Enabled(w, a) {
      match a
      case Claim(_, _) =>
      case StartJob(_) =>
      case EndJob(_, _) =>
      case Mark(_) =>
      case Cancel(_) =>
      case _ =>
    }
  }

  // A step opens a refresh only by granting it a claim; closing one leaves its trace.
  lemma OpenChanges(w: World, a: Action, s: SourceId, t: TaskId)
    ensures OpenRefresh(Step(w, a), s, t) && !OpenRefresh(w, s, t) ==>
              Step(w, a).log == w.log + [ClaimGranted(t)] && Tells(w, s, ClaimGranted(t))
    ensures OpenRefresh(w, s, t) && !OpenRefresh(Step(w, a), s, t) ==>
              || Step(w, a).log == w.log + [OutcomeMarked(t)]
              || Step(w, a).log == w.log + [MarkFailed(t)]
              || Step(w, a).log == w.log + [LockDropped(t)]
  {
    hide Step;
    if OpenRefresh(Step(w, a), s, t) && !OpenRefresh(w, s, t) {
      OpensByClaim(w, a, s, t);
    }
    if OpenRefresh(w, s, t) && !OpenRefresh(Step(w, a), s, t) {
      ClosesByEnd(w, a, s, t);
    }
  }

  lemma OnlyClaimsOpen(w: World, a: Action, t: TaskId)
    requires !a.Claim? && t < |Step(w, a).tasks|
    requires Step(w, a).tasks[t].kind == Refresh && Step(w, a).tasks[t].phase.Open()
    ensures t < |w.tasks| && w.tasks[t].kind == Refresh && w.tasks[t].phase.Open()
    ensures Step(w, a).tasks[t].source == w.tasks[t].source
  {
    hide Registered;
  }

  lemma OpensByClaim(w: World, a: Action, s: SourceId, t: TaskId)
    requires OpenRefresh(Step(w, a), s, t) && !OpenRefresh(w, s, t)
    ensures Step(w, a).log == w.log + [ClaimGranted(t)] && Tells(w, s, ClaimGranted(t))
  {
    hide Registered;
    if !a.Claim? {
      OnlyClaimsOpen(w, a, t);
    }
  }

  lemma ClosesByEnd(w: World, a: Action, s: SourceId, t: TaskId)
    requires OpenRefresh(w, s, t) && !OpenRefresh(Step(w, a), s, t)
    ensures || Step(w, a).log == w.log + [OutcomeMarked(t)]
            || Step(w, a).log == w.log + [MarkFailed(t)]
            || Step(w, a).log == w.log + [LockDropped(t)]
  {
    hide Registered;
    if Enabled(w, a) {
      match a
      case Mark(_) =>
      case FailMark(_) =>
      case Cancel(_) =>
      case _ =>
    }
  }

  // A grant shows syncing, a record shows something else, and no other step changes a row.
  lemma RowFollowsLog(w: World, a: Action, s: SourceId)
    ensures var w' := Step(w, a);
            || ((w'.log == w.log || exists e :: w'.log == w.log + [e] && !Tells(w, s, e))
                && (s in w.rows && s in w'.rows ==> w'.rows[s] == w.rows[s]))
            || (exists e :: w'.log == w.log + [e] && Tells(w, s, e) && w.tasks[e.task].phase.Holds()
                  && (e.ClaimGranted? ==> s in w.rows)
                  && (e.ClaimGranted? <==> OpenRefresh(w', s, e.task))
                  && (s in w.rows ==> s in w'.rows && (w'.rows[s] == Syncing <==> e.ClaimGranted?)))
  {
    hide Registered;
    if Enabled(w, a) {
      match a
      case Claim(t, _) =>
        assert Step(w, a).log == w.log + [ClaimGranted(t)] || Step(w, a).log == w.log + [LockReleased(t)];
      case Mark(t) => assert Step(w, a).log == w.log + [OutcomeMarked(t)];
      case FailMark(t) => assert Step(w, a).log == w.log + [MarkFailed(t)];
      case Release(t) => assert Step(w, a).log == w.log + [LockReleased(t)];
      case Cancel(t) => assert Step(w, a).log == w.log || Step(w, a).log == w.log + [LockDropped(t)];
      case _ =>
    }
  }

  lemma RowsOnlyCreated(w: World, a: Action, s: SourceId)
    ensures s in Step(w, a).rows && s !in w.rows ==>
              s !in w.deleted && Step(w, a).rows[s] == Idle && Step(w, a).log == w.log && Step(w, a).tasks == w.tasks
    ensures s !in Step(w, a).rows && s !in Step(w, a).deleted ==> s !in w.rows && s !in w.deleted
  {
    hide Registered;
    if Enabled(w, a) {
      match a
      case Claim(_, _) =>
      case StartJob(_) =>
      case EndJob(_, _) =>
      case Mark(_) =>
      case Cancel(_) =>
      case _ =>
    }
  }

  // Worlds with the same tasks' sources, whose logs differ by events that tell nothing of `s`,
  // agree on its last claim.
  lemma QuietKeepsLastClaim(w: World, w': World, s: SourceId, t: TaskId)
    requires forall e <- w.log :: e.task < |w.tasks|
    requires |w.tasks| <= |w'.tasks| && forall u :: 0 <= u < |w.tasks| ==> w'.tasks[u].source == w.tasks[u].source
    requires w'.log == w.log || exists e :: w'.log == w.log + [e] && e.task < |w.tasks| && !Tells(w, s, e)
    ensures LastClaim(w', s, t) <==> LastClaim(w, s, t)
  {
    forall i: nat ensures ToldLastAt(w', s, t, i) <==> ToldLastAt(w, s, t, i) {
      if i < |w.log| {
        assert w'.log[i] == w.log[i];
        forall k | i <= k < |w.log| ensures Tells(w', s, w'.log[k]) <==> Tells(w, s, w.log[k]) {
          assert w.log[k] in w.log;
        }
      }
    }
  }

  // After an event that tells of `s`, the last claim is its own if it grants one, and else there
  // is none.
  lemma TellingSetsLastClaim(w: World, s: SourceId, e: Event, t: TaskId)
    requires w.log != [] && w.log[|w.log| - 1] == e && Tells(w, s, e)
    ensures LastClaim(w, s, t) <==> e == ClaimGranted(t)
  {
    assert forall i: nat :: ToldLastAt(w, s, t, i) ==> i == |w.log| - 1;
    if e == ClaimGranted(t) {
      assert ToldLastAt(w, s, t, |w.log| - 1);
    }
  }

  lemma QuietStepKeepsStatus(w: World, a: Action, s: SourceId)
    requires LogInv(w) && StatusOk(w, s)
    requires var w' := Step(w, a);
             && (w'.log == w.log || exists e :: w'.log == w.log + [e] && e.task < |w.tasks| && !Tells(w, s, e))
             && (s in w.rows && s in w'.rows ==> w'.rows[s] == w.rows[s])
    ensures StatusOk(Step(w, a), s)
  {
    hide Step, LastClaim, LogOk, PhaseLogged;
    var w' := Step(w, a);
    RowsOnlyCreated(w, a, s);
    LogGrows(w, a);
    forall u | 0 <= u < |w.tasks| ensures w'.tasks[u].source == w.tasks[u].source {
      SourceKept(w, a, u);
    }
    forall t: TaskId
      ensures LastClaim(w', s, t) <==> LastClaim(w, s, t)
      ensures OpenRefresh(w', s, t) ==> OpenRefresh(w, s, t)
      ensures LastClaim(w, s, t) && (OpenRefresh(w, s, t) || AbandonedClaim(w, s, t)) ==>
                OpenRefresh(w', s, t) || AbandonedClaim(w', s, t)
    {
      QuietKeepsLastClaim(w, w', s, t);
      OpenChanges(w, a, s, t);
      LastClaimIsGranted(w, s, t);
      if w'.log != w.log {
        assert !Tells(w, s, w'.log[|w.log|]);
      }
    }
  }

  lemma LastClaimIsGranted(w: World, s: SourceId, t: TaskId)
    ensures LastClaim(w, s, t) ==> ClaimGranted(t) in w.log && t < |w.tasks| && w.tasks[t].source == s
  {
  }

  lemma TellingStepKeepsStatus(w: World, a: Action, s: SourceId, e: Event)
    requires Inv(w) && StatusOk(w, s) && Tells(w, s, e)
    requires w.tasks[e.task].phase.Holds()
    requires var w' := Step(w, a);
             && w'.log == w.log + [e]
             && (e.ClaimGranted? ==> s in w.rows)
             && (e.ClaimGranted? <==> OpenRefresh(w', s, e.task))
             && (s in w.rows ==> s in w'.rows && (w'.rows[s] == Syncing <==> e.ClaimGranted?))
    ensures StatusOk(Step(w, a), s)
  {
    hide Step, LastClaim;
    var w' := Step(w, a);
    RowsOnlyCreated(w, a, s);
    SourceKept(w, a, e.task);
    forall t: TaskId
      ensures LastClaim(w', s, t) <==> e == ClaimGranted(t)
      ensures s in w.rows && OpenRefresh(w', s, t) ==> e == ClaimGranted(t)
      ensures OpenRefresh(w', s, t) && !OpenRefresh(w, s, t) ==> e == ClaimGranted(t)
    {
      TellingSetsLastClaim(w', s, e, t);
      OpenChanges(w, a, s, t);
      assert w'.log[|w.log|] == e;
      if s in w.rows && OpenRefresh(w', s, t) && OpenRefresh(w, s, t) {
        OneHolder(w, t, e.task);
      }
    }
  }

  lemma StatusKept(w: World, a: Action, s: SourceId)
    requires Inv(w) && LogInv(w) && StatusOk(w, s)
    ensures StatusOk(Step(w, a), s)
  {
    hide Step, StatusOk, Inv, LogInv;
    var w' := Step(w, a);
    RowFollowsLog(w, a, s);
    LogGrows(w, a);
    if e :| w'.log == w.log + [e] && Tells(w, s, e) {
      assert w'.log[|w.log|] == e;
      TellingStepKeepsStatus(w, a, s, e);
    } else {
      QuietStepKeepsStatus(w, a, s);
    }
  }

  lemma {:induction false} RunKeepsStatus(acts: seq<Action>, s: SourceId)
    ensures StatusOk(Run(EMPTY, acts), s)
  {
    if acts != [] {
      hide Step, StatusOk;
      var n := |acts| - 1;
      RunKeepsStatus(acts[..n], s);
      RunKeepsInv(acts[..n]);
      RunKeepsLog(acts[..n]);
      StatusKept(Run(EMPTY, acts[..n]), acts[n], s);
    }
  }

  /** In every interleaving an existing source shows `syncing` exactly while nothing has been
    * recorded of it since some claim; such a claim is open or abandoned, and an open one is such.
    */
  lemma SyncingMeansOpenClaim(acts: seq<Action>, s: SourceId)
    requires s in Run(EMPTY, acts).rows
    ensures var w := Run(EMPTY, acts);
            && (w.rows[s] == Syncing <==> exists t: TaskId :: LastClaim(w, s, t))
            && (forall t: TaskId :: LastClaim(w, s, t) ==> OpenRefresh(w, s, t) || AbandonedClaim(w, s, t))
            && (forall t: TaskId :: OpenRefresh(w, s, t) ==> LastClaim(w, s, t))
  {
    RunKeepsStatus(acts, s);
  }

  // A cancelled refresh leaves its source syncing, with its job still running and nobody at work.
  lemma {:induction false} CancelCanStrand(s: SourceId) returns (acts: seq<Action>)
    ensures var w := Run(EMPTY, acts);
            && s in w.rows && w.rows[s] == Syncing
            && (exists j <- w.jobs :: w.jobs[j].source == s)
            && w.holder == map[] && forall task <- w.tasks :: task.phase.Done?
  {
    hide Run;
    var w;
    acts, w := ThenRow(s);
    acts, w := ThenRefresh(acts, w, s);
    acts, w := Then(acts, w, Cancel(0));
    assert 0 in w.jobs;
  }
}
