/** The cache of account statuses in front of the database.
  *
  * A check looks in the cache, asks the database on a miss, and stores the answer; these are
  * three steps, and any other step may come between them. Instants are counted in nanoseconds.
  */
module Presence {
  import opened Text

  type User = nat
  type Instant = nat

  datatype Status = Status(isActive: bool, isBanned: bool)
  datatype Entry = Entry(status: Status, checked: Instant)

  type Entries = map<User, Entry>

  const SECOND: nat := 1_000_000_000
  const CHECK_TTL: nat := 30 * SECOND
  const SWEEP_AFTER: nat := 3600 * SECOND
  const SWEEP_ABOVE: nat := 1024

  // What a request gets when the database cannot answer.
  const ALLOWED := Status(true, false)

  // --- the cache -------------------------------------------------------------

  function Elapsed(since: Instant, now: Instant): nat {
    if since <= now then now - since else 0
  }

  function Cached(entries: Entries, ttl: nat, u: User, now: Instant): Option<Status> {
    if u in entries && Elapsed(entries[u].checked, now) < ttl then Some(entries[u].status) else None
  }

  function Swept(entries: Entries, now: Instant): Entries {
    map u <- entries | Elapsed(entries[u].checked, now) < SWEEP_AFTER :: entries[u]
  }

  function Stored(entries: Entries, u: User, status: Status, now: Instant): Entries {
    var kept := if |entries| > SWEEP_ABOVE then Swept(entries, now) else entries;
    kept[u := Entry(status, now)]
  }

  // The same without the sweep.
  function StoredUnswept(entries: Entries, u: User, status: Status, now: Instant): Entries {
    entries[u := Entry(status, now)]
  }

  function Users(n: nat): (entries: Entries)
    ensures |entries| == n && forall u: User :: u in entries <==> u < n
    ensures forall u <- entries :: entries[u] == Entry(ALLOWED, 0)
  {
    if n == 0 then map[] else Users(n - 1)[n - 1 := Entry(ALLOWED, 0)]
  }

  ghost predicate SweepInvisible(ttl: nat) {
    forall entries: Entries, v: User, status: Status, now: Instant, u: User, later: Instant | now <= later ::
      Cached(Stored(entries, v, status, now), ttl, u, later)
      == Cached(StoredUnswept(entries, v, status, now), ttl, u, later)
  }

  /** Exactly when entries live no longer than the sweep spares them does no lookup notice it. */
  lemma SweepInvisibleIff(ttl: nat)
    ensures SweepInvisible(ttl) <==> ttl <= 3_600_000_000_000
  {
    if ttl > SWEEP_AFTER {
      var n := SWEEP_ABOVE + 1;
      var entries := Users(n);
      assert Cached(Stored(entries, n, ALLOWED, SWEEP_AFTER), ttl, 0, SWEEP_AFTER) == None;
      assert Cached(StoredUnswept(entries, n, ALLOWED, SWEEP_AFTER), ttl, 0, SWEEP_AFTER) == Some(ALLOWED);
    }
  }

  lemma SweepInvisibleByDefault()
    ensures CHECK_TTL == 30_000_000_000 && SweepInvisible(CHECK_TTL)
  {
    SweepInvisibleIff(CHECK_TTL);
  }

  // A lookup answers what is stored for less than the lifetime.
  lemma CachedIff(entries: Entries, ttl: nat, u: User, now: Instant, status: Status)
    ensures Cached(entries, ttl, u, now) == Some(status)
            <==> u in entries && entries[u].status == status && ttl > 0 && now < entries[u].checked + ttl
  {
  }

  // A store enters the user at this instant; of the others it drops those an hour old or older, and
  // only if more than 1024 are cached.
  lemma StoreAnswers(entries: Entries, u: User, status: Status, now: Instant)
    ensures var stored := Stored(entries, u, status, now);
            && u in stored && stored[u] == Entry(status, now)
            && (forall v: User :: v != u && v in stored ==> v in entries && stored[v] == entries[v])
            && (forall v: User :: v != u && v in entries ==>
                  (v in stored <==> |entries| <= 1024 || now < entries[v].checked + 3_600_000_000_000))
  {
  }

  // --- checks at work --------------------------------------------------------

  datatype Origin = Cache | Database | Fallback

  datatype Check =
    | Entered(user: User)
    | Missed(user: User)
    | Fetched(user: User, status: Status, at: Instant)
    | Answered(user: User, answer: Option<Status>, origin: Origin)

  datatype Reading = Reading(user: User, status: Status, at: Instant)
  datatype Storing = Storing(user: User, status: Status, readAt: Instant, storedAt: Instant)

  // `users` are the accounts that are not deleted, `changed` says when an account last was.
  // `readings` and `stores` observe what the database answered and what was stored of it.
  datatype System = System(
    ttl: nat, sweeps: bool, now: Instant, users: map<User, Status>, changed: map<User, Instant>,
    entries: Entries, checks: seq<Check>, readings: seq<Reading>, stores: seq<Storing>)

  datatype Action =
    | Tick(d: nat)
    | Write(user: User, status: Option<Status>)
    | Enter(user: User)
    | Lookup(check: nat)
    | Query(check: nat, fails: bool)
    | Keep(check: nat)
    | Invalidate(user: User)

  function Start(ttl: nat, sweeps: bool, users: map<User, Status>): System {
    System(ttl, sweeps, 0, users, map[], map[], [], [], [])
  }

  function LookupStep(s: System, c: nat): System
    requires c < |s.checks|
  {
    var u := s.checks[c].user;
    var next := match Cached(s.entries, s.ttl, u, s.now)
      case Some(status) => Answered(u, Some(status), Cache)
      case None => Missed(u);
    s.(checks := s.checks[c := next])
  }

  function QueryStep(s: System, c: nat, fails: bool): System
    requires c < |s.checks|
  {
    var u := s.checks[c].user;
    if fails then s.(checks := s.checks[c := Answered(u, Some(ALLOWED), Fallback)])
    else if u !in s.users then s.(checks := s.checks[c := Answered(u, None, Database)])
    else s.(checks := s.checks[c := Fetched(u, s.users[u], s.now)],
            readings := s.readings + [Reading(u, s.users[u], s.now)])
  }

  function KeepStep(s: System, c: nat): System
    requires c < |s.checks| && s.checks[c].Fetched?
  {
    var Fetched(u, status, at) := s.checks[c];
    s.(entries := if s.sweeps then Stored(s.entries, u, status, s.now) else StoredUnswept(s.entries, u, status, s.now),
       checks := s.checks[c := Answered(u, Some(status), Database)],
       stores := s.stores + [Storing(u, status, at, s.now)])
  }

  function Step(s: System, a: Action): System {
    match a
    case Tick(d) => s.(now := s.now + d)
    case Write(u, status) =>
      s.(users := match status case Some(st) => s.users[u := st] case None => s.users - {u},
         changed := s.changed[u := s.now])
    case Enter(u) => s.(checks := s.checks + [Entered(u)])
    case Lookup(c) => if c < |s.checks| && s.checks[c].Entered? then LookupStep(s, c) else s
    case Query(c, fails) => if c < |s.checks| && s.checks[c].Missed? then QueryStep(s, c, fails) else s
    case Keep(c) => if c < |s.checks| && s.checks[c].Fetched? then KeepStep(s, c) else s
    case Invalidate(u) => s.(entries := s.entries - {u})
  }

  // What each step of a check answers, and keeps.
  lemma CheckAnswers(s: System, c: nat, fails: bool)
    requires c < |s.checks|
    ensures var (u, k, s') := (s.checks[c].user, s.checks[c], Step(s, Lookup(c)));
            k.Entered? ==>
              && s' == s.(checks := s'.checks) && c < |s'.checks|
              && s'.checks[c] == match Cached(s.entries, s.ttl, u, s.now)
                   case Some(status) => Answered(u, Some(status), Cache)
                   case None => Missed(u)
    ensures var (u, k, s') := (s.checks[c].user, s.checks[c], Step(s, Query(c, fails)));
            k.Missed? ==>
              && c < |s'.checks| && s'.entries == s.entries
              && (fails ==> s'.checks[c] == Answered(u, Some(Status(true, false)), Fallback))
              && (!fails && u !in s.users ==> s'.checks[c] == Answered(u, None, Database))
              && (!fails && u in s.users ==> s'.checks[c] == Fetched(u, s.users[u], s.now))
              && s'.readings == s.readings + (if !fails && u in s.users then [Reading(u, s.users[u], s.now)] else [])
    ensures var (u, k, s') := (s.checks[c].user, s.checks[c], Step(s, Keep(c)));
            k.Fetched? ==>
              && c < |s'.checks| && s'.checks[c] == Answered(u, Some(k.status), Database)
              && u in s'.entries && s'.entries[u] == Entry(k.status, s.now)
              && s'.stores == s.stores + [Storing(u, k.status, k.at, s.now)]
  {
    hide Cached;
  }

  // What the steps beside the checks change.
  lemma OtherStepsChange(s: System, d: nat, u: User, status: Option<Status>)
    ensures Step(s, Tick(d)) == s.(now := s.now + d)
    ensures var s' := Step(s, Write(u, status));
            && s' == s.(users := s'.users, changed := s'.changed)
            && CurrentStatus(s', u) == status && (forall v :: v != u ==> CurrentStatus(s', v) == CurrentStatus(s, v))
            && s'.changed == s.changed[u := s.now]
    ensures Step(s, Enter(u)) == s.(checks := s.checks + [Entered(u)])
    ensures Step(s, Invalidate(u)) == s.(entries := s.entries - {u})
  {
  }

  function Run(s: System, acts: seq<Action>): System {
    if acts == [] then s else Step(Run(s, acts[..|acts| - 1]), acts[|acts| - 1])
  }

  // --- where a served status comes from --------------------------------------

  // A store put this entry there.
  predicate WasStored(st: Storing, u: User, e: Entry) {
    st.user == u && st.status == e.status && st.storedAt == e.checked
  }

  ghost predicate EntriesOk(s: System) {
    forall u <- s.entries :: exists st :: st in s.stores && WasStored(st, u, s.entries[u])
  }

  ghost predicate StoresOk(s: System) {
    forall st <- s.stores :: st.readAt <= st.storedAt <= s.now && Reading(st.user, st.status, st.readAt) in s.readings
  }

  ghost predicate ChecksOk(s: System) {
    forall c <- s.checks :: c.Fetched? ==> c.at <= s.now && Reading(c.user, c.status, c.at) in s.readings
  }

  // What was read since the last change of the account still holds.
  ghost predicate ReadsOk(s: System) {
    && (forall u <- s.changed :: s.changed[u] <= s.now)
    && forall r <- s.readings ::
         r.at <= s.now
         && ((r.user in s.changed ==> s.changed[r.user] < r.at) ==> r.user in s.users && s.users[r.user] == r.status)
  }

  ghost predicate Inv(s: System) {
    EntriesOk(s) && StoresOk(s) && ChecksOk(s) && ReadsOk(s)
  }

  // What a step does to the entries: removal, or one store.
  lemma EntriesAfter(s: System, a: Action, u: User)
    requires u in Step(s, a).entries
    ensures (u in s.entries && Step(s, a).entries[u] == s.entries[u])
            || (a.Keep? && Step(s, a).stores != []
                && WasStored(Step(s, a).stores[|Step(s, a).stores| - 1], u, Step(s, a).entries[u]))
  {
  }

  lemma LogsGrow(s: System, a: Action)
    ensures s.stores <= Step(s, a).stores && s.readings <= Step(s, a).readings
  {
    hide Cached, Stored, StoredUnswept;
  }

  lemma EntriesKept(s: System, a: Action)
    requires EntriesOk(s)
    ensures EntriesOk(Step(s, a))
  {
    LogsGrow(s, a);
    var t := Step(s, a);
    forall u | u in t.entries ensures exists st :: st in t.stores && WasStored(st, u, t.entries[u]) {
      EntriesAfter(s, a, u);
      hide Step, WasStored;
      if u in s.entries && t.entries[u] == s.entries[u] {
        var st :| st in s.stores && WasStored(st, u, s.entries[u]);
        assert st in t.stores;
      } else {
        assert t.stores[|t.stores| - 1] in t.stores;
      }
    }
  }

  lemma StoresKept(s: System, a: Action)
    requires StoresOk(s) && ChecksOk(s)
    ensures StoresOk(Step(s, a))
  {
    LogsGrow(s, a);
    hide Stored, StoredUnswept, Cached;
    if a.Keep? && a.check < |s.checks| {
      assert s.checks[a.check] in s.checks;
    }
  }

  lemma ChecksKept(s: System, a: Action)
    requires ChecksOk(s)
    ensures ChecksOk(Step(s, a))
  {
    LogsGrow(s, a);
    var t := Step(s, a);
    forall c | 0 <= c < |t.checks| && t.checks[c].Fetched?
      ensures t.checks[c].at <= t.now && Reading(t.checks[c].user, t.checks[c].status, t.checks[c].at) in t.readings
    {
      FetchedAfter(s, a, c);
      hide Step;
    }
  }

  lemma FetchedAfter(s: System, a: Action, c: nat)
    requires c < |Step(s, a).checks| && Step(s, a).checks[c].Fetched?
    ensures var t := Step(s, a);
            && t.now >= s.now
            && ((c < |s.checks| && t.checks[c] == s.checks[c])
                || (t.checks[c].at == t.now && Reading(t.checks[c].user, t.checks[c].status, t.now) in t.readings))
  {
    hide Stored, StoredUnswept, Cached;
  }

  lemma ReadsKept(s: System, a: Action)
    requires ReadsOk(s)
    ensures ReadsOk(Step(s, a))
  {
    hide Stored, StoredUnswept, Cached;
  }

  lemma StepKeepsInv(s: System, a: Action)
    requires Inv(s)
    ensures Inv(Step(s, a))
  {
    hide Step, EntriesOk, StoresOk, ChecksOk, ReadsOk;
    EntriesKept(s, a);
    StoresKept(s, a);
    ChecksKept(s, a);
    ReadsKept(s, a);
  }

  lemma StepKeepsSettings(s: System, a: Action)
    ensures Step(s, a).ttl == s.ttl && Step(s, a).sweeps == s.sweeps
  {
    hide Stored, StoredUnswept, Cached;
  }

  lemma {:induction false} RunKeepsInv(ttl: nat, sweeps: bool, users: map<User, Status>, acts: seq<Action>)
    ensures Inv(Run(Start(ttl, sweeps, users), acts))
  {
    if acts != [] {
      hide Inv, Step;
      RunKeepsInv(ttl, sweeps, users, acts[..|acts| - 1]);
      StepKeepsInv(Run(Start(ttl, sweeps, users), acts[..|acts| - 1]), acts[|acts| - 1]);
    }
  }

  /** A status served from the cache was returned by the database for that user less than the
    * lifetime plus the read-to-store delay of the check that stored it ago; and if it is no longer
    * what the database holds, the account changed at or after that reading.
    */
  lemma ServedIsRecent(ttl: nat, sweeps: bool, users: map<User, Status>, acts: seq<Action>, u: User, status: Status)
    returns (st: Storing)
    requires var s := Run(Start(ttl, sweeps, users), acts); Cached(s.entries, ttl, u, s.now) == Some(status)
    ensures var s := Run(Start(ttl, sweeps, users), acts);
            && st in s.stores && st.user == u && st.status == status
            && Reading(u, status, st.readAt) in s.readings
            && st.readAt <= st.storedAt <= s.now
            && s.now - st.readAt < ttl + (st.storedAt - st.readAt)
            && ((u in s.users && s.users[u] == status)
                || (u in s.changed && st.readAt <= s.changed[u]
                    && s.now < s.changed[u] + ttl + (st.storedAt - st.readAt)))
  {
    RunKeepsInv(ttl, sweeps, users, acts);
    var s := Run(Start(ttl, sweeps, users), acts);
    hide Run;
    st :| st in s.stores && WasStored(st, u, s.entries[u]);
  }

  // --- a change takes effect -------------------------------------------------

  function CurrentStatus(s: System, u: User): Option<Status> {
    if u in s.users then Some(s.users[u]) else None
  }

  predicate StaleInFlight(s: System, u: User, c: nat) {
    c < |s.checks| && s.checks[c].Fetched? && s.checks[c].user == u && Some(s.checks[c].status) != CurrentStatus(s, u)
  }

  ghost predicate NothingStale(s: System, u: User) {
    && (u in s.entries ==> Some(s.entries[u].status) == CurrentStatus(s, u))
    && forall c: nat :: !StaleInFlight(s, u, c)
  }

  ghost predicate NoWrites(acts: seq<Action>, u: User) {
    forall a <- acts :: !(a.Write? && a.user == u)
  }

  // Every check of `u` begun in `s` or later and answered by `t`, unless by the fallback.
  ghost predicate AnswersCurrent(t: System, u: User, from: nat, current: Option<Status>) {
    forall c ::
      (&& from <= c < |t.checks| && t.checks[c].user == u && t.checks[c].Answered?
       && t.checks[c].origin != Fallback)
      ==> t.checks[c].answer == current
  }

  lemma NoWriteKeepsCurrent(s: System, a: Action, u: User)
    requires !(a.Write? && a.user == u)
    ensures CurrentStatus(Step(s, a), u) == CurrentStatus(s, u)
  {
    hide Stored, StoredUnswept, Cached;
  }

  // Nothing becomes stale but by a change.
  lemma StaleBefore(s: System, a: Action, u: User, c: nat)
    requires !(a.Write? && a.user == u) && StaleInFlight(Step(s, a), u, c)
    ensures StaleInFlight(s, u, c)
  {
    hide Stored, StoredUnswept, Cached;
  }

  // Where a new answer comes from.
  lemma AnswerFrom(s: System, a: Action, c: nat)
    requires c < |Step(s, a).checks| && Step(s, a).checks[c].Answered? && Step(s, a).checks[c].origin != Fallback
    ensures var u, answer := Step(s, a).checks[c].user, Step(s, a).checks[c].answer;
            c < |s.checks| && s.checks[c].user == u &&
            (s.checks[c] == Step(s, a).checks[c]
             || (answer.Some? && Cached(s.entries, s.ttl, u, s.now) == answer)
             || answer == CurrentStatus(s, u)
             || (s.checks[c].Fetched? && answer == Some(s.checks[c].status)))
  {
    hide Stored, StoredUnswept, Cached;
  }

  lemma NothingStaleKept(s: System, a: Action, u: User)
    requires NothingStale(s, u) && !(a.Write? && a.user == u)
    ensures NothingStale(Step(s, a), u)
  {
    var t := Step(s, a);
    NoWriteKeepsCurrent(s, a, u);
    forall c: nat ensures !StaleInFlight(t, u, c) {
      if StaleInFlight(t, u, c) { StaleBefore(s, a, u, c); }
    }
    if a.Keep? {
      assert !StaleInFlight(s, u, a.check);
    }
    hide StaleInFlight, CurrentStatus;
  }

  lemma AnswersKept(s: System, a: Action, u: User, from: nat, current: Option<Status>)
    requires forall c: nat :: from <= c ==> !StaleInFlight(s, u, c)
    requires s.ttl == 0 || (u in s.entries ==> Some(s.entries[u].status) == current)
    requires CurrentStatus(s, u) == current && AnswersCurrent(s, u, from, current)
    ensures AnswersCurrent(Step(s, a), u, from, current)
  {
    var t := Step(s, a);
    forall c | from <= c < |t.checks| && t.checks[c].user == u && t.checks[c].Answered?
               && t.checks[c].origin != Fallback
      ensures t.checks[c].answer == current
    {
      AnswerFrom(s, a, c);
      assert !StaleInFlight(s, u, c);
      hide Step;
    }
  }

  lemma {:induction false} RunStaysCurrent(s: System, acts: seq<Action>, u: User)
    requires NothingStale(s, u) && NoWrites(acts, u)
    ensures NothingStale(Run(s, acts), u) && CurrentStatus(Run(s, acts), u) == CurrentStatus(s, u)
    ensures AnswersCurrent(Run(s, acts), u, |s.checks|, CurrentStatus(s, u))
  {
    if acts != [] {
      var n := |acts| - 1;
      assert acts[n] in acts && NoWrites(acts[..n], u);
      hide Step, NothingStale, AnswersCurrent, CurrentStatus;
      RunStaysCurrent(s, acts[..n], u);
      var t := Run(s, acts[..n]);
      NothingStaleKept(t, acts[n], u);
      NoWriteKeepsCurrent(t, acts[n], u);
      NothingStaleMeans(t, u);
      AnswersKept(t, acts[n], u, |s.checks|, CurrentStatus(s, u));
    }
  }

  lemma NothingStaleMeans(s: System, u: User)
    requires NothingStale(s, u)
    ensures forall c: nat :: !StaleInFlight(s, u, c)
    ensures u in s.entries ==> Some(s.entries[u].status) == CurrentStatus(s, u)
  {
  }

  // Whatever happens next, the checks of `u` begun from now on answer what the database holds.
  ghost predicate EffectiveFrom(s: System, u: User) {
    forall acts: seq<Action> | NoWrites(acts, u) ::
      AnswersCurrent(Run(s, acts), u, |s.checks|, CurrentStatus(s, u))
  }

  /** After an invalidation, a change of an account is in effect for every later check exactly when
    * no check still holds an answer from before it (or nothing is ever cached).
    */
  lemma EffectiveIff(s: System, u: User)
    requires u !in s.entries
    ensures EffectiveFrom(s, u) <==> s.ttl == 0 || forall c: nat :: !StaleInFlight(s, u, c)
  {
    if forall c: nat :: !StaleInFlight(s, u, c) {
      forall acts: seq<Action> | NoWrites(acts, u)
        ensures AnswersCurrent(Run(s, acts), u, |s.checks|, CurrentStatus(s, u))
      {
        RunStaysCurrent(s, acts, u);
      }
    } else if s.ttl == 0 {
      forall acts: seq<Action> | NoWrites(acts, u)
        ensures AnswersCurrent(Run(s, acts), u, |s.checks|, CurrentStatus(s, u))
      {
        UncachedStaysCurrent(s, acts, u);
      }
    } else {
      var c: nat :| StaleInFlight(s, u, c);
      StaleIsServed(s, u, c);
    }
  }

  // The answer still held is stored after the invalidation and then served.
  lemma StaleIsServed(s: System, u: User, c: nat)
    requires StaleInFlight(s, u, c) && s.ttl > 0
    ensures !EffectiveFrom(s, u)
  {
    var n := |s.checks|;
    var acts := [Keep(c), Enter(u), Lookup(n)];
    var s1 := Step(s, Keep(c));
    var s2 := Step(s1, Enter(u));
    var s3 := Step(s2, Lookup(n));
    ThreeSteps(s, acts);
    assert s3.checks[n] == Answered(u, Some(s.checks[c].status), Cache) by {
      assert u in s1.entries && s1.entries[u] == Entry(s.checks[c].status, s.now);
    }
    assert NoWrites(acts, u);
    assert !AnswersCurrent(Run(s, acts), u, n, CurrentStatus(s, u));
  }

  lemma ThreeSteps(s: System, acts: seq<Action>)
    requires |acts| == 3
    ensures Run(s, acts) == Step(Step(Step(s, acts[0]), acts[1]), acts[2])
  {
    hide Step;
    assert acts[..2][..1] == acts[..1] && acts[..1][..0] == [];
    assert Run(s, acts[..1]) == Step(s, acts[0]);
    assert Run(s, acts[..2]) == Step(Run(s, acts[..1]), acts[1]);
  }

  // With a lifetime of zero nothing is served from the cache.
  lemma {:induction false} UncachedStaysCurrent(s: System, acts: seq<Action>, u: User)
    requires s.ttl == 0 && NoWrites(acts, u)
    ensures var t := Run(s, acts);
            && t.ttl == 0 && CurrentStatus(t, u) == CurrentStatus(s, u)
            && AnswersCurrent(t, u, |s.checks|, CurrentStatus(s, u))
            && forall c: nat :: |s.checks| <= c ==> !StaleInFlight(t, u, c)
  {
    if acts != [] {
      var n := |acts| - 1;
      var t, a := Run(s, acts[..n]), acts[n];
      assert a in acts && NoWrites(acts[..n], u);
      UncachedStaysCurrent(s, acts[..n], u);
      hide Step, AnswersCurrent, CurrentStatus;
      StepKeepsSettings(t, a);
      NoWriteKeepsCurrent(t, a, u);
      AnswersKept(t, a, u, |s.checks|, CurrentStatus(s, u));
      forall c: nat | |s.checks| <= c ensures !StaleInFlight(Step(t, a), u, c) {
        if StaleInFlight(Step(t, a), u, c) { StaleBefore(t, a, u, c); }
      }
    }
  }

  // --- a second invalidation is enough ---------------------------------------

  // A check that holds a stale answer after a run without changes held it before.
  lemma {:induction false} OnlyOldAnswersAreStale(s: System, acts: seq<Action>, u: User, c: nat)
    requires NoWrites(acts, u)
    ensures CurrentStatus(Run(s, acts), u) == CurrentStatus(s, u)
    ensures StaleInFlight(Run(s, acts), u, c) ==> StaleInFlight(s, u, c)
  {
    if acts != [] {
      var n := |acts| - 1;
      assert acts[n] in acts && NoWrites(acts[..n], u);
      OnlyOldAnswersAreStale(s, acts[..n], u, c);
      hide Step, StaleInFlight, CurrentStatus;
      NoWriteKeepsCurrent(Run(s, acts[..n]), acts[n], u);
      if StaleInFlight(Run(s, acts), u, c) { StaleBefore(Run(s, acts[..n]), acts[n], u, c); }
    }
  }

  predicate Finished(s: System, c: nat) {
    c < |s.checks| && s.checks[c].Answered?
  }

  /** A change of an account (a ban) is in effect for good after an invalidation that comes when
    * every check that had an older answer at the change has finished, in any interleaving.
    */
  lemma SecondInvalidationSuffices(s: System, acts: seq<Action>, u: User)
    requires NoWrites(acts, u)
    requires forall c: nat :: StaleInFlight(s, u, c) ==> Finished(Run(s, acts), c)
    ensures EffectiveFrom(Step(Run(s, acts), Invalidate(u)), u)
  {
    var t := Run(s, acts);
    var t' := Step(t, Invalidate(u));
    forall c: nat ensures !StaleInFlight(t', u, c) {
      OnlyOldAnswersAreStale(s, acts, u, c);
    }
    EffectiveIff(t', u);
  }

  // --- the sweep -------------------------------------------------------------

  // `f` holds more than `e`, but nothing more that is still served.
  ghost predicate SweptFrom(e: Entries, f: Entries, now: Instant) {
    && (forall u <- e :: u in f && f[u] == e[u])
    && (forall u <- f :: f[u].checked <= now)
    && forall u <- f :: u in e || Elapsed(f[u].checked, now) >= SWEEP_AFTER
  }

  lemma SweptStore(e: Entries, f: Entries, now: Instant, u: User, status: Status)
    requires SweptFrom(e, f, now)
    ensures SweptFrom(Stored(e, u, status, now), StoredUnswept(f, u, status, now), now)
  {
    assert SweptFrom(Swept(e, now), f, now);
    hide Swept;
  }

  lemma SweptLookup(e: Entries, f: Entries, now: Instant, ttl: nat, u: User, later: Instant)
    requires SweptFrom(e, f, now) && now <= later && ttl <= SWEEP_AFTER
    ensures Cached(e, ttl, u, later) == Cached(f, ttl, u, later)
  {
  }

  // `b` is `a` without sweeps.
  ghost predicate SweptOf(a: System, b: System) {
    b == a.(sweeps := false, entries := b.entries) && SweptFrom(a.entries, b.entries, a.now)
  }

  lemma SweptOfKeep(a: System, b: System, c: nat)
    requires SweptOf(a, b) && a.sweeps && c < |a.checks| && a.checks[c].Fetched?
    ensures SweptOf(KeepStep(a, c), KeepStep(b, c))
  {
    SweptStore(a.entries, b.entries, a.now, a.checks[c].user, a.checks[c].status);
    hide SweptFrom, Stored, StoredUnswept;
  }

  lemma SweptOfLookup(a: System, b: System, c: nat)
    requires SweptOf(a, b) && a.ttl <= SWEEP_AFTER && c < |a.checks|
    ensures SweptOf(LookupStep(a, c), LookupStep(b, c))
  {
    SweptLookup(a.entries, b.entries, a.now, a.ttl, a.checks[c].user, a.now);
    hide SweptFrom, Cached;
  }

  lemma SweptOfQuery(a: System, b: System, c: nat, fails: bool)
    requires SweptOf(a, b) && c < |a.checks|
    ensures SweptOf(QueryStep(a, c, fails), QueryStep(b, c, fails))
  {
    hide SweptFrom;
  }

  lemma SweptOfKept(a: System, b: System, act: Action)
    requires SweptOf(a, b) && a.sweeps && a.ttl <= SWEEP_AFTER
    ensures SweptOf(Step(a, act), Step(b, act))
  {
    hide KeepStep, LookupStep, QueryStep;
    match act
    case Tick(d) =>
    case Write(u, status) => hide SweptFrom;
    case Enter(u) => hide SweptFrom;
    case Lookup(c) => hide SweptFrom; if c < |a.checks| && a.checks[c].Entered? { SweptOfLookup(a, b, c); }
    case Query(c, fails) => hide SweptFrom; if c < |a.checks| && a.checks[c].Missed? { SweptOfQuery(a, b, c, fails); }
    case Keep(c) => hide SweptFrom; if c < |a.checks| && a.checks[c].Fetched? { SweptOfKeep(a, b, c); }
    case Invalidate(u) =>
  }

  /** With entries that live no longer than the sweep spares them, the swept cache answers every
    * check in every run as one that is never swept, and every lookup at every later instant.
    */
  lemma {:induction false} SweepRefines(ttl: nat, users: map<User, Status>, acts: seq<Action>)
    requires ttl <= SWEEP_AFTER
    ensures var a := Run(Start(ttl, true, users), acts);
            var b := Run(Start(ttl, false, users), acts);
            && SweptOf(a, b) && a.sweeps && a.ttl == ttl
            && a.checks == b.checks
            && forall u: User, later: Instant | later >= a.now ::
                 Cached(a.entries, ttl, u, later) == Cached(b.entries, ttl, u, later)
  {
    if acts != [] {
      var n := |acts| - 1;
      SweepRefines(ttl, users, acts[..n]);
      var (a, b) := (Run(Start(ttl, true, users), acts[..n]), Run(Start(ttl, false, users), acts[..n]));
      hide Step, SweptFrom, Cached;
      SweptOfKept(a, b, acts[n]);
      StepKeepsSettings(a, acts[n]);
    }
    var (a, b) := (Run(Start(ttl, true, users), acts), Run(Start(ttl, false, users), acts));
    hide Run, SweptFrom, Cached;
    forall u: User, later: Instant | later >= a.now
      ensures Cached(a.entries, ttl, u, later) == Cached(b.entries, ttl, u, later)
    {
      SweptLookup(a.entries, b.entries, a.now, ttl, u, later);
    }
  }

  // --- the cache as an object ------------------------------------------------

  class StatusCache {
    var entries: Entries
    const ttl: nat

    constructor (ttl: nat)
      ensures entries == map[] && this.ttl == ttl
    {
      this.ttl := ttl;
      entries := map[];
    }

    method CachedStatus(u: User, now: Instant) returns (r: Option<Status>)
      ensures r == Cached(entries, ttl, u, now)
      ensures r.Some? ==> u in entries && r.value == entries[u].status
    {
      r := None;
      if u in entries && Elapsed(entries[u].checked, now) < ttl {
        r := Some(entries[u].status);
      }
    }

    method Store(u: User, status: Status, now: Instant)
      modifies this
      ensures entries == Stored(old(entries), u, status, now)
      ensures ttl > 0 ==> Cached(entries, ttl, u, now) == Some(status)
    {
      if |entries| > SWEEP_ABOVE {
        entries := Swept(entries, now);
      }
      entries := entries[u := Entry(status, now)];
    }

    method Invalidate(u: User)
      modifies this
      ensures entries == old(entries) - {u}
      ensures forall now: Instant :: Cached(entries, ttl, u, now) == None
      ensures forall v: User, now: Instant :: v != u ==>
                Cached(entries, ttl, v, now) == Cached(old(entries), ttl, v, now)
    {
      entries := entries - {u};
    }

    // A whole check; `answer` is what the database says when asked, nothing if it fails.
    method CheckUser(u: User, answer: Option<Option<Status>>, now: Instant, later: Instant)
      returns (r: Option<Status>)
      requires now <= later
      modifies this
      ensures var hit := Cached(old(entries), ttl, u, now);
              && (hit.Some? ==> r == hit && entries == old(entries))
              && (hit.None? && answer.None? ==> r == Some(Status(true, false)) && entries == old(entries))
              && (hit.None? && answer == Some(None) ==> r == None && entries == old(entries))
              && (hit.None? && answer.Some? && answer.value.Some? ==>
                    r == answer.value && entries == Stored(old(entries), u, answer.value.value, later))
    {
      r := CachedStatus(u, now);
      if r.Some? {
        return;
      }
      match answer {
        case None => r := Some(ALLOWED);
        case Some(None) => r := None;
        case Some(Some(status)) =>
          Store(u, status, later);
          r := Some(status);
      }
    }
  }
}
