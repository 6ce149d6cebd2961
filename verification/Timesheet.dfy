/** Time entries and the freezing of a project's months.
  *
  * A request first decides, from what it reads, what it is going to write, and then writes it;
  * other requests may come in between. `Handle` is a request that nothing comes between.
  */
module Timesheet {
  import opened Text

  type User = nat
  type Project = nat
  type IssueId = nat
  type EntryId = nat

  datatype Date = Date(year: int, month: int, day: int)
  datatype Kind = Work | Meeting | Vacation | Illness | DayOff | Holiday

  datatype Entry = Entry(
    user: User, kind: Kind, project: Option<Project>, issue: Option<IssueId>, date: Date,
    minutes: nat, note: string, booking: Option<nat>, version: nat)

  datatype Issue = Issue(project: Project, deleted: bool)

  datatype Period = Period(project: Project, year: int, month: int)

  // `next` numbers entries and bookings.
  datatype Sheet = Sheet(entries: map<EntryId, Entry>, next: nat, locks: set<Period>, issues: map<IssueId, Issue>)

  // Who asks, and the projects where that user may log and manage time at that moment.
  datatype Actor = Actor(user: User, logs: set<Project>, manages: set<Project>)

  datatype Request =
    | LogMine(actor: Actor, kindName: Option<string>, issue: Option<IssueId>, project: Option<Project>,
              date: Date, minutes: nat, note: Option<string>)
    | UpdateMine(actor: Actor, id: EntryId, minutes: nat, note: Option<string>, newDate: Option<Date>, version: nat)
    | DeleteMine(actor: Actor, id: EntryId)
    | BookAbsence(actor: Actor, absence: string, days: seq<Date>, minutes: nat, note: Option<string>)
    | DeleteBooking(actor: Actor, booking: nat)
    | AdminLog(actor: Actor, at: Project, user: User, isMember: bool, issue: Option<IssueId>, date: Date,
               minutes: nat, note: Option<string>)
    | AdminUpdate(
        actor: Actor, at: Project, id: EntryId, minutes: nat, note: Option<string>, newDate: Option<Date>, version: nat)
    | AdminDelete(actor: Actor, at: Project, id: EntryId)
    | LockPeriod(actor: Actor, period: Period)
    | UnlockPeriod(actor: Actor, period: Period)

  datatype Reply = Done | Forbidden | NotFound | Unprocessable | PeriodLocked | Stale

  // What a request has decided to write.
  datatype Effect =
    | Insert(entry: Entry)
    | Change(id: EntryId, minutes: nat, note: string, newDate: Option<Date>, version: nat)
    | Remove(id: EntryId)
    | InsertBooking(user: User, kind: Kind, days: seq<Date>, minutes: nat, note: string)
    | RemoveBooking(user: User, booking: nat)
    | AddLock(period: Period)
    | DropLock(period: Period)

  datatype Decision = Refused(reply: Reply) | Decided(effect: Effect)

  // --- deciding --------------------------------------------------------------

  function ParseKind(s: string): Option<Kind> {
    if s == "work" then Some(Work) else if s == "meeting" then Some(Meeting)
    else if s == "vacation" then Some(Vacation) else if s == "illness" then Some(Illness)
    else if s == "day_off" then Some(DayOff) else if s == "holiday" then Some(Holiday) else None
  }

  predicate Locked(s: Sheet, project: Project, date: Date) {
    Period(project, date.year, date.month) in s.locks
  }

  // `guard_locked`: may the actor touch an entry of this project on this date?
  predicate GuardPasses(s: Sheet, actor: Actor, project: Option<Project>, date: Date) {
    project.Some? && Locked(s, project.value, date) ==> project.value in actor.manages
  }

  function NoteOr(note: Option<string>, other: string): string {
    if note.Some? then note.value else other
  }

  function DecideLog(s: Sheet, r: Request): Decision
    requires r.LogMine?
  {
    DecideEntry(s, r, ParseKind(NoteOr(r.kindName, "work")), Trim(NoteOr(r.note, "")))
  }

  // The same of the kind and the note, once they are read.
  function DecideEntry(s: Sheet, r: Request, kind: Option<Kind>, note: string): Decision
    requires r.LogMine?
  {
    if kind != Some(Work) && kind != Some(Meeting) then Refused(Unprocessable) else
    var issue := if kind.value == Work then r.issue else None;
    if issue.Some? && (issue.value !in s.issues || s.issues[issue.value].deleted) then Refused(Unprocessable) else
    var project := if issue.Some? then Some(s.issues[issue.value].project) else r.project;
    if kind.value == Work && (project.None? || (issue.None? && note == "")) then Refused(Unprocessable)
    else if project.Some? && project.value !in r.actor.logs then Refused(Forbidden)
    else if !GuardPasses(s, r.actor, project, r.date) then Refused(PeriodLocked)
    else Decided(Insert(Entry(r.actor.user, kind.value, project, issue, r.date, r.minutes, note, None, 1)))
  }

  function DecideUpdate(s: Sheet, r: Request): Decision
    requires r.UpdateMine?
  {
    if r.id !in s.entries || s.entries[r.id].user != r.actor.user then Refused(NotFound) else
    var e := s.entries[r.id];
    if !GuardPasses(s, r.actor, e.project, e.date) then Refused(PeriodLocked)
    else if r.newDate.Some? && r.newDate.value != e.date && !GuardPasses(s, r.actor, e.project, r.newDate.value)
    then Refused(PeriodLocked)
    else Decided(Change(r.id, r.minutes, NoteOr(r.note, e.note), r.newDate, r.version))
  }

  function DecideAdminLog(s: Sheet, r: Request): Decision
    requires r.AdminLog?
  {
    if r.at !in r.actor.manages then Refused(Forbidden)
    else if !r.isMember then Refused(Unprocessable)
    else if r.issue.Some? && !(r.issue.value in s.issues && s.issues[r.issue.value] == Issue(r.at, false))
    then Refused(Unprocessable)
    else Decided(Insert(Entry(r.user, Work, Some(r.at), r.issue, r.date, r.minutes, NoteOr(r.note, ""), None, 1)))
  }

  function Decide(s: Sheet, r: Request): Decision {
    match r
    case LogMine(_, _, _, _, _, _, _) => DecideLog(s, r)
    case UpdateMine(_, _, _, _, _, _) => DecideUpdate(s, r)
    case DeleteMine(actor, id) =>
      if id !in s.entries || s.entries[id].user != actor.user then Refused(NotFound)
      else if !GuardPasses(s, actor, s.entries[id].project, s.entries[id].date) then Refused(PeriodLocked)
      else Decided(Remove(id))
    case BookAbsence(actor, absence, days, minutes, note) =>
      var kind := ParseKind(absence);
      if kind.None? || kind.value == Work || kind.value == Meeting then Refused(Unprocessable)
      else Decided(InsertBooking(actor.user, kind.value, days, minutes, NoteOr(note, "")))
    case DeleteBooking(actor, booking) => Decided(RemoveBooking(actor.user, booking))
    case AdminLog(_, _, _, _, _, _, _, _) => DecideAdminLog(s, r)
    case AdminUpdate(actor, at, id, minutes, note, newDate, version) =>
      if at !in actor.manages then Refused(Forbidden)
      else if id !in s.entries || s.entries[id].project != Some(at) then Refused(NotFound)
      else Decided(Change(id, minutes, NoteOr(note, ""), newDate, version))
    case AdminDelete(actor, at, id) =>
      if at !in actor.manages then Refused(Forbidden)
      else if id !in s.entries || s.entries[id].project != Some(at) then Refused(NotFound)
      else Decided(Remove(id))
    case LockPeriod(actor, period) =>
      if period.project !in actor.manages then Refused(Forbidden) else Decided(AddLock(period))
    case UnlockPeriod(actor, period) =>
      if period.project !in actor.manages then Refused(Forbidden) else Decided(DropLock(period))
  }

  // --- writing ---------------------------------------------------------------

  function Changed(e: Entry, effect: Effect): Entry
    requires effect.Change?
  {
    e.(minutes := effect.minutes, note := effect.note, version := e.version + 1,
       date := if effect.newDate.Some? then effect.newDate.value else e.date)
  }

  function WithDays(entries: map<EntryId, Entry>, first: nat, days: seq<Date>, e: Entry): map<EntryId, Entry>
    decreases |days|
  {
    if days == [] then entries else
    var n := |days| - 1;
    WithDays(entries, first, days[..n], e)[first + n := e.(date := days[n])]
  }

  // The entry of a booking, but for its date.
  function BookingEntry(effect: Effect, booking: nat): Entry
    requires effect.InsertBooking?
  {
    Entry(effect.user, effect.kind, None, None, Date(0, 0, 0), effect.minutes, effect.note, Some(booking), 1)
  }

  predicate OfBooking(e: Entry, user: User, booking: nat) {
    e.booking == Some(booking) && e.user == user
  }

  function Commit(s: Sheet, effect: Effect): Sheet {
    match effect
    case Insert(e) => s.(entries := s.entries[s.next := e], next := s.next + 1)
    case Change(id, _, _, _, version) =>
      if id in s.entries && s.entries[id].version == version
      then s.(entries := s.entries[id := Changed(s.entries[id], effect)]) else s
    case Remove(id) => s.(entries := s.entries - {id})
    case InsertBooking(_, _, days, _, _) =>
      s.(entries := WithDays(s.entries, s.next + 1, days, BookingEntry(effect, s.next)), next := s.next + 1 + |days|)
    case RemoveBooking(user, booking) =>
      s.(entries := map id <- s.entries | !OfBooking(s.entries[id], user, booking) :: s.entries[id])
    case AddLock(period) => s.(locks := s.locks + {period})
    case DropLock(period) => s.(locks := s.locks - {period})
  }

  function CommitReply(s: Sheet, effect: Effect): Reply {
    match effect
    case Change(id, _, _, _, version) =>
      if id !in s.entries then NotFound else if s.entries[id].version != version then Stale else Done
    case Remove(id) => if id in s.entries then Done else NotFound
    case RemoveBooking(user, booking) =>
      if exists id <- s.entries :: OfBooking(s.entries[id], user, booking) then Done else NotFound
    case DropLock(period) => if period in s.locks then Done else NotFound
    case _ => Done
  }

  // A request that runs alone.
  function Handle(s: Sheet, r: Request): (Sheet, Reply) {
    match Decide(s, r)
    case Refused(reply) => (s, reply)
    case Decided(effect) => (Commit(s, effect), CommitReply(s, effect))
  }

  // --- a month of a project --------------------------------------------------

  predicate InPeriod(e: Entry, p: Period) {
    e.project == Some(p.project) && e.date.year == p.year && e.date.month == p.month
  }

  function MonthOf(s: Sheet, p: Period): map<EntryId, Entry> {
    map id <- s.entries | InPeriod(s.entries[id], p) :: s.entries[id]
  }

  // Numbers are handed out in order, and what was booked has no project.
  ghost predicate Inv(s: Sheet) {
    forall id <- s.entries :: id < s.next && (s.entries[id].booking.Some? ==> s.entries[id].project.None?)
  }

  // An effect on an existing entry is on one that has been numbered; only bookings are booked.
  ghost predicate EffectOk(s: Sheet, effect: Effect) {
    match effect
    case Insert(e) => e.booking.None?
    case Change(id, _, _, _, _) => id < s.next
    case Remove(id) => id < s.next
    case _ => true
  }

  // Could the write, now or later, change the month or its lock?
  predicate Touches(s: Sheet, effect: Effect, p: Period) {
    match effect
    case Insert(e) => InPeriod(e, p)
    case Change(id, _, _, newDate, _) =>
      id in s.entries
      && (InPeriod(s.entries[id], p) || (newDate.Some? && InPeriod(s.entries[id].(date := newDate.value), p)))
    case Remove(id) => id in s.entries && InPeriod(s.entries[id], p)
    case DropLock(period) => period == p
    case _ => false
  }

  lemma {:induction false} WithDaysHolds(
    entries: map<EntryId, Entry>, first: nat, days: seq<Date>, e: Entry, id: EntryId)
    ensures var r := WithDays(entries, first, days, e);
            && (id in r <==> id in entries || first <= id < first + |days|)
            && (id in r ==> r[id] == if first <= id < first + |days| then e.(date := days[id - first]) else entries[id])
    decreases |days|
  {
    if days != [] {
      WithDaysHolds(entries, first, days[..|days| - 1], e, id);
    }
  }

  lemma BookingHolds(s: Sheet, effect: Effect, id: EntryId)
    requires effect.InsertBooking? && Inv(s)
    ensures var t := Commit(s, effect);
            && (id in s.entries ==> id in t.entries && t.entries[id] == s.entries[id])
            && (id in t.entries && id !in s.entries ==>
                  id < t.next && t.entries[id].project.None? && t.entries[id].booking == Some(s.next))
  {
    WithDaysHolds(s.entries, s.next + 1, effect.days, BookingEntry(effect, s.next), id);
  }

  lemma CommitKeepsInv(s: Sheet, effect: Effect)
    requires Inv(s) && EffectOk(s, effect)
    ensures Inv(Commit(s, effect)) && Commit(s, effect).next >= s.next
  {
    if effect.InsertBooking? {
      forall id | id in Commit(s, effect).entries
        ensures id < Commit(s, effect).next
        ensures Commit(s, effect).entries[id].booking.Some? ==> Commit(s, effect).entries[id].project.None?
      {
        BookingHolds(s, effect, id);
        hide WithDays, BookingEntry;
      }
    }
  }

  lemma EffectStaysOk(s: Sheet, first: Effect, later: Effect)
    requires Inv(s) && EffectOk(s, first) && EffectOk(s, later)
    ensures EffectOk(Commit(s, first), later)
  {
    hide Commit, Inv;
    CommitKeepsInv(s, first);
  }

  lemma DecidedIsOk(s: Sheet, r: Request)
    requires Inv(s)
    ensures Decide(s, r).Decided? ==> EffectOk(s, Decide(s, r).effect)
  {
    hide Trim, ParseKind;
  }

  // What a write that does not touch the month leaves of it: everything.
  lemma UntouchedStays(s: Sheet, effect: Effect, p: Period)
    requires Inv(s) && EffectOk(s, effect) && !Touches(s, effect, p)
    ensures MonthOf(Commit(s, effect), p) == MonthOf(s, p)
    ensures p in s.locks ==> p in Commit(s, effect).locks
  {
    if effect.InsertBooking? {
      forall id: EntryId ensures id in MonthOf(Commit(s, effect), p) <==> id in MonthOf(s, p) {
        BookingHolds(s, effect, id);
        hide WithDays, BookingEntry;
      }
      forall id | id in MonthOf(s, p) ensures Commit(s, effect).entries[id] == s.entries[id] {
        BookingHolds(s, effect, id);
      }
      hide WithDays, BookingEntry;
    }
  }

  // And a write that did not touch the month does not come to touch it by another such write.
  lemma StaysUntouching(s: Sheet, first: Effect, later: Effect, p: Period)
    requires Inv(s) && EffectOk(s, first) && EffectOk(s, later)
    requires !Touches(s, first, p) && !Touches(s, later, p)
    ensures !Touches(Commit(s, first), later, p)
  {
    if first.InsertBooking? && (later.Change? || later.Remove?) {
      BookingHolds(s, first, later.id);
      WithDaysHolds(s.entries, s.next + 1, first.days, BookingEntry(first, s.next), later.id);
      hide WithDays, BookingEntry;
    }
  }

  /** Who may not manage a project decides nothing that touches a locked month of it. */
  lemma LockedIsNotTouched(s: Sheet, r: Request, p: Period)
    requires p in s.locks && p.project !in r.actor.manages
    ensures Decide(s, r).Decided? ==> !Touches(s, Decide(s, r).effect, p)
  {
    hide Trim, ParseKind;
  }

  // Some locked month that the actor does not manage would be touched.
  ghost predicate TouchesLocked(s: Sheet, effect: Effect, actor: Actor) {
    exists p <- s.locks :: p.project !in actor.manages && Touches(s, effect, p)
  }

  /** Locks refuse exactly the requests that would touch a locked month, and change nothing of what
    * any other request decides.
    */
  lemma LocksRefuseExactly(s: Sheet, r: Request)
    ensures var free := Decide(s.(locks := {}), r);
            Decide(s, r)
            == if free.Decided? && TouchesLocked(s, free.effect, r.actor) then Refused(PeriodLocked) else free
  {
    hide Trim, ParseKind;
  }

  // --- requests handled one at a time ----------------------------------------

  function HandleAll(s: Sheet, requests: seq<Request>): Sheet {
    if requests == [] then s else
    Handle(HandleAll(s, requests[..|requests| - 1]), requests[|requests| - 1]).0
  }

  lemma HandleFreezes(s: Sheet, r: Request, p: Period)
    requires Inv(s) && p in s.locks && p.project !in r.actor.manages
    ensures var t := Handle(s, r).0; Inv(t) && p in t.locks && MonthOf(t, p) == MonthOf(s, p)
  {
    hide Decide, Commit, MonthOf, Inv;
    if Decide(s, r).Decided? {
      DecidedIsOk(s, r);
      LockedIsNotTouched(s, r, p);
      UntouchedStays(s, Decide(s, r).effect, p);
      CommitKeepsInv(s, Decide(s, r).effect);
    }
  }

  lemma HandleKeepsInv(s: Sheet, r: Request)
    requires Inv(s)
    ensures Inv(Handle(s, r).0)
  {
    hide Decide, Commit, Inv;
    if Decide(s, r).Decided? {
      DecidedIsOk(s, r);
      CommitKeepsInv(s, Decide(s, r).effect);
    }
  }

  /** Between its lock and its unlock, over any run of requests by users without `time.manage` on
    * the project, a project's month keeps exactly the entries it had, and stays locked.
    */
  lemma {:induction false} LockedMonthIsFrozen(s: Sheet, requests: seq<Request>, p: Period)
    requires Inv(s) && p in s.locks
    requires forall r <- requests :: p.project !in r.actor.manages
    ensures var t := HandleAll(s, requests); Inv(t) && p in t.locks && MonthOf(t, p) == MonthOf(s, p)
  {
    if requests != [] {
      var n := |requests| - 1;
      assert requests[n] in requests;
      hide Handle, MonthOf, Inv;
      LockedMonthIsFrozen(s, requests[..n], p);
      HandleFreezes(HandleAll(s, requests[..n]), requests[n], p);
    }
  }

  // --- requests at work at the same time -------------------------------------

  datatype Server = Server(sheet: Sheet, pending: seq<Effect>)

  datatype Action = Arrive(request: Request) | Finish(pending: nat)

  function Serve(v: Server, a: Action): Server {
    match a
    case Arrive(r) =>
      (match Decide(v.sheet, r)
       case Refused(_) => v
       case Decided(effect) => v.(pending := v.pending + [effect]))
    case Finish(k) =>
      if k < |v.pending|
      then Server(Commit(v.sheet, v.pending[k]), v.pending[..k] + v.pending[k + 1..]) else v
  }

  function ServeAll(v: Server, acts: seq<Action>): Server {
    if acts == [] then v else Serve(ServeAll(v, acts[..|acts| - 1]), acts[|acts| - 1])
  }

  ghost predicate ServerOk(v: Server) {
    Inv(v.sheet) && forall e <- v.pending :: EffectOk(v.sheet, e)
  }

  ghost predicate NonePendingTouches(v: Server, p: Period) {
    forall e <- v.pending :: !Touches(v.sheet, e, p)
  }

  ghost predicate ByOthers(a: Action, p: Period) {
    a.Arrive? ==> p.project !in a.request.actor.manages
  }

  lemma ServeKeepsOk(v: Server, a: Action)
    requires ServerOk(v)
    ensures ServerOk(Serve(v, a))
  {
    hide Decide, Commit, Inv, EffectOk;
    match a
    case Arrive(r) => DecidedIsOk(v.sheet, r);
    case Finish(k) =>
      if k < |v.pending| {
        assert v.pending[k] in v.pending;
        CommitKeepsInv(v.sheet, v.pending[k]);
        forall e | e in v.pending ensures EffectOk(Commit(v.sheet, v.pending[k]), e) {
          EffectStaysOk(v.sheet, v.pending[k], e);
        }
      }
  }

  lemma ServeFreezes(v: Server, a: Action, p: Period)
    requires ServerOk(v) && NonePendingTouches(v, p) && p in v.sheet.locks && ByOthers(a, p)
    ensures var w := Serve(v, a);
            NonePendingTouches(w, p) && p in w.sheet.locks && MonthOf(w.sheet, p) == MonthOf(v.sheet, p)
  {
    hide Decide, Commit, Inv, EffectOk, Touches, MonthOf;
    match a
    case Arrive(r) => LockedIsNotTouched(v.sheet, r, p);
    case Finish(k) =>
      if k < |v.pending| {
        assert v.pending[k] in v.pending;
        UntouchedStays(v.sheet, v.pending[k], p);
        forall e | e in v.pending ensures !Touches(Commit(v.sheet, v.pending[k]), e, p) {
          StaysUntouching(v.sheet, v.pending[k], e, p);
        }
      }
  }

  /** In any interleaving, a locked month is frozen from the moment on when no request is left that
    * decided to write to it before the lock.
    */
  lemma {:induction false} FrozenOnceDrained(v: Server, acts: seq<Action>, p: Period)
    requires ServerOk(v) && NonePendingTouches(v, p) && p in v.sheet.locks
    requires forall a <- acts :: ByOthers(a, p)
    ensures var w := ServeAll(v, acts);
            && ServerOk(w) && NonePendingTouches(w, p)
            && p in w.sheet.locks && MonthOf(w.sheet, p) == MonthOf(v.sheet, p)
  {
    if acts != [] {
      var n := |acts| - 1;
      assert acts[n] in acts;
      hide Serve, ServerOk, NonePendingTouches, MonthOf, ByOthers;
      FrozenOnceDrained(v, acts[..n], p);
      ServeKeepsOk(ServeAll(v, acts[..n]), acts[n]);
      ServeFreezes(ServeAll(v, acts[..n]), acts[n], p);
    }
  }

  // --- exactly which pending writes can break the freeze ---------------------

  predicate Bumps(c: Effect, id: EntryId, version: nat) {
    c.Change? && c.id == id && c.version == version
  }

  function DateAfter(c: Effect, date: Date): Date {
    if c.Change? && c.newDate.Some? then c.newDate.value else date
  }

  // The month of the date is open, or about to be.
  predicate Opens(v: Server, project: Project, date: Date) {
    !Locked(v.sheet, project, date) || DropLock(Period(project, date.year, date.month)) in v.pending
  }

  // Can the entry, now at `version` and `date`, come to have the version `target`? Its user may
  // update it while its month is open; otherwise only writes that are already decided can.
  ghost predicate CanReach(v: Server, id: EntryId, project: Project, version: nat, date: Date, target: nat)
    decreases if version < target then target - version else 0
  {
    version == target ||
    (version < target &&
     (Opens(v, project, date)
      || exists c <- v.pending ::
           Bumps(c, id, version) && CanReach(v, id, project, version + 1, DateAfter(c, date), target)))
  }

  // The pending write aims at the month, and its version, if it has one, is or can become current.
  ghost predicate Harms(v: Server, e: Effect, p: Period) {
    Touches(v.sheet, e, p) &&
    (e.Change? ==> CanReach(v, e.id, p.project, v.sheet.entries[e.id].version, v.sheet.entries[e.id].date, e.version))
  }

  ghost predicate NoneHarms(v: Server, p: Period) {
    forall e <- v.pending :: !Harms(v, e, p)
  }

  // `v` opens and bumps whatever `w` does.
  ghost predicate Covers(v: Server, w: Server, id: EntryId, project: Project, version: nat) {
    && (forall date: Date :: Opens(w, project, date) ==> Opens(v, project, date))
    && (forall c <- w.pending :: c.Change? && c.id == id && c.version >= version ==> c in v.pending)
  }

  lemma {:induction false} ReachCovered(
    v: Server, w: Server, id: EntryId, project: Project, version: nat, date: Date, target: nat)
    requires Covers(v, w, id, project, version) && CanReach(w, id, project, version, date, target)
    ensures CanReach(v, id, project, version, date, target)
    decreases if version < target then target - version else 0
  {
    if version < target && !Opens(w, project, date) {
      var c :|
        c in w.pending && Bumps(c, id, version) && CanReach(w, id, project, version + 1, DateAfter(c, date), target);
      ReachCovered(v, w, id, project, version + 1, DateAfter(c, date), target);
    }
  }

  lemma OpenReaches(v: Server, id: EntryId, project: Project, version: nat, date: Date, target: nat)
    requires version <= target && Opens(v, project, date)
    ensures CanReach(v, id, project, version, date, target)
  {
  }

  lemma ReachIsAhead(v: Server, id: EntryId, project: Project, version: nat, date: Date, target: nat)
    requires CanReach(v, id, project, version, date, target)
    ensures version <= target
  {
  }

  function Without(pending: seq<Effect>, k: nat): seq<Effect>
    requires k < |pending|
  {
    pending[..k] + pending[k + 1..]
  }

  lemma FinishIs(v: Server, k: nat)
    requires k < |v.pending|
    ensures Serve(v, Finish(k)) == Server(Commit(v.sheet, v.pending[k]), Without(v.pending, k))
    ensures forall c <- Without(v.pending, k) :: c in v.pending
    ensures forall c <- v.pending :: c != v.pending[k] ==> c in Without(v.pending, k)
  {
    hide Commit;
    var rest := Without(v.pending, k);
    forall c <- v.pending | c != v.pending[k] ensures c in rest {
      var i :| 0 <= i < |v.pending| && v.pending[i] == c;
      assert rest[if i < k then i else i - 1] == c;
    }
  }

  // What a write leaves of an entry that was there.
  lemma EntryAfter(s: Sheet, e: Effect, id: EntryId)
    requires Inv(s) && id < s.next && id in Commit(s, e).entries
    ensures id in s.entries
    ensures Commit(s, e).entries[id] == s.entries[id]
            || (Bumps(e, id, s.entries[id].version) && Commit(s, e).entries[id] == Changed(s.entries[id], e))
  {
    if e.InsertBooking? {
      WithDaysHolds(s.entries, s.next + 1, e.days, BookingEntry(e, s.next), id);
      hide WithDays, BookingEntry;
    }
  }

  lemma LocksAfter(v: Server, k: nat, project: Project, date: Date)
    requires k < |v.pending| && Opens(Serve(v, Finish(k)), project, date)
    ensures Opens(v, project, date)
  {
    FinishIs(v, k);
    CommitLocks(v.sheet, v.pending[k]);
    hide Commit, Serve;
  }

  lemma CommitLocks(s: Sheet, e: Effect)
    ensures Commit(s, e).locks == match e
      case AddLock(q) => s.locks + {q}
      case DropLock(q) => s.locks - {q}
      case _ => s.locks
  {
    hide WithDays, BookingEntry;
  }

  // A write that does not harm either does not aim at the month, or is past and writes nothing.
  lemma HarmlessWrite(v: Server, e: Effect, p: Period)
    requires !Harms(v, e, p)
    ensures !Touches(v.sheet, e, p) || Commit(v.sheet, e) == v.sheet
  {
    hide WithDays, BookingEntry;
  }

  lemma HarmlessFinish(v: Server, k: nat, p: Period)
    requires ServerOk(v) && NoneHarms(v, p) && p in v.sheet.locks && k < |v.pending|
    ensures var w := Serve(v, Finish(k));
            p in w.sheet.locks && MonthOf(w.sheet, p) == MonthOf(v.sheet, p)
  {
    FinishIs(v, k);
    assert v.pending[k] in v.pending;
    HarmlessWrite(v, v.pending[k], p);
    hide Serve, Commit, Harms, Touches, MonthOf, Inv, EffectOk;
    if !Touches(v.sheet, v.pending[k], p) {
      UntouchedStays(v.sheet, v.pending[k], p);
    }
  }

  lemma StaysHarmless(v: Server, k: nat, e: Effect, p: Period)
    requires ServerOk(v) && NoneHarms(v, p) && k < |v.pending| && e in v.pending
    ensures !Harms(Serve(v, Finish(k)), e, p)
  {
    var w, e0 := Serve(v, Finish(k)), v.pending[k];
    FinishIs(v, k);
    assert e0 in v.pending && EffectOk(v.sheet, e0) && EffectOk(v.sheet, e);
    HarmlessWrite(v, e0, p);
    hide Serve, Commit, MonthOf, CanReach, Changed;
    if Harms(w, e, p) {
      if !Touches(v.sheet, e0, p) {
        if !Touches(v.sheet, e, p) { StaysUntouching(v.sheet, e0, e, p); }
      }
      hide Touches, Inv;
      if e.Change? { ReachBefore(v, k, e, p); }
    }
  }

  lemma ReachBefore(v: Server, k: nat, e: Effect, p: Period)
    requires Inv(v.sheet) && k < |v.pending| && e.Change? && e.id < v.sheet.next
    requires var w := Serve(v, Finish(k));
             e.id in w.sheet.entries
             && CanReach(w, e.id, p.project, w.sheet.entries[e.id].version, w.sheet.entries[e.id].date, e.version)
    ensures e.id in v.sheet.entries
    ensures CanReach(v, e.id, p.project, v.sheet.entries[e.id].version, v.sheet.entries[e.id].date, e.version)
  {
    var w, e0 := Serve(v, Finish(k)), v.pending[k];
    FinishIs(v, k);
    EntryAfter(v.sheet, e0, e.id);
    var (x, y) := (v.sheet.entries[e.id], w.sheet.entries[e.id]);
    assert y == x || (y.version == x.version + 1 && y.date == DateAfter(e0, x.date));
    hide Commit, Inv;
    forall date: Date | Opens(w, p.project, date) ensures Opens(v, p.project, date) {
      LocksAfter(v, k, p.project, date);
    }
    hide Serve, Opens;
    ReachCovered(v, w, e.id, p.project, y.version, y.date, e.version);
    if y != x {
      ReachIsAhead(w, e.id, p.project, y.version, y.date, e.version);
      assert e0 in v.pending && Bumps(e0, e.id, x.version);
    }
  }

  // An update that others decide is of an entry whose month is open, and no lock of the project is
  // theirs to lift.
  lemma OthersDecide(s: Sheet, r: Request, p: Period)
    requires p.project !in r.actor.manages && Decide(s, r).Decided?
    ensures var x := Decide(s, r).effect;
            && (x.Change? && x.id in s.entries && s.entries[x.id].project == Some(p.project) ==>
                  !Locked(s, p.project, s.entries[x.id].date))
            && (x.DropLock? ==> x.period.project != p.project)
  {
    hide Trim, ParseKind;
  }

  lemma HarmlessArrival(v: Server, r: Request, p: Period)
    requires NoneHarms(v, p) && p in v.sheet.locks && p.project !in r.actor.manages
    ensures NoneHarms(Serve(v, Arrive(r)), p)
  {
    hide *;
    ArrivalIs(v, r);
    if Decide(v.sheet, r).Decided? {
      var x := Decide(v.sheet, r).effect;
      LockedIsNotTouched(v.sheet, r, p);
      OthersDecide(v.sheet, r, p);
      NewHarmsNothing(v, Serve(v, Arrive(r)), x, p);
    }
  }

  lemma ArrivalIs(v: Server, r: Request)
    ensures Serve(v, Arrive(r)) == match Decide(v.sheet, r)
      case Refused(_) => v
      case Decided(x) => v.(pending := v.pending + [x])
  {
    hide Decide;
  }

  lemma NewHarmsNothing(v: Server, w: Server, x: Effect, p: Period)
    requires NoneHarms(v, p) && w == v.(pending := v.pending + [x]) && !Touches(v.sheet, x, p)
    requires x.Change? && x.id in v.sheet.entries && v.sheet.entries[x.id].project == Some(p.project) ==>
               !Locked(v.sheet, p.project, v.sheet.entries[x.id].date)
    requires x.DropLock? ==> x.period.project != p.project
    ensures NoneHarms(w, p)
  {
    hide Touches, CanReach, Locked;
    forall e | e in w.pending ensures !Harms(w, e, p) {
      if e in v.pending && Touches(w.sheet, e, p) && e.Change? {
        assert !Harms(v, e, p);
        TouchedIsOfProject(v.sheet, e, p);
        if CanReach(w, e.id, p.project, v.sheet.entries[e.id].version, v.sheet.entries[e.id].date, e.version) {
          ReachWithout(v, w, x, e.id, p.project, e.version);
        }
      }
    }
  }

  lemma TouchedIsOfProject(s: Sheet, e: Effect, p: Period)
    requires e.Change? && Touches(s, e, p)
    ensures e.id in s.entries && s.entries[e.id].project == Some(p.project)
  {
  }

  lemma ReachWithout(v: Server, w: Server, x: Effect, id: EntryId, project: Project, target: nat)
    requires w == v.(pending := v.pending + [x]) && id in v.sheet.entries
    requires x.Change? && x.id == id ==> !Locked(v.sheet, project, v.sheet.entries[id].date)
    requires x.DropLock? ==> x.period.project != project
    requires CanReach(w, id, project, v.sheet.entries[id].version, v.sheet.entries[id].date, target)
    ensures CanReach(v, id, project, v.sheet.entries[id].version, v.sheet.entries[id].date, target)
  {
    var entry := v.sheet.entries[id];
    ReachIsAhead(w, id, project, entry.version, entry.date, target);
    if x.Change? && x.id == id {
      OpenReaches(v, id, project, entry.version, entry.date, target);
    } else {
      hide CanReach;
      ReachCovered(v, w, id, project, entry.version, entry.date, target);
    }
  }

  lemma {:induction false} HarmlessStaysFrozen(v: Server, acts: seq<Action>, p: Period)
    requires ServerOk(v) && NoneHarms(v, p) && p in v.sheet.locks && forall a <- acts :: ByOthers(a, p)
    ensures var w := ServeAll(v, acts);
            && ServerOk(w) && NoneHarms(w, p)
            && p in w.sheet.locks && MonthOf(w.sheet, p) == MonthOf(v.sheet, p)
  {
    if acts != [] {
      var n := |acts| - 1;
      assert acts[n] in acts;
      HarmlessStaysFrozen(v, acts[..n], p);
      HarmlessStep(ServeAll(v, acts[..n]), acts[n], p);
      hide Serve, ServerOk, NoneHarms, MonthOf, ByOthers;
    }
  }

  lemma HarmlessStep(v: Server, a: Action, p: Period)
    requires ServerOk(v) && NoneHarms(v, p) && p in v.sheet.locks && ByOthers(a, p)
    ensures var w := Serve(v, a);
            ServerOk(w) && NoneHarms(w, p) && p in w.sheet.locks && MonthOf(w.sheet, p) == MonthOf(v.sheet, p)
  {
    hide Serve, NoneHarms, ServerOk, MonthOf;
    ServeKeepsOk(v, a);
    match a
    case Arrive(r) =>
      HarmlessArrival(v, r, p);
      ArrivalIs(v, r);
    case Finish(k) =>
      if k < |v.pending| {
        HarmlessFinish(v, k, p);
        StayHarmless(v, k, p);
      } else {
        NothingFinishes(v, k);
      }
  }

  lemma StayHarmless(v: Server, k: nat, p: Period)
    requires ServerOk(v) && NoneHarms(v, p) && k < |v.pending|
    ensures NoneHarms(Serve(v, Finish(k)), p)
  {
    hide Serve, Harms, Commit, ServerOk;
    FinishIs(v, k);
    forall e | e in Serve(v, Finish(k)).pending ensures !Harms(Serve(v, Finish(k)), e, p) {
      StaysHarmless(v, k, e, p);
    }
  }

  lemma NothingFinishes(v: Server, k: nat)
    requires k >= |v.pending|
    ensures Serve(v, Finish(k)) == v
  {
  }

  // --- and that they do break it ---------------------------------------------

  // The month or its lock is not what it was.
  ghost predicate Broken(v: Server, w: Server, p: Period) {
    p !in w.sheet.locks || MonthOf(w.sheet, p) != MonthOf(v.sheet, p)
  }

  lemma {:induction false} ServeSplits(v: Server, first: seq<Action>, rest: seq<Action>)
    ensures ServeAll(v, first + rest) == ServeAll(ServeAll(v, first), rest)
  {
    hide Serve;
    if rest == [] {
      assert first + rest == first;
    } else {
      var n := |rest| - 1;
      assert (first + rest)[..|first + rest| - 1] == first + rest[..n];
      ServeSplits(v, first, rest[..n]);
    }
  }

  lemma ServeOne(v: Server, a: Action)
    ensures ServeAll(v, [a]) == Serve(v, a)
  {
    hide Serve;
    assert [a][..0] == [];
  }

  lemma ServeTwo(v: Server, a: Action, b: Action)
    ensures ServeAll(v, [a, b]) == Serve(Serve(v, a), b)
  {
    hide Serve;
    ServeOne(v, a);
    assert [a, b][..1] == [a];
  }

  // A change that is applied to an entry of the month, or brings one into it, shows.
  lemma AppliedChangeShows(v: Server, k: nat, p: Period)
    requires k < |v.pending| && v.pending[k].Change? && v.pending[k].id in v.sheet.entries
    requires v.sheet.entries[v.pending[k].id].version == v.pending[k].version
    requires Touches(v.sheet, v.pending[k], p)
    ensures Broken(v, Serve(v, Finish(k)), p)
  {
    var e := v.pending[k];
    var (x, t) := (v.sheet.entries[e.id], Serve(v, Finish(k)).sheet);
    FinishIs(v, k);
    hide Serve;
    assert t.entries[e.id] == Changed(x, e);
    if InPeriod(Changed(x, e), p) {
      assert e.id in MonthOf(t, p) && MonthOf(t, p)[e.id] == Changed(x, e);
      assert e.id in MonthOf(v.sheet, p) ==> MonthOf(v.sheet, p)[e.id] == x;
    } else {
      assert e.id in MonthOf(v.sheet, p) && e.id !in MonthOf(t, p);
    }
  }

  // Entries outside the month do not show, before or after a change.
  lemma ChangeElsewhere(s: Sheet, e: Effect, p: Period)
    requires e.Change? && !Touches(s, e, p)
    ensures MonthOf(Commit(s, e), p) == MonthOf(s, p) && Commit(s, e).locks == s.locks
  {
  }

  // The entry's user updates it where it is, to its next version.
  lemma OwnerBumps(v: Server, id: EntryId, p: Period) returns (acts: seq<Action>, w: Server)
    requires id in v.sheet.entries && v.sheet.entries[id].project == Some(p.project)
    requires !InPeriod(v.sheet.entries[id], p)
    requires !Locked(v.sheet, p.project, v.sheet.entries[id].date)
    ensures (forall a <- acts :: ByOthers(a, p)) && w == ServeAll(v, acts)
    ensures w.pending == v.pending && w.sheet.locks == v.sheet.locks && MonthOf(w.sheet, p) == MonthOf(v.sheet, p)
    ensures id in w.sheet.entries
    ensures w.sheet.entries[id] == v.sheet.entries[id].(version := v.sheet.entries[id].version + 1)
  {
    var x := v.sheet.entries[id];
    var r := UpdateMine(Actor(x.user, {}, {}), id, x.minutes, None, None, x.version);
    var e := Change(id, x.minutes, x.note, None, x.version);
    var n := |v.pending|;
    acts := [Arrive(r), Finish(n)];
    w := ServeAll(v, acts);
    assert Decide(v.sheet, r) == Decided(e);
    var v1 := v.(pending := v.pending + [e]);
    assert Serve(v, Arrive(r)) == v1 by { hide Decide; }
    ServeTwo(v, Arrive(r), Finish(n));
    FinishIs(v1, n);
    assert Without(v1.pending, n) == v.pending;
    hide Serve, Decide, ServeAll;
    ChangeElsewhere(v.sheet, e, p);
  }

  lemma FinishedAt(v: Server, j: nat, k: nat) returns (k': nat)
    requires j < |v.pending| && k < |v.pending| && j != k
    ensures k' < |Without(v.pending, j)| && Without(v.pending, j)[k'] == v.pending[k]
  {
    k' := if k < j then k else k - 1;
  }

  // A change into the month that can become current does.
  lemma {:induction false} ChangeBreaks(v: Server, k: nat, p: Period) returns (acts: seq<Action>)
    requires p in v.sheet.locks && k < |v.pending| && v.pending[k].Change? && Harms(v, v.pending[k], p)
    ensures (forall a <- acts :: ByOthers(a, p)) && Broken(v, ServeAll(v, acts), p)
    decreases v.pending[k].version - v.sheet.entries[v.pending[k].id].version,
              if Locked(v.sheet, p.project, v.sheet.entries[v.pending[k].id].date) then 1 else 0
  {
    var e := v.pending[k];
    var x := v.sheet.entries[e.id];
    ReachIsAhead(v, e.id, p.project, x.version, x.date, e.version);
    if x.version == e.version {
      AppliedChangeShows(v, k, p);
      ServeOne(v, Finish(k));
      acts := [Finish(k)];
    } else if !Locked(v.sheet, p.project, x.date) {
      var first, w := OwnerBumps(v, e.id, p);
      OpenReaches(w, e.id, p.project, x.version + 1, x.date, e.version);
      hide ServeAll, MonthOf, CanReach, ByOthers;
      var rest := ChangeBreaks(w, k, p);
      ServeSplits(v, first, rest);
      acts := first + rest;
    } else if Opens(v, p.project, x.date) {
      acts := UnlockBreaks(v, k, p);
    } else {
      var c :| c in v.pending && Bumps(c, e.id, x.version)
               && CanReach(v, e.id, p.project, x.version + 1, DateAfter(c, x.date), e.version);
      var j :| 0 <= j < |v.pending| && v.pending[j] == c;
      if Touches(v.sheet, c, p) {
        AppliedChangeShows(v, j, p);
        ServeOne(v, Finish(j));
        acts := [Finish(j)];
      } else {
        var k', w := BumpedByPending(v, k, j, p);
        hide ServeAll, MonthOf, CanReach, ByOthers;
        var rest := ChangeBreaks(w, k', p);
        assert ByOthers(Finish(j), p) by { FinishIsByOthers(j, p); }
        ServeOne(v, Finish(j));
        ServeSplits(v, [Finish(j)], rest);
        acts := [Finish(j)] + rest;
      }
    }
  }

  lemma FinishIsByOthers(j: nat, p: Period)
    ensures ByOthers(Finish(j), p)
  {
  }

  // The pending unlock of the entry's month is carried out first.
  lemma {:induction false} UnlockBreaks(v: Server, k: nat, p: Period) returns (acts: seq<Action>)
    requires p in v.sheet.locks && k < |v.pending| && v.pending[k].Change? && Harms(v, v.pending[k], p)
    requires var x := v.sheet.entries[v.pending[k].id];
             Locked(v.sheet, p.project, x.date) && Opens(v, p.project, x.date) && x.version < v.pending[k].version
    ensures (forall a <- acts :: ByOthers(a, p)) && Broken(v, ServeAll(v, acts), p)
    decreases v.pending[k].version - v.sheet.entries[v.pending[k].id].version, 1, 0
  {
    var e := v.pending[k];
    var x := v.sheet.entries[e.id];
    var q := Period(p.project, x.date.year, x.date.month);
    var j :| 0 <= j < |v.pending| && v.pending[j] == DropLock(q);
    var w := Serve(v, Finish(j));
    FinishIs(v, j);
    ServeOne(v, Finish(j));
    FinishIsByOthers(j, p);
    if q == p {
      acts := [Finish(j)];
    } else {
      var k' := FinishedAt(v, j, k);
      OpenReaches(w, e.id, p.project, x.version, x.date, e.version);
      assert MonthOf(w.sheet, p) == MonthOf(v.sheet, p);
      hide ServeAll, MonthOf, CanReach, ByOthers, Serve;
      var rest := ChangeBreaks(w, k', p);
      ServeSplits(v, [Finish(j)], rest);
      acts := [Finish(j)] + rest;
    }
  }

  // A pending write brings the entry to its next version.
  lemma BumpedByPending(v: Server, k: nat, j: nat, p: Period) returns (k': nat, w: Server)
    requires p in v.sheet.locks && k < |v.pending| && v.pending[k].Change? && Harms(v, v.pending[k], p)
    requires var x := v.sheet.entries[v.pending[k].id];
             && x.version < v.pending[k].version && j < |v.pending| && Bumps(v.pending[j], v.pending[k].id, x.version)
             && !Touches(v.sheet, v.pending[j], p)
             && CanReach(v, v.pending[k].id, p.project, x.version + 1, DateAfter(v.pending[j], x.date),
                         v.pending[k].version)
    ensures w == Serve(v, Finish(j)) && k' < |w.pending| && w.pending[k'] == v.pending[k]
    ensures p in w.sheet.locks && MonthOf(w.sheet, p) == MonthOf(v.sheet, p) && Harms(w, w.pending[k'], p)
    ensures w.sheet.entries[v.pending[k].id].version == v.sheet.entries[v.pending[k].id].version + 1
  {
    var (e, c) := (v.pending[k], v.pending[j]);
    var x := v.sheet.entries[e.id];
    w := Serve(v, Finish(j));
    FinishIs(v, j);
    ChangeElsewhere(v.sheet, c, p);
    k' := FinishedAt(v, j, k);
    assert w.sheet.entries[e.id] == Changed(x, c);
    hide Serve, MonthOf, CanReach, Commit, Without;
    forall date: Date | Opens(v, p.project, date) ensures Opens(w, p.project, date) {
      var q := DropLock(Period(p.project, date.year, date.month));
      assert q in v.pending ==> q in w.pending;
    }
    ReachCovered(w, v, e.id, p.project, x.version + 1, DateAfter(c, x.date), e.version);
  }

  lemma HarmBreaks(v: Server, k: nat, p: Period) returns (acts: seq<Action>)
    requires ServerOk(v) && p in v.sheet.locks && k < |v.pending| && Harms(v, v.pending[k], p)
    ensures (forall a <- acts :: ByOthers(a, p)) && Broken(v, ServeAll(v, acts), p)
  {
    if v.pending[k].Change? {
      acts := ChangeBreaks(v, k, p);
    } else {
      hide CanReach;
      acts := [Finish(k)];
      ServeOne(v, Finish(k));
      FinishIs(v, k);
      OtherWriteShows(v.sheet, v.pending[k], p);
      hide ServeAll, Serve, Commit;
    }
  }

  lemma OtherWriteShows(s: Sheet, e: Effect, p: Period)
    requires Inv(s) && !e.Change? && Touches(s, e, p)
    ensures p !in Commit(s, e).locks || MonthOf(Commit(s, e), p) != MonthOf(s, p)
  {
    hide WithDays, BookingEntry;
    match e
    case Insert(x) =>
      assert s.next in MonthOf(Commit(s, e), p) && s.next !in MonthOf(s, p);
    case Remove(id) =>
      assert id !in MonthOf(Commit(s, e), p) && id in MonthOf(s, p);
    case _ =>
  }

  // Whatever others do next, the month and its lock stay.
  ghost predicate FrozenForOthers(v: Server, p: Period) {
    forall acts: seq<Action> | (forall a <- acts :: ByOthers(a, p)) :: !Broken(v, ServeAll(v, acts), p)
  }

  /** In any interleaving a locked month is frozen against all who do not manage the project exactly
    * when no write that was decided before aims at it and is, or can become, current.
    */
  lemma {:induction false} FrozenIff(v: Server, p: Period)
    requires ServerOk(v) && p in v.sheet.locks
    ensures FrozenForOthers(v, p) <==> NoneHarms(v, p)
  {
    hide Harms, Broken, ServeAll, ByOthers, ServerOk;
    if NoneHarms(v, p) {
      forall acts: seq<Action> | (forall a <- acts :: ByOthers(a, p)) ensures !Broken(v, ServeAll(v, acts), p) {
        HarmlessStaysFrozen(v, acts, p);
        NotBroken(v, ServeAll(v, acts), p);
      }
    } else {
      var e :| e in v.pending && Harms(v, e, p);
      var k :| 0 <= k < |v.pending| && v.pending[k] == e;
      var acts := HarmBreaks(v, k, p);
    }
  }

  lemma NotBroken(v: Server, w: Server, p: Period)
    requires p in w.sheet.locks && MonthOf(w.sheet, p) == MonthOf(v.sheet, p)
    ensures !Broken(v, w, p)
  {
  }

  /** A request that checked the lock just before it was set still writes into the locked month. */
  lemma CheckedBeforeTheLock(v: Server, actor: Actor, manager: Actor, date: Date, p: Period)
    requires ServerOk(v) && v.pending == []
    requires p == Period(p.project, date.year, date.month) && p !in v.sheet.locks
    requires p.project in actor.logs && p.project in manager.manages
    ensures var acts := [Arrive(LogMine(actor, Some("meeting"), None, Some(p.project), date, 60, None)),
                         Arrive(LockPeriod(manager, p)), Finish(1)];
            var locked := ServeAll(v, acts);
            && p in locked.sheet.locks
            && MonthOf(Serve(locked, Finish(0)).sheet, p) != MonthOf(locked.sheet, p)
  {
    hide *;
    var log := LogMine(actor, Some("meeting"), None, Some(p.project), date, 60, None);
    var entry := Entry(actor.user, Meeting, Some(p.project), None, date, 60, Trim(""), None, 1);
    NotLocked(v.sheet, p, date);
    MeetingIsDecided(v.sheet, log, entry);
    EntryInPeriod(entry, p);
    LateWrite(v, log, manager, entry, p);
  }

  lemma EntryInPeriod(entry: Entry, p: Period)
    requires entry.project == Some(p.project) && p == Period(p.project, entry.date.year, entry.date.month)
    ensures InPeriod(entry, p)
  {
  }

  // A write decided before the lock, and finished after it, shows in the month.
  lemma LateWrite(v: Server, log: Request, manager: Actor, entry: Entry, p: Period)
    requires ServerOk(v) && v.pending == [] && p.project in manager.manages
    requires Decide(v.sheet, log) == Decided(Insert(entry)) && InPeriod(entry, p)
    ensures var locked := ServeAll(v, [Arrive(log), Arrive(LockPeriod(manager, p)), Finish(1)]);
            && p in locked.sheet.locks
            && MonthOf(Serve(locked, Finish(0)).sheet, p) != MonthOf(locked.sheet, p)
  {
    hide Decide, Inv, Serve, ServeAll, MonthOf, Commit, InPeriod;
    var v1 := v.(pending := [Insert(entry)]);
    var v2 := v.(pending := [Insert(entry), AddLock(p)]);
    var v3 := Server(v.sheet.(locks := v.sheet.locks + {p}), [Insert(entry)]);
    Arrived(v, log, Insert(entry));
    assert v.pending + [Insert(entry)] == [Insert(entry)];
    LockIsDecided(v.sheet, manager, p);
    Arrived(v1, LockPeriod(manager, p), AddLock(p));
    assert v1.pending + [AddLock(p)] == v2.pending;
    LockFinished(v2, v3, entry, p);
    ThreeServed(v, Arrive(log), Arrive(LockPeriod(manager, p)), Finish(1), v3);
    LocksKeepInv(v.sheet, v3.sheet.locks);
    InsertShows(v3.sheet, entry, p);
    FinishFirst(v3);
  }

  lemma LocksKeepInv(s: Sheet, locks: set<Period>)
    requires Inv(s)
    ensures Inv(s.(locks := locks))
  {
  }

  lemma NotLocked(s: Sheet, p: Period, date: Date)
    requires p == Period(p.project, date.year, date.month) && p !in s.locks
    ensures !Locked(s, p.project, date)
  {
  }

  lemma Arrived(v: Server, r: Request, effect: Effect)
    requires Decide(v.sheet, r) == Decided(effect)
    ensures Serve(v, Arrive(r)) == v.(pending := v.pending + [effect])
  {
    hide Decide;
  }

  lemma LockIsDecided(s: Sheet, manager: Actor, p: Period)
    requires p.project in manager.manages
    ensures Decide(s, LockPeriod(manager, p)) == Decided(AddLock(p))
  {
  }

  lemma LockFinished(v: Server, w: Server, entry: Entry, p: Period)
    requires v.pending == [Insert(entry), AddLock(p)]
    requires w == Server(v.sheet.(locks := v.sheet.locks + {p}), [Insert(entry)])
    ensures Serve(v, Finish(1)) == w
  {
    assert v.pending[..1] + v.pending[2..] == [Insert(entry)];
  }

  lemma FinishFirst(v: Server)
    requires v.pending != []
    ensures Serve(v, Finish(0)).sheet == Commit(v.sheet, v.pending[0])
  {
    hide Commit;
  }

  lemma InsertShows(s: Sheet, entry: Entry, p: Period)
    requires Inv(s) && InPeriod(entry, p)
    ensures MonthOf(Commit(s, Insert(entry)), p) != MonthOf(s, p)
  {
    assert s.next in MonthOf(Commit(s, Insert(entry)), p) && s.next !in MonthOf(s, p);
  }

  lemma MeetingIsDecided(s: Sheet, log: Request, entry: Entry)
    requires log.LogMine? && log.kindName == Some("meeting") && log.note == None && log.project.Some?
    requires log.project.value in log.actor.logs && !Locked(s, log.project.value, log.date)
    requires entry == Entry(log.actor.user, Meeting, log.project, None, log.date, log.minutes, Trim(""), None, 1)
    ensures Decide(s, log) == Decided(Insert(entry))
  {
    hide Trim;
  }

  lemma ThreeServed(v: Server, x: Action, y: Action, z: Action, w: Server)
    requires Serve(Serve(Serve(v, x), y), z) == w
    ensures ServeAll(v, [x, y, z]) == w
  {
    hide Serve;
    var acts := [x, y, z];
    assert acts[..2][..1] == acts[..1] && acts[..1][..0] == [];
    assert ServeAll(v, acts[..1]) == Serve(v, acts[0]);
    assert ServeAll(v, acts[..2]) == Serve(ServeAll(v, acts[..1]), acts[1]);
  }

  // --- what a request leaves alone -------------------------------------------

  // Every locked month of a project that the actor does not manage is as it was.
  ghost predicate FrozenFor(s: Sheet, t: Sheet, actor: Actor) {
    forall p <- s.locks :: p.project !in actor.manages ==> p in t.locks && MonthOf(t, p) == MonthOf(s, p)
  }

  lemma HandleIsFrozenFor(s: Sheet, r: Request)
    requires Inv(s)
    ensures Inv(Handle(s, r).0) && FrozenFor(s, Handle(s, r).0, r.actor)
  {
    hide Handle, Inv, MonthOf;
    HandleKeepsInv(s, r);
    forall p <- s.locks | p.project !in r.actor.manages
      ensures p in Handle(s, r).0.locks && MonthOf(Handle(s, r).0, p) == MonthOf(s, p)
    {
      HandleFreezes(s, r, p);
    }
  }

  lemma HandleLog(s: Sheet, r: Request)
    requires r.LogMine?
    ensures Handle(s, r)
            == match DecideEntry(s, r, ParseKind(NoteOr(r.kindName, "work")), Trim(NoteOr(r.note, "")))
               case Refused(reply) => (s, reply)
               case Decided(effect) => (Commit(s, effect), Done)
  {
    hide Trim, ParseKind, WithDays, NoteOr;
  }

  lemma HandleBook(s: Sheet, r: Request)
    requires r.BookAbsence?
    ensures var kind := ParseKind(r.absence);
            Handle(s, r)
            == if kind.None? || kind == Some(Work) || kind == Some(Meeting) then (s, Unprocessable) else
               var entry :=
                 Entry(r.actor.user, kind.value, None, None, Date(0, 0, 0), r.minutes, NoteOr(r.note, ""),
                       Some(s.next), 1);
               (s.(entries := WithDays(s.entries, s.next + 1, r.days, entry), next := s.next + 1 + |r.days|), Done)
  {
    hide WithDays, ParseKind, NoteOr;
  }

  lemma InsertCommits(s: Sheet, x: Entry)
    ensures Commit(s, Insert(x)) == s.(entries := s.entries[s.next := x], next := s.next + 1)
  {
    hide WithDays;
  }
}
