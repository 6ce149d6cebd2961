/** What each request of the time sheets answers and writes, value for value, and whose entries it
  * can reach.
  */
module TimesheetAnswers {
  import opened Text
  import opened Timesheet

  // --- personal requests -----------------------------------------------------

  // The entry as an update leaves it.
  predicate IsUpdateOf(y: Entry, x: Entry, minutes: nat, note: string, date: Date) {
    && y.minutes == minutes && y.note == note && y.date == date && y.version == x.version + 1
    && y.user == x.user && y.kind == x.kind && y.project == x.project && y.issue == x.issue && y.booking == x.booking
  }

  // `y` holds the entries of `x`, but for the one of the given number.
  ghost predicate SameBut(x: map<EntryId, Entry>, y: map<EntryId, Entry>, id: EntryId) {
    forall k: EntryId :: k != id ==> (k in y <==> k in x) && (k in x ==> y[k] == x[k])
  }

  // Is the date in a month that is closed to the actor?
  predicate Closed(s: Sheet, actor: Actor, project: Option<Project>, date: Date) {
    && project.Some? && Period(project.value, date.year, date.month) in s.locks
    && project.value !in actor.manages
  }

  /** An update is done exactly on an entry of the user's own, out of closed months and into none,
    * at the version the request names; it then writes what the request says, and nothing else.
    */
  lemma UpdateAnswers(s: Sheet, r: Request)
    requires r.UpdateMine?
    ensures var (s', reply) := Handle(s, r);
            var mine := r.id in s.entries && s.entries[r.id].user == r.actor.user;
            && (reply == NotFound <==> !mine)
            && (reply == PeriodLocked
                <==> && mine
                     && var x := s.entries[r.id];
                     || Closed(s, r.actor, x.project, x.date)
                     || (r.newDate.Some? && Closed(s, r.actor, x.project, r.newDate.value)))
            && (reply == Stale <==> mine && reply != PeriodLocked && s.entries[r.id].version != r.version)
            && reply in {Done, NotFound, PeriodLocked, Stale}
            && (reply != Done ==> s' == s)
            && (reply == Done ==>
                  && s' == s.(entries := s'.entries) && r.id in s'.entries && SameBut(s.entries, s'.entries, r.id)
                  && var x := s.entries[r.id];
                  IsUpdateOf(s'.entries[r.id], x, r.minutes, if r.note.Some? then r.note.value else x.note,
                             if r.newDate.Some? then r.newDate.value else x.date))
  {
  }

  /** A deletion is done exactly on an entry of the user's own in no closed month. */
  lemma DeleteAnswers(s: Sheet, r: Request)
    requires r.DeleteMine?
    ensures var (s', reply) := Handle(s, r);
            var mine := r.id in s.entries && s.entries[r.id].user == r.actor.user;
            && (reply == NotFound <==> !mine)
            && (reply == PeriodLocked
                <==> mine && Closed(s, r.actor, s.entries[r.id].project, s.entries[r.id].date))
            && reply in {Done, NotFound, PeriodLocked}
            && (reply != Done ==> s' == s)
            && (reply == Done ==>
                  s' == s.(entries := s'.entries) && r.id !in s'.entries && SameBut(s.entries, s'.entries, r.id))
  {
  }

  // The project a log request is for: its task's, if it names a task that counts.
  function ProjectFor(s: Sheet, issue: Option<IssueId>, project: Option<Project>): Option<Project> {
    if issue.Some? && issue.value in s.issues then Some(s.issues[issue.value].project) else project
  }

  // Can the entry be logged as it is described?
  predicate Describes(s: Sheet, work: bool, issue: Option<IssueId>, project: Option<Project>, note: string) {
    && (issue.Some? ==> issue.value in s.issues && !s.issues[issue.value].deleted)
    && (work ==> ProjectFor(s, issue, project).Some? && (issue.None? ==> note != ""))
  }

  /** A log is done exactly if it is of work or a meeting, is well described, is for a project
    * where the user may log time, and falls in no closed month; it then enters just that.
    */
  lemma LogAnswers(s: Sheet, r: Request)
    requires r.LogMine?
    ensures var (s', reply) := Handle(s, r);
            var work := r.kindName == None || r.kindName == Some("work");
            var meeting := r.kindName == Some("meeting");
            var note := Trim(if r.note.Some? then r.note.value else "");
            var issue := if work then r.issue else None;
            var project := ProjectFor(s, issue, r.project);
            && (reply == Unprocessable <==> (!work && !meeting) || !Describes(s, work, issue, r.project, note))
            && (reply == Forbidden
                <==> reply != Unprocessable && project.Some? && project.value !in r.actor.logs)
            && (reply == PeriodLocked
                <==> reply != Unprocessable && reply != Forbidden && Closed(s, r.actor, project, r.date))
            && reply in {Done, Unprocessable, Forbidden, PeriodLocked}
            && (reply != Done ==> s' == s)
            && (reply == Done ==>
                  && s' == s.(entries := s'.entries, next := s.next + 1)
                  && s.next in s'.entries && SameBut(s.entries, s'.entries, s.next)
                  && s'.entries[s.next]
                     == Entry(r.actor.user, if work then Work else Meeting, project, issue, r.date, r.minutes, note,
                              None, 1))
  {
    hide Trim, ParseKind, Handle, Commit, NoteOr, SameBut;
    HandleLog(s, r);
    NoteIs(r.note, "");
    KindIs(NoteOr(r.kindName, "work"));
    NoteIs(r.kindName, "work");
    match DecideEntry(s, r, ParseKind(NoteOr(r.kindName, "work")), Trim(NoteOr(r.note, "")))
    case Refused(_) =>
    case Decided(effect) =>
      InsertCommits(s, effect.entry);
      InsertIsSameBut(s.entries, s.next, effect.entry);
  }

  lemma InsertIsSameBut(entries: map<EntryId, Entry>, id: EntryId, x: Entry)
    ensures SameBut(entries, entries[id := x], id)
  {
  }

  lemma NoteIs(note: Option<string>, other: string)
    ensures NoteOr(note, other) == if note.Some? then note.value else other
  {
  }

  // The names of the kinds.
  lemma KindIs(s: string)
    ensures ParseKind(s) == Some(Work) <==> s == "work"
    ensures ParseKind(s) == Some(Meeting) <==> s == "meeting"
    ensures ParseKind(s) == Some(Vacation) <==> s == "vacation"
    ensures ParseKind(s) == Some(Illness) <==> s == "illness"
    ensures ParseKind(s) == Some(DayOff) <==> s == "day_off"
    ensures ParseKind(s) == Some(Holiday) <==> s == "holiday"
  {
  }

  // The `i`-th day of the booking numbered `booking` is entered.
  predicate DayEntered(entries: map<EntryId, Entry>, booking: nat, r: Request, i: nat)
    requires r.BookAbsence? && i < |r.days|
  {
    && booking + 1 + i in entries
    && var x := entries[booking + 1 + i];
    && x.user == r.actor.user && IsCalled(x.kind, r.absence) && x.project == None && x.issue == None
    && x.date == r.days[i] && x.minutes == r.minutes && x.note == (if r.note.Some? then r.note.value else "")
    && x.booking == Some(booking) && x.version == 1
  }

  /** Booking an absence of one of the four kinds enters one entry a day, in the order of the days,
    * without project and task; anything else is refused.
    */
  lemma BookAnswers(s: Sheet, r: Request)
    requires r.BookAbsence?
    ensures var (s', reply) := Handle(s, r);
            && reply == (if r.absence in {"vacation", "illness", "day_off", "holiday"} then Done else Unprocessable)
            && (reply != Done ==> s' == s)
            && (reply == Done ==>
                  && s' == s.(entries := s'.entries, next := s.next + 1 + |r.days|)
                  && (forall k: EntryId | !(s.next < k <= s.next + |r.days|) ::
                        (k in s'.entries <==> k in s.entries) && (k in s.entries ==> s'.entries[k] == s.entries[k]))
                  && forall i | 0 <= i < |r.days| :: DayEntered(s'.entries, s.next, r, i))
  {
    hide ParseKind, NoteOr, Handle, WithDays, IsCalled;
    HandleBook(s, r);
    KindIsCalled(r.absence);
    KindIsAbsence(r.absence);
    NoteIs(r.note, "");
    if r.absence in {"vacation", "illness", "day_off", "holiday"} {
      var x := Entry(r.actor.user, ParseKind(r.absence).value, None, None, Date(0, 0, 0), r.minutes, NoteOr(r.note, ""),
                     Some(s.next), 1);
      forall k: EntryId
        ensures var y := WithDays(s.entries, s.next + 1, r.days, x);
                && (k in y <==> k in s.entries || s.next + 1 <= k < s.next + 1 + |r.days|)
                && (k in y ==> y[k] == if s.next + 1 <= k < s.next + 1 + |r.days|
                                       then x.(date := r.days[k - (s.next + 1)]) else s.entries[k])
      {
        WithDaysHolds(s.entries, s.next + 1, r.days, x, k);
      }
      var y := WithDays(s.entries, s.next + 1, r.days, x);
      forall i | 0 <= i < |r.days| ensures DayEntered(y, s.next, r, i) {
        WithDaysHolds(s.entries, s.next + 1, r.days, x, s.next + 1 + i);
      }
    }
  }

  predicate IsCalled(kind: Kind, name: string) {
    match kind
    case Work => name == "work"
    case Meeting => name == "meeting"
    case Vacation => name == "vacation"
    case Illness => name == "illness"
    case DayOff => name == "day_off"
    case Holiday => name == "holiday"
  }

  lemma KindIsCalled(s: string)
    ensures ParseKind(s).Some? ==> IsCalled(ParseKind(s).value, s)
  {
  }

  lemma KindIsAbsence(s: string)
    ensures ParseKind(s).Some? && ParseKind(s) != Some(Work) && ParseKind(s) != Some(Meeting)
            <==> s in {"vacation", "illness", "day_off", "holiday"}
  {
  }

  /** Cancelling a booking removes the user's entries of that booking, if there are any. */
  lemma CancelAnswers(s: Sheet, r: Request)
    requires r.DeleteBooking?
    ensures var (s', reply) := Handle(s, r);
            && reply == (if exists k <- s.entries :: s.entries[k].booking == Some(r.booking)
                                                     && s.entries[k].user == r.actor.user then Done else NotFound)
            && s' == s.(entries := s'.entries)
            && forall k: EntryId ::
                 (k in s'.entries
                  <==> && k in s.entries
                       && !(s.entries[k].booking == Some(r.booking) && s.entries[k].user == r.actor.user))
                 && (k in s'.entries ==> s'.entries[k] == s.entries[k])
  {
    if k :| k in s.entries && s.entries[k].booking == Some(r.booking) && s.entries[k].user == r.actor.user {
      assert OfBooking(s.entries[k], r.actor.user, r.booking);
    }
  }

  // --- requests of a project's managers --------------------------------------

  lemma AdminLogAnswers(s: Sheet, r: Request)
    requires r.AdminLog?
    ensures var (s', reply) := Handle(s, r);
            && (reply == Forbidden <==> r.at !in r.actor.manages)
            && (reply == Unprocessable
                <==> && r.at in r.actor.manages
                     && (!r.isMember
                         || (r.issue.Some? && (r.issue.value !in s.issues || s.issues[r.issue.value].deleted
                                               || s.issues[r.issue.value].project != r.at))))
            && reply in {Done, Forbidden, Unprocessable}
            && (reply != Done ==> s' == s)
            && (reply == Done ==>
                  && s' == s.(entries := s'.entries, next := s.next + 1)
                  && s.next in s'.entries && SameBut(s.entries, s'.entries, s.next)
                  && s'.entries[s.next]
                     == Entry(r.user, Work, Some(r.at), r.issue, r.date, r.minutes,
                              if r.note.Some? then r.note.value else "", None, 1))
  {
  }

  // A manager corrects any entry of the project, in a closed month too.
  lemma AdminUpdateAnswers(s: Sheet, r: Request)
    requires r.AdminUpdate?
    ensures var (s', reply) := Handle(s, r);
            var theirs := r.id in s.entries && s.entries[r.id].project == Some(r.at);
            && (reply == Forbidden <==> r.at !in r.actor.manages)
            && (reply == NotFound <==> r.at in r.actor.manages && !theirs)
            && (reply == Stale <==> r.at in r.actor.manages && theirs && s.entries[r.id].version != r.version)
            && reply in {Done, Forbidden, NotFound, Stale}
            && (reply != Done ==> s' == s)
            && (reply == Done ==>
                  && s' == s.(entries := s'.entries) && r.id in s'.entries && SameBut(s.entries, s'.entries, r.id)
                  && IsUpdateOf(s'.entries[r.id], s.entries[r.id], r.minutes, if r.note.Some? then r.note.value else "",
                                if r.newDate.Some? then r.newDate.value else s.entries[r.id].date))
  {
  }

  lemma AdminDeleteAnswers(s: Sheet, r: Request)
    requires r.AdminDelete?
    ensures var (s', reply) := Handle(s, r);
            var theirs := r.id in s.entries && s.entries[r.id].project == Some(r.at);
            && (reply == Forbidden <==> r.at !in r.actor.manages)
            && (reply == NotFound <==> r.at in r.actor.manages && !theirs)
            && reply in {Done, Forbidden, NotFound}
            && (reply != Done ==> s' == s)
            && (reply == Done ==>
                  s' == s.(entries := s'.entries) && r.id !in s'.entries && SameBut(s.entries, s'.entries, r.id))
  {
  }

  lemma LockAnswers(s: Sheet, r: Request)
    requires r.LockPeriod? || r.UnlockPeriod?
    ensures var (s', reply) := Handle(s, r);
            && (reply == Forbidden <==> r.period.project !in r.actor.manages)
            && (reply == NotFound <==> r.UnlockPeriod? && r.period.project in r.actor.manages && r.period !in s.locks)
            && reply in {Done, Forbidden, NotFound}
            && s' == s.(locks := s'.locks)
            && (reply != Done ==> s' == s)
            && (reply == Done ==> (r.period in s'.locks <==> r.LockPeriod?))
            && forall p: Period :: p != r.period ==> (p in s'.locks <==> p in s.locks)
  {
  }

  // What a write that comes late answers: its entry may be gone, or changed.
  lemma LateAnswers(s: Sheet, effect: Effect)
    ensures effect.Change? ==>
              && (CommitReply(s, effect) == NotFound <==> effect.id !in s.entries)
              && (CommitReply(s, effect) == Done
                  <==> effect.id in s.entries && s.entries[effect.id].version == effect.version)
              && (CommitReply(s, effect) != Done ==>
                    CommitReply(s, effect) in {NotFound, Stale} && Commit(s, effect) == s)
    ensures effect.Remove? ==> CommitReply(s, effect) == if effect.id in s.entries then Done else NotFound
  {
  }

  // --- whose entries a request can reach -------------------------------------

  // The effect would change or remove the entry.
  predicate Aims(effect: Effect, id: EntryId, x: Entry) {
    || (effect.Change? && effect.id == id)
    || (effect.Remove? && effect.id == id)
    || (effect.RemoveBooking? && x.booking == Some(effect.booking) && x.user == effect.user)
  }

  // The entry is neither the actor's own nor of a project that the actor manages.
  predicate Strange(actor: Actor, x: Entry) {
    actor.user != x.user && (x.project.Some? ==> x.project.value !in actor.manages)
  }

  lemma StrangersDoNotAim(s: Sheet, r: Request, id: EntryId)
    requires id in s.entries && Strange(r.actor, s.entries[id])
    ensures Decide(s, r).Decided? ==> !Aims(Decide(s, r).effect, id, s.entries[id])
  {
    hide Trim, ParseKind;
  }

  lemma UnaimedStays(s: Sheet, effect: Effect, id: EntryId)
    requires Inv(s) && id in s.entries && !Aims(effect, id, s.entries[id])
    ensures id in Commit(s, effect).entries && Commit(s, effect).entries[id] == s.entries[id]
  {
    if effect.InsertBooking? {
      BookingHolds(s, effect, id);
    }
    hide WithDays, BookingEntry;
  }

  /** A request changes or removes an entry only if the entry is the actor's own, or of a project
    * that the actor manages.
    */
  lemma OnlyOwnersReach(s: Sheet, r: Request, id: EntryId)
    requires Inv(s) && id in s.entries
    requires id !in Handle(s, r).0.entries || Handle(s, r).0.entries[id] != s.entries[id]
    ensures || s.entries[id].user == r.actor.user
            || (s.entries[id].project.Some? && s.entries[id].project.value in r.actor.manages)
  {
    hide Decide, Commit, Inv;
    if Strange(r.actor, s.entries[id]) {
      StrangersDoNotAim(s, r, id);
      StrangersChangeNothing(s, r, id);
    }
  }

  lemma StrangersChangeNothing(s: Sheet, r: Request, id: EntryId)
    requires Inv(s) && id in s.entries && Strange(r.actor, s.entries[id])
    ensures id in Handle(s, r).0.entries && Handle(s, r).0.entries[id] == s.entries[id]
  {
    hide Decide, Commit, Inv, Aims, Strange;
    StrangersDoNotAim(s, r, id);
    if Decide(s, r).Decided? {
      UnaimedStays(s, Decide(s, r).effect, id);
    }
  }

  /** Over any run of requests by strangers to it, one at a time, an entry stays as it is. */
  lemma {:induction false} StrangersLeaveEntry(s: Sheet, requests: seq<Request>, id: EntryId)
    requires Inv(s) && id in s.entries && forall r <- requests :: Strange(r.actor, s.entries[id])
    ensures var t := HandleAll(s, requests); Inv(t) && id in t.entries && t.entries[id] == s.entries[id]
  {
    if requests != [] {
      hide Handle, Inv, Strange;
      var n := |requests| - 1;
      assert requests[n] in requests;
      StrangersLeaveEntry(s, requests[..n], id);
      HandleKeepsInv(HandleAll(s, requests[..n]), requests[n]);
      StrangersChangeNothing(HandleAll(s, requests[..n]), requests[n], id);
    }
  }

  ghost predicate NoneAims(v: Server, id: EntryId, x: Entry) {
    forall e <- v.pending :: !Aims(e, id, x)
  }

  lemma StrangeStep(v: Server, a: Action, id: EntryId)
    requires ServerOk(v) && id in v.sheet.entries && NoneAims(v, id, v.sheet.entries[id])
    requires a.Arrive? ==> Strange(a.request.actor, v.sheet.entries[id])
    ensures var w := Serve(v, a);
            && ServerOk(w) && id in w.sheet.entries && w.sheet.entries[id] == v.sheet.entries[id]
            && NoneAims(w, id, v.sheet.entries[id])
  {
    ServeKeepsOk(v, a);
    hide Decide, Commit, Inv, Aims, Strange, EffectOk;
    match a
    case Arrive(r) =>
      StrangersDoNotAim(v.sheet, r, id);
      ArrivalIs(v, r);
    case Finish(k) =>
      if k < |v.pending| {
        FinishIs(v, k);
        assert v.pending[k] in v.pending;
        UnaimedStays(v.sheet, v.pending[k], id);
      }
  }

  /** In any interleaving too, once no write that aims at the entry is pending. */
  lemma {:induction false} StrangersLeaveEntryServed(v: Server, acts: seq<Action>, id: EntryId)
    requires ServerOk(v) && id in v.sheet.entries && NoneAims(v, id, v.sheet.entries[id])
    requires forall a <- acts :: a.Arrive? ==> Strange(a.request.actor, v.sheet.entries[id])
    ensures var w := ServeAll(v, acts);
            && ServerOk(w) && id in w.sheet.entries && w.sheet.entries[id] == v.sheet.entries[id]
            && NoneAims(w, id, v.sheet.entries[id])
  {
    if acts != [] {
      hide Serve, ServerOk, NoneAims, Strange;
      var n := |acts| - 1;
      assert acts[n] in acts;
      StrangersLeaveEntryServed(v, acts[..n], id);
      StrangeStep(ServeAll(v, acts[..n]), acts[n], id);
    }
  }
}
