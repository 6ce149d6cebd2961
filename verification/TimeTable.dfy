/** The time entries and locks as an object: the handlers on stored rows. */
module TimeTables {
  import opened Text
  import opened Timesheet
  import opened TimesheetAnswers

  lemma NumberedBefore(s: Sheet)
    requires Inv(s)
    ensures forall k <- s.entries :: k < s.next
  {
  }

  lemma NoDays(entries: map<EntryId, Entry>, first: nat, days: seq<Date>, x: Entry)
    ensures WithDays(entries, first, days[..0], x) == entries
  {
  }

  lemma OneMoreDay(entries: map<EntryId, Entry>, first: nat, days: seq<Date>, i: nat, x: Entry)
    requires i < |days|
    ensures WithDays(entries, first, days[..i + 1], x)
            == WithDays(entries, first, days[..i], x)[first + i := x.(date := days[i])]
  {
    assert days[..i + 1][..i] == days[..i];
  }

  class TimeTable {
    var entries: map<EntryId, Entry>
    var next: nat
    var locks: set<Period>
    const issues: map<IssueId, Issue>

    function View(): Sheet
      reads this
    {
      Sheet(entries, next, locks, issues)
    }

    constructor (issues: map<IssueId, Issue>)
      ensures View() == Sheet(map[], 0, {}, issues) && Inv(View())
    {
      this.issues := issues;
      entries, next, locks := map[], 0, {};
    }

    method LogMyTime(r: Request) returns (reply: Reply)
      requires r.LogMine? && Inv(View())
      modifies this
      ensures (View(), reply) == Handle(old(View()), r)
      ensures Inv(View()) && FrozenFor(old(View()), View(), r.actor)
      ensures reply != Done ==> View() == old(View())
      ensures reply == Done ==>
                && SameBut(old(entries), entries, old(next)) && old(next) in entries && next == old(next) + 1
                && var x := entries[old(next)];
                && x.user == r.actor.user && x.date == r.date && x.minutes == r.minutes && x.version == 1
                && (x.kind == Meeting <==> r.kindName == Some("meeting"))
                && (x.kind == Work <==> r.kindName == None || r.kindName == Some("work"))
    {
      hide Inv, FrozenFor, Trim, NoteOr, ParseKind, Handle, Commit, SameBut;
      HandleIsFrozenFor(View(), r);
      LogAnswers(View(), r);
      HandleLog(View(), r);
      var kind := ParseKind(NoteOr(r.kindName, "work"));
      if kind != Some(Work) && kind != Some(Meeting) {
        return Unprocessable;
      }
      var note := Trim(NoteOr(r.note, ""));
      var issue := if kind == Some(Work) then r.issue else None;
      var project := r.project;
      if issue.Some? {
        if issue.value !in issues || issues[issue.value].deleted {
          return Unprocessable;
        }
        project := Some(issues[issue.value].project);
      }
      if kind == Some(Work) && (project.None? || (issue.None? && note == "")) {
        return Unprocessable;
      }
      if project.Some? {
        if project.value !in r.actor.logs {
          return Forbidden;
        }
        if Locked(View(), project.value, r.date) && project.value !in r.actor.manages {
          return PeriodLocked;
        }
      }
      InsertCommits(View(), Entry(r.actor.user, kind.value, project, issue, r.date, r.minutes, note, None, 1));
      entries := entries[next := Entry(r.actor.user, kind.value, project, issue, r.date, r.minutes, note, None, 1)];
      next := next + 1;
      reply := Done;
    }

    method UpdateMyEntry(r: Request) returns (reply: Reply)
      requires r.UpdateMine? && Inv(View())
      modifies this
      ensures (View(), reply) == Handle(old(View()), r)
      ensures Inv(View()) && FrozenFor(old(View()), View(), r.actor)
      ensures reply != Done ==> View() == old(View())
      ensures reply == Done ==>
                && SameBut(old(entries), entries, r.id) && r.id in old(entries) && r.id in entries
                && var x := old(entries)[r.id];
                && x.user == r.actor.user && x.version == r.version
                && IsUpdateOf(entries[r.id], x, r.minutes, if r.note.Some? then r.note.value else x.note,
                              if r.newDate.Some? then r.newDate.value else x.date)
    {
      hide Inv, FrozenFor, SameBut, IsUpdateOf;
      HandleIsFrozenFor(View(), r);
      UpdateAnswers(View(), r);
      if r.id !in entries || entries[r.id].user != r.actor.user {
        return NotFound;
      }
      var entry := entries[r.id];
      if !GuardPasses(View(), r.actor, entry.project, entry.date) {
        return PeriodLocked;
      }
      if r.newDate.Some? && r.newDate.value != entry.date
         && !GuardPasses(View(), r.actor, entry.project, r.newDate.value)
      {
        return PeriodLocked;
      }
      if entry.version != r.version {
        return Stale;
      }
      var note := if r.note.Some? then r.note.value else entry.note;
      var date := if r.newDate.Some? then r.newDate.value else entry.date;
      entries := entries[
        r.id := entry.(minutes := r.minutes, note := note, date := date, version := entry.version + 1)];
      reply := Done;
    }

    method DeleteMyEntry(r: Request) returns (reply: Reply)
      requires r.DeleteMine? && Inv(View())
      modifies this
      ensures (View(), reply) == Handle(old(View()), r)
      ensures Inv(View()) && FrozenFor(old(View()), View(), r.actor)
      ensures reply != Done ==> View() == old(View())
      ensures reply == Done ==>
                && r.id in old(entries) && old(entries)[r.id].user == r.actor.user
                && r.id !in entries && SameBut(old(entries), entries, r.id)
    {
      hide Inv, FrozenFor, SameBut;
      HandleIsFrozenFor(View(), r);
      DeleteAnswers(View(), r);
      if r.id !in entries || entries[r.id].user != r.actor.user {
        return NotFound;
      }
      if !GuardPasses(View(), r.actor, entries[r.id].project, entries[r.id].date) {
        return PeriodLocked;
      }
      entries := entries - {r.id};
      reply := Done;
    }

    // One entry a day, all of one booking.
    method BookAbsenceDays(r: Request) returns (reply: Reply)
      requires r.BookAbsence? && Inv(View())
      modifies this
      ensures (View(), reply) == Handle(old(View()), r)
      ensures Inv(View()) && FrozenFor(old(View()), View(), r.actor)
      ensures reply != Done ==> View() == old(View())
      ensures reply == Done ==> forall i | 0 <= i < |r.days| :: DayEntered(entries, old(next), r, i)
      ensures forall k <- old(entries) :: k in entries && entries[k] == old(entries)[k]
    {
      hide Inv, FrozenFor, Handle, ParseKind, NoteOr, DayEntered;
      HandleIsFrozenFor(View(), r);
      BookAnswers(View(), r);
      NumberedBefore(View());
      HandleBook(View(), r);
      var kind := ParseKind(r.absence);
      if kind.None? || kind == Some(Work) || kind == Some(Meeting) {
        return Unprocessable;
      }
      hide WithDays;
      var booking := next;
      var entry :=
        Entry(r.actor.user, kind.value, None, None, Date(0, 0, 0), r.minutes, NoteOr(r.note, ""), Some(booking), 1);
      next := next + 1;
      NoDays(entries, booking + 1, r.days, entry);
      for i := 0 to |r.days|
        invariant next == booking + 1 + i && locks == old(locks)
        invariant entries == WithDays(old(entries), booking + 1, r.days[..i], entry)
      {
        OneMoreDay(old(entries), booking + 1, r.days, i, entry);
        entries := entries[next := entry.(date := r.days[i])];
        next := next + 1;
      }
      assert r.days[..|r.days|] == r.days;
      reply := Done;
    }

    method SetLock(r: Request) returns (reply: Reply)
      requires (r.LockPeriod? || r.UnlockPeriod?) && Inv(View())
      modifies this
      ensures (View(), reply) == Handle(old(View()), r)
      ensures Inv(View()) && FrozenFor(old(View()), View(), r.actor)
      ensures entries == old(entries)
      ensures locks != old(locks) ==> r.period.project in r.actor.manages
      ensures reply == Done ==> (r.period in locks <==> r.LockPeriod?)
      ensures forall p: Period :: p != r.period ==> (p in locks <==> p in old(locks))
    {
      hide Inv, FrozenFor;
      HandleIsFrozenFor(View(), r);
      if r.period.project !in r.actor.manages {
        return Forbidden;
      }
      reply := if r.LockPeriod? || r.period in locks then Done else NotFound;
      locks := if r.LockPeriod? then locks + {r.period} else locks - {r.period};
    }
  }
}
