/** The timesheet export, and a reader for section 2 of RFC 4180 with LF line ends. */
module Csv {
  import opened Text

  // --- printing --------------------------------------------------------------

  predicate Special(c: char) {
    c in {',', '"', '\n', '\r'}
  }

  predicate NeedsQuotes(s: string) {
    exists c <- s :: Special(c)
  }

  // `s.replace('"', "\"\"")`
  function DoubleQuotes(s: string): string {
    if s == "" then "" else (if s[0] == '"' then "\"\"" else [s[0]]) + DoubleQuotes(s[1..])
  }

  function CsvField(s: string): string {
    if NeedsQuotes(s) then "\"" + DoubleQuotes(s) + "\"" else s
  }

  // A field is quoted exactly if it holds a comma, a quote or a line end.
  lemma QuotedIff(s: string)
    ensures CsvField(s) != s <==> ',' in s || '"' in s || '\n' in s || '\r' in s
    ensures CsvField(s) != s ==> CsvField(s) == "\"" + DoubleQuotes(s) + "\""
  {
    LongerQuoted(s);
    hide DoubleQuotes;
  }

  lemma {:induction false} LongerQuoted(s: string)
    ensures |DoubleQuotes(s)| >= |s|
  {
    if s != "" { LongerQuoted(s[1..]); }
  }

  // The fields of one line, each already printed.
  function Printed(fields: seq<string>): (r: seq<string>)
    ensures |r| == |fields| && forall i :: 0 <= i < |fields| ==> r[i] == CsvField(fields[i])
  {
    seq(|fields|, i requires 0 <= i < |fields| => CsvField(fields[i]))
  }

  function RecordText(fields: seq<string>): string {
    Join(Printed(fields), ",") + "\n"
  }

  function FileText(records: seq<seq<string>>): string {
    if records == [] then "" else RecordText(records[0]) + FileText(records[1..])
  }

  // --- reading ---------------------------------------------------------------

  // The rest of a quoted field, and what follows its closing quote.
  function ReadQuoted(s: string): (r: Option<(string, string)>)
    ensures r.Some? ==> |r.value.1| < |s|
    decreases |s|
  {
    if s == "" then None
    else if s[0] != '"' then
      match ReadQuoted(s[1..])
      case None => None
      case Some((f, rest)) => Some(([s[0]] + f, rest))
    else if |s| > 1 && s[1] == '"' then
      match ReadQuoted(s[2..])
      case None => None
      case Some((f, rest)) => Some((['"'] + f, rest))
    else Some(("", s[1..]))
  }

  // A bare field ends before a comma, a line end or the end of the text.
  function ReadBare(s: string): (r: Option<(string, string)>)
    ensures r.Some? ==> |r.value.1| <= |s|
    decreases |s|
  {
    if s == "" || s[0] == ',' || s[0] == '\n' then Some(("", s))
    else if Special(s[0]) then None
    else match ReadBare(s[1..])
      case None => None
      case Some((f, rest)) => Some(([s[0]] + f, rest))
  }

  function ReadField(s: string): (r: Option<(string, string)>)
    ensures r.Some? ==> |r.value.1| <= |s|
  {
    if s != "" && s[0] == '"' then ReadQuoted(s[1..]) else ReadBare(s)
  }

  function ReadRecord(s: string): (r: Option<(seq<string>, string)>)
    ensures r.Some? ==> |r.value.1| <= |s| && (s != "" ==> |r.value.1| < |s|)
    decreases |s|
  {
    match ReadField(s)
    case None => None
    case Some((f, rest)) =>
      if rest == "" then Some(([f], ""))
      else if rest[0] == '\n' then Some(([f], rest[1..]))
      else if rest[0] != ',' then None
      else match ReadRecord(rest[1..])
        case None => None
        case Some((fs, after)) => Some(([f] + fs, after))
  }

  function ReadFile(s: string): Option<seq<seq<string>>>
    decreases |s|
  {
    if s == "" then Some([]) else
    match ReadRecord(s)
    case None => None
    case Some((record, rest)) =>
      match ReadFile(rest) case None => None case Some(more) => Some([record] + more)
  }

  // --- reading what was printed ----------------------------------------------

  lemma {:induction false} QuotedReads(f: string, rest: string)
    requires rest == "" || rest[0] != '"'
    ensures ReadQuoted(DoubleQuotes(f) + "\"" + rest) == Some((f, rest))
  {
    var s := DoubleQuotes(f) + "\"" + rest;
    if f == "" {
      assert s[1..] == rest;
    } else {
      QuotedReads(f[1..], rest);
      var tail := DoubleQuotes(f[1..]) + "\"" + rest;
      assert f == [f[0]] + f[1..];
      if f[0] == '"' {
        assert s == "\"\"" + tail && s[2..] == tail;
      } else {
        assert s == [f[0]] + tail && s[1..] == tail;
      }
    }
  }

  lemma {:induction false} BareReads(f: string, rest: string)
    requires !NeedsQuotes(f) && (rest == "" || rest[0] == ',' || rest[0] == '\n')
    ensures ReadBare(f + rest) == Some((f, rest))
  {
    if f == "" {
      assert f + rest == rest;
    } else {
      assert !Special(f[0]) && !NeedsQuotes(f[1..]);
      BareReads(f[1..], rest);
      assert (f + rest)[1..] == f[1..] + rest;
      assert f == [f[0]] + f[1..];
    }
  }

  lemma QuotedFieldReads(f: string, rest: string)
    requires rest == "" || rest[0] != '"'
    ensures ReadField("\"" + DoubleQuotes(f) + "\"" + rest) == Some((f, rest))
  {
    hide DoubleQuotes, ReadQuoted, ReadBare;
    QuotedReads(f, rest);
    var s := "\"" + DoubleQuotes(f) + "\"" + rest;
    assert s[0] == '"' && s[1..] == DoubleQuotes(f) + "\"" + rest;
  }

  lemma BareStartsBare(f: string, rest: string)
    requires !NeedsQuotes(f) && (rest == "" || rest[0] == ',' || rest[0] == '\n')
    ensures f + rest == "" || (f + rest)[0] != '"'
  {
    if f != "" {
      assert f[0] in f;
    }
  }

  lemma BareFieldReads(f: string, rest: string)
    requires !NeedsQuotes(f) && (rest == "" || rest[0] == ',' || rest[0] == '\n')
    ensures ReadField(f + rest) == Some((f, rest))
  {
    hide ReadQuoted, ReadBare, NeedsQuotes;
    BareReads(f, rest);
    BareStartsBare(f, rest);
  }

  lemma FieldReads(f: string, rest: string)
    requires rest == "" || rest[0] == ',' || rest[0] == '\n'
    ensures ReadField(CsvField(f) + rest) == Some((f, rest))
  {
    hide ReadField, NeedsQuotes, DoubleQuotes;
    if NeedsQuotes(f) {
      QuotedFieldReads(f, rest);
    } else {
      BareFieldReads(f, rest);
    }
  }

  lemma {:induction false} RecordReads(fields: seq<string>, rest: string)
    requires fields != []
    ensures ReadRecord(RecordText(fields) + rest) == Some((fields, rest))
    decreases |fields|
  {
    hide ReadField, CsvField;
    var s := RecordText(fields) + rest;
    if |fields| == 1 {
      assert s == CsvField(fields[0]) + ("\n" + rest);
      FieldReads(fields[0], "\n" + rest);
      assert ("\n" + rest)[1..] == rest;
      assert fields == [fields[0]];
    } else {
      var more := RecordText(fields[1..]) + rest;
      RecordReads(fields[1..], rest);
      assert Printed(fields)[1..] == Printed(fields[1..]);
      assert s == CsvField(fields[0]) + ("," + more);
      FieldReads(fields[0], "," + more);
      assert ("," + more)[1..] == more;
      assert fields == [fields[0]] + fields[1..];
    }
  }

  /** Printing is unambiguous: the reader gives back every record, field for field. */
  lemma {:induction false} FileReads(records: seq<seq<string>>)
    requires forall r <- records :: r != []
    ensures ReadFile(FileText(records)) == Some(records)
  {
    if records != [] {
      hide ReadRecord, RecordText;
      assert records[0] in records && forall r <- records[1..] :: r in records;
      FileReads(records[1..]);
      RecordReads(records[0], FileText(records[1..]));
      RecordTextNotEmpty(records[0]);
      assert records == [records[0]] + records[1..];
    }
  }

  lemma RecordTextNotEmpty(fields: seq<string>)
    ensures RecordText(fields) != ""
  {
  }

  lemma PrintingIsInjective(a: seq<seq<string>>, b: seq<seq<string>>)
    requires forall r <- a :: r != []
    requires forall r <- b :: r != []
    requires FileText(a) == FileText(b)
    ensures a == b
  {
    FileReads(a);
    FileReads(b);
  }

  // --- the export ------------------------------------------------------------

  datatype TimeEntry = TimeEntry(
    date: string, kind: string, minutes: nat, note: string, fullName: Option<string>,
    projectName: Option<string>, issueRef: Option<nat>, issueSubject: Option<string>)

  // Worked hours in hundredths, to the nearest; minutes are never halfway between two.
  function HundredthHours(minutes: nat): (h: nat)
    ensures 3 * h - 5 * minutes <= 1 && 5 * minutes - 3 * h <= 1
  {
    (10 * minutes + 3) / 6
  }

  function TwoDigits(n: nat): string
    requires n < 100
  {
    [DIGITS[n / 10], DIGITS[n % 10]]
  }

  // `{:.2}` of the hours.
  function HoursText(minutes: nat): string {
    var h := HundredthHours(minutes);
    Decimal(h / 100) + "." + TwoDigits(h % 100)
  }

  function OrEmpty(s: Option<string>): string {
    if s.Some? then s.value else ""
  }

  function Header(withUser: bool): seq<string> {
    ["Date"] + (if withUser then ["User"] else [])
    + ["Kind", "Project", "Task", "Subject", "Minutes", "Hours", "Note"]
  }

  function Comma(a: string, b: string): string {
    a + "," + b
  }

  // The fixed first line.
  function HeaderLine(withUser: bool): string {
    var common :=
      Comma("Kind", Comma("Project", Comma("Task", Comma("Subject", Comma("Minutes", Comma("Hours", "Note"))))));
    Comma("Date", if withUser then Comma("User", common) else common) + "\n"
  }

  function TaskText(e: TimeEntry): string {
    if e.issueRef.Some? then "#" + Decimal(e.issueRef.value) else ""
  }

  // The record of an entry, as its reader is to see it.
  function Record(e: TimeEntry, withUser: bool): seq<string> {
    [e.date] + (if withUser then [OrEmpty(e.fullName)] else [])
    + [e.kind, OrEmpty(e.projectName), TaskText(e), OrEmpty(e.issueSubject),
       Decimal(e.minutes), HoursText(e.minutes), e.note]
  }

  // --- what stands in which column -------------------------------------------

  // The field shows the hours to the nearest hundredth, with two digits after the point.
  ghost predicate ShowsHours(field: string, minutes: nat) {
    exists whole: string, d: char, d': char, h: nat ::
      IsHundredths(field, whole, d, d', h) && 3 * h - 5 * minutes <= 1 && 5 * minutes - 3 * h <= 1
  }

  predicate IsHundredths(field: string, whole: string, d: char, d': char, h: nat) {
    && field == whole + "." + [d, d'] && IsDigit(d) && IsDigit(d') && ShowsNumber(whole, h / 100)
    && h % 100 == 10 * DigitValue(d) + DigitValue(d')
  }

  // The field shows the number in decimal.
  predicate ShowsNumber(field: string, n: nat) {
    field != "" && (forall i :: 0 <= i < |field| ==> IsDigit(field[i])) && Denotes(field) == n
  }

  // What the column of that name holds of the entry.
  ghost predicate Holds(name: string, field: string, e: TimeEntry) {
    && (name == "Date" ==> field == e.date)
    && (name == "User" ==> field == if e.fullName.Some? then e.fullName.value else "")
    && (name == "Kind" ==> field == e.kind)
    && (name == "Project" ==> field == if e.projectName.Some? then e.projectName.value else "")
    && (name == "Task" ==> if e.issueRef.None? then field == "" else
                             field != "" && field[0] == '#' && ShowsNumber(field[1..], e.issueRef.value))
    && (name == "Subject" ==> field == if e.issueSubject.Some? then e.issueSubject.value else "")
    && (name == "Minutes" ==> ShowsNumber(field, e.minutes))
    && (name == "Hours" ==> ShowsHours(field, e.minutes))
    && (name == "Note" ==> field == e.note)
  }

  // The names of the columns, for a single user's export and for a project's.
  function Columns(withUser: bool): seq<string> {
    if withUser then ["Date", "User", "Kind", "Project", "Task", "Subject", "Minutes", "Hours", "Note"]
    else ["Date", "Kind", "Project", "Task", "Subject", "Minutes", "Hours", "Note"]
  }

  // The row has one field a column, each holding what its name says.
  ghost predicate RowHolds(columns: seq<string>, row: seq<string>, e: TimeEntry) {
    |row| == |columns| && forall k :: 0 <= k < |columns| ==> Holds(columns[k], row[k], e)
  }

  lemma HoursShown(minutes: nat)
    ensures ShowsHours(HoursText(minutes), minutes)
  {
    hide ShowsNumber, Decimal, HundredthHours;
    var h := HundredthHours(minutes);
    var (k, k') := (h % 100 / 10, h % 100 % 10);
    DigitIs(k);
    DigitIs(k');
    NumberShown(h / 100);
    assert h % 100 == 10 * k + k';
    assert IsHundredths(HoursText(minutes), Decimal(h / 100), DIGITS[k], DIGITS[k'], h);
  }

  lemma DigitIs(k: nat)
    requires k < 10
    ensures IsDigit(DIGITS[k]) && DigitValue(DIGITS[k]) == k
  {
  }

  lemma NumberShown(n: nat)
    ensures ShowsNumber(Decimal(n), n)
  {
    DecimalDenotes(n);
  }

  lemma TaskShown(e: TimeEntry)
    ensures if e.issueRef.None? then TaskText(e) == "" else
              TaskText(e) != "" && TaskText(e)[0] == '#' && ShowsNumber(TaskText(e)[1..], e.issueRef.value)
  {
    if e.issueRef.Some? {
      NumberShown(e.issueRef.value);
      hide ShowsNumber;
      assert TaskText(e)[1..] == Decimal(e.issueRef.value);
    }
  }

  lemma RecordHolds(e: TimeEntry, withUser: bool)
    ensures Header(withUser) == Columns(withUser)
    ensures RowHolds(Columns(withUser), Record(e, withUser), e)
  {
    if withUser { UserRecordHolds(e); } else { PlainRecordHolds(e); }
  }

  lemma UserRecordHolds(e: TimeEntry)
    ensures Header(true) == Columns(true) && RowHolds(Columns(true), Record(e, true), e)
  {
    hide HoursText, Decimal, TaskText, ShowsHours, ShowsNumber;
    HoursShown(e.minutes);
    NumberShown(e.minutes);
    TaskShown(e);
    assert Record(e, true)
           == [e.date, OrEmpty(e.fullName), e.kind, OrEmpty(e.projectName), TaskText(e), OrEmpty(e.issueSubject),
               Decimal(e.minutes), HoursText(e.minutes), e.note];
  }

  lemma PlainRecordHolds(e: TimeEntry)
    ensures Header(false) == Columns(false) && RowHolds(Columns(false), Record(e, false), e)
  {
    hide HoursText, Decimal, TaskText, ShowsHours, ShowsNumber;
    HoursShown(e.minutes);
    NumberShown(e.minutes);
    TaskShown(e);
    assert Record(e, false)
           == [e.date, e.kind, OrEmpty(e.projectName), TaskText(e), OrEmpty(e.issueSubject),
               Decimal(e.minutes), HoursText(e.minutes), e.note];
  }

  function Records(entries: seq<TimeEntry>, withUser: bool): seq<seq<string>> {
    if entries == [] then [] else [Record(entries[0], withUser)] + Records(entries[1..], withUser)
  }

  // The first row names the columns, and each further one is its entry's.
  ghost predicate TableHolds(table: seq<seq<string>>, entries: seq<TimeEntry>, withUser: bool) {
    && |table| == |entries| + 1 && table[0] == Columns(withUser)
    && forall i :: 0 <= i < |entries| ==> RowHolds(Columns(withUser), table[i + 1], entries[i])
  }

  lemma {:induction false} RecordsHold(entries: seq<TimeEntry>, withUser: bool)
    ensures var rows := Records(entries, withUser);
            |rows| == |entries|
            && forall i :: 0 <= i < |entries| ==> RowHolds(Columns(withUser), rows[i], entries[i])
  {
    hide RowHolds, Record, Columns;
    if entries != [] {
      RecordHolds(entries[0], withUser);
      RecordsHold(entries[1..], withUser);
    }
  }

  lemma TableTells(entries: seq<TimeEntry>, withUser: bool)
    ensures TableHolds([Header(withUser)] + Records(entries, withUser), entries, withUser)
  {
    hide RowHolds, Record, Records, Columns, Header;
    RecordHolds(TimeEntry("", "", 0, "", None, None, None, None), withUser);
    RecordsHold(entries, withUser);
  }

  predicate Plain(s: string) {
    forall i :: 0 <= i < |s| ==> !Special(s[i])
  }

  lemma PlainNeedsNoQuotes(s: string)
    requires Plain(s)
    ensures CsvField(s) == s
  {
  }

  lemma DecimalIsPlain(n: nat)
    ensures Plain(Decimal(n))
  {
    hide Decimal;
  }

  lemma TwoDigitsArePlain(n: nat)
    requires n < 100
    ensures Plain("." + TwoDigits(n))
  {
    assert forall d :: 0 <= d < 10 ==> !Special(DIGITS[d]);
  }

  lemma DigitsNeedNoQuotes(minutes: nat)
    ensures CsvField(Decimal(minutes)) == Decimal(minutes)
    ensures CsvField(HoursText(minutes)) == HoursText(minutes)
  {
    var h := HundredthHours(minutes);
    DecimalIsPlain(minutes);
    DecimalIsPlain(h / 100);
    TwoDigitsArePlain(h % 100);
    hide Decimal, CsvField, TwoDigits, HundredthHours, Special;
    PlainNeedsNoQuotes(Decimal(minutes));
    assert HoursText(minutes) == Decimal(h / 100) + ("." + TwoDigits(h % 100));
    PlainNeedsNoQuotes(HoursText(minutes));
  }

  lemma {:induction false} RecordsSnoc(entries: seq<TimeEntry>, withUser: bool, n: nat)
    requires n < |entries|
    ensures Records(entries[..n + 1], withUser) == Records(entries[..n], withUser) + [Record(entries[n], withUser)]
  {
    hide Record;
    var some := entries[..n + 1];
    if n == 0 {
      assert some[1..] == [];
    } else {
      assert some[1..] == entries[1..][..n] && entries[..n][1..] == entries[1..][..n - 1];
      RecordsSnoc(entries[1..], withUser, n - 1);
    }
  }

  lemma {:induction false} FileTextSnoc(records: seq<seq<string>>, r: seq<string>)
    ensures FileText(records + [r]) == FileText(records) + RecordText(r)
  {
    hide RecordText;
    if records == [] {
      assert records + [r] == [r] && [r][1..] == [];
    } else {
      assert (records + [r])[1..] == records[1..] + [r];
      FileTextSnoc(records[1..], r);
    }
  }

  lemma {:induction false} RecordsNotEmpty(entries: seq<TimeEntry>, withUser: bool)
    ensures forall r <- Records(entries, withUser) :: r != []
  {
    if entries != [] {
      RecordsNotEmpty(entries[1..], withUser);
    }
  }

  // `names` are printed bare, as `text`.
  ghost predicate PrintsAs(names: seq<string>, text: string) {
    names != [] && Printed(names) == names && Join(names, ",") == text
  }

  lemma PrintsMore(name: string, names: seq<string>, text: string)
    requires PrintsAs(names, text) && Plain(name)
    ensures PrintsAs([name] + names, Comma(name, text))
  {
    PlainNeedsNoQuotes(name);
    assert ([name] + names)[1..] == names;
    hide CsvField;
    assert Printed([name] + names) == [name] + Printed(names);
  }

  lemma PrintsOne(name: string)
    requires Plain(name)
    ensures PrintsAs([name], name)
  {
    PlainNeedsNoQuotes(name);
  }

  lemma NamesArePlain()
    ensures Plain("Date") && Plain("User") && Plain("Kind") && Plain("Project") && Plain("Task")
    ensures Plain("Subject") && Plain("Minutes") && Plain("Hours") && Plain("Note")
  {
  }

  // The header line is the printed header.
  lemma HeaderPrints(withUser: bool)
    ensures RecordText(Header(withUser)) == HeaderLine(withUser)
  {
    NamesArePlain();
    hide PrintsAs, Comma, Plain, RecordText;
    var names, text := ["Note"], "Note";
    PrintsOne("Note");
    PrintsMore("Hours", names, text);
    names, text := ["Hours"] + names, Comma("Hours", text);
    PrintsMore("Minutes", names, text);
    names, text := ["Minutes"] + names, Comma("Minutes", text);
    PrintsMore("Subject", names, text);
    names, text := ["Subject"] + names, Comma("Subject", text);
    PrintsMore("Task", names, text);
    names, text := ["Task"] + names, Comma("Task", text);
    PrintsMore("Project", names, text);
    names, text := ["Project"] + names, Comma("Project", text);
    PrintsMore("Kind", names, text);
    names, text := ["Kind"] + names, Comma("Kind", text);
    if withUser {
      PrintsMore("User", names, text);
      names, text := ["User"] + names, Comma("User", text);
    }
    PrintsMore("Date", names, text);
    names, text := ["Date"] + names, Comma("Date", text);
    assert names == Header(withUser);
    TextOf(names, text);
  }

  lemma TextOf(names: seq<string>, text: string)
    requires PrintsAs(names, text)
    ensures RecordText(names) == text + "\n"
  {
  }

  /** The export of any entries, whatever their texts hold, reads back as the header and exactly
    * one record per entry.
    */
  method BuildCsv(entries: seq<TimeEntry>, withUser: bool) returns (out: string)
    ensures out == FileText([Header(withUser)] + Records(entries, withUser))
    ensures ReadFile(out) == Some([Header(withUser)] + Records(entries, withUser))
    ensures TableHolds(ReadFile(out).value, entries, withUser)
  {
    hide Records, FileText, ReadFile, CsvField, RecordText, Header, HeaderLine, HoursText, Decimal, Join, OrEmpty,
      TaskText, TableHolds;
    TableTells(entries, withUser);
    out := HeaderLine(withUser);
    ghost var head := [Header(withUser)];
    assert out == FileText(head + Records(entries[..0], withUser)) by {
      StartsWithHeader(entries, withUser);
    }
    for i := 0 to |entries|
      invariant out == FileText(head + Records(entries[..i], withUser))
    {
      var e := entries[i];
      var row := [CsvField(e.date)];
      if withUser {
        row := row + [CsvField(OrEmpty(e.fullName))];
      }
      row := row + [CsvField(e.kind)];
      row := row + [CsvField(OrEmpty(e.projectName))];
      row := row + [CsvField(TaskText(e))];
      row := row + [CsvField(OrEmpty(e.issueSubject))];
      row := row + [Decimal(e.minutes)];
      row := row + [HoursText(e.minutes)];
      row := row + [CsvField(e.note)];
      DigitsNeedNoQuotes(e.minutes);
      assert row == Printed(Record(e, withUser));
      RecordTextIs(Record(e, withUser), row);
      RecordsSnoc(entries, withUser, i);
      FileTextSnoc(head + Records(entries[..i], withUser), Record(e, withUser));
      assert head + Records(entries[..i + 1], withUser)
             == head + Records(entries[..i], withUser) + [Record(e, withUser)];
      out := out + Join(row, ",");
      out := out + "\n";
    }
    assert entries[..|entries|] == entries;
    ExportReads(entries, withUser);
  }

  lemma RecordTextIs(fields: seq<string>, row: seq<string>)
    requires row == Printed(fields)
    ensures RecordText(fields) == Join(row, ",") + "\n"
  {
  }

  lemma StartsWithHeader(entries: seq<TimeEntry>, withUser: bool)
    ensures HeaderLine(withUser) == FileText([Header(withUser)] + Records(entries[..0], withUser))
  {
    HeaderPrints(withUser);
    assert [Header(withUser)] + Records(entries[..0], withUser) == [Header(withUser)];
    FileTextSnoc([], Header(withUser));
    assert [] + [Header(withUser)] == [Header(withUser)];
  }

  lemma ExportReads(entries: seq<TimeEntry>, withUser: bool)
    ensures var records := [Header(withUser)] + Records(entries, withUser);
            ReadFile(FileText(records)) == Some(records)
  {
    RecordsNotEmpty(entries, withUser);
    FileReads([Header(withUser)] + Records(entries, withUser));
  }
}
