/** Importing issues: creating a row's issue or epic in a first pass, and resolving the rows'
  * references to each other in a second.
  */
module ImportLinks {
  import opened Text

  type Uuid = nat

  // `made` is the entity that creating the row gave, if that succeeded.
  datatype Row = Row(
    externalId: string, externalKey: string, typeName: string, subject: string,
    parentRef: string, epicRef: string, made: Option<Uuid>)

  // The second pass's update of an issue.
  datatype Link = Link(issue: Uuid, parent: Option<Uuid>, epic: Option<Uuid>)

  function Lower(c: char): char {
    if 'A' <= c <= 'Z' then (c as int - 'A' as int + 'a' as int) as char else c
  }

  // `eq_ignore_ascii_case("epic")`
  predicate IsEpic(row: Row) {
    |row.typeName| == 4 && forall i :: 0 <= i < 4 ==> Lower(row.typeName[i]) == "epic"[i]
  }

  // Just the type names `epic`, in any case, make epics.
  lemma IsEpicIff(row: Row)
    ensures IsEpic(row)
            <==> && |row.typeName| == 4
                 && row.typeName[0] in {'e', 'E'} && row.typeName[1] in {'p', 'P'}
                 && row.typeName[2] in {'i', 'I'} && row.typeName[3] in {'c', 'C'}
  {
  }

  // --- what a reference means ------------------------------------------------

  // The four maps of the first pass: issues or epics, by id or by key.
  datatype Index = Index(epics: bool, keys: bool)

  const ISSUE_BY_ID := Index(false, false)
  const ISSUE_BY_KEY := Index(false, true)
  const EPIC_BY_ID := Index(true, false)
  const EPIC_BY_KEY := Index(true, true)

  function Label(row: Row, index: Index): string {
    if index.keys then row.externalKey else row.externalId
  }

  // Is the row entered in the index under `ref`?
  predicate Matches(row: Row, index: Index, ref: string) {
    row.made.Some? && IsEpic(row) == index.epics && ref != "" && Label(row, index) == ref
  }

  // The last row entered under `ref`.
  function Find(rows: seq<Row>, index: Index, ref: string): Option<Uuid> {
    if rows == [] then None else
    var n := |rows| - 1;
    if Matches(rows[n], index, ref) then rows[n].made else Find(rows[..n], index, ref)
  }

  function OrElse(a: Option<Uuid>, b: Option<Uuid>): Option<Uuid> {
    if a.Some? then a else b
  }

  function ParentOf(rows: seq<Row>, row: Row): Option<Uuid> {
    OrElse(Find(rows, ISSUE_BY_ID, row.parentRef), Find(rows, ISSUE_BY_KEY, row.parentRef))
  }

  function EpicOf(rows: seq<Row>, row: Row): Option<Uuid> {
    OrElse(Find(rows, EPIC_BY_KEY, row.epicRef), Find(rows, EPIC_BY_ID, row.epicRef))
  }

  function LinksFor(rows: seq<Row>, row: Row): seq<Link> {
    if row.made.None? || IsEpic(row) || (ParentOf(rows, row).None? && EpicOf(rows, row).None?) then []
    else [Link(row.made.value, ParentOf(rows, row), EpicOf(rows, row))]
  }

  // The links of `some` of the rows, resolved among all `rows`.
  function LinksOf(rows: seq<Row>, some: seq<Row>): seq<Link> {
    if some == [] then [] else
    LinksOf(rows, some[..|some| - 1]) + LinksFor(rows, some[|some| - 1])
  }

  lemma {:induction false} FoundMatches(rows: seq<Row>, index: Index, ref: string)
    ensures Find(rows, index, ref).Some? ==>
              exists row <- rows :: Matches(row, index, ref) && row.made == Find(rows, index, ref)
    ensures Find(rows, index, ref).None? ==> forall row <- rows :: !Matches(row, index, ref)
  {
    if rows != [] {
      var n := |rows| - 1;
      assert rows == rows[..n] + [rows[n]];
      FoundMatches(rows[..n], index, ref);
    }
  }

  /** Parent links point only to issues and epic links only to epics of the same import. */
  lemma {:induction false} LinksStayInside(rows: seq<Row>, some: seq<Row>, link: Link)
    requires link in LinksOf(rows, some)
    ensures exists row <- some :: row.made == Some(link.issue) && !IsEpic(row)
    ensures link.parent.Some? ==> exists row <- rows :: row.made == link.parent && !IsEpic(row)
    ensures link.epic.Some? ==> exists row <- rows :: row.made == link.epic && IsEpic(row)
  {
    var n := |some| - 1;
    hide Find, IsEpic;
    if link in LinksFor(rows, some[n]) {
      assert some[n] in some;
      FoundMatches(rows, ISSUE_BY_ID, some[n].parentRef);
      FoundMatches(rows, ISSUE_BY_KEY, some[n].parentRef);
      FoundMatches(rows, EPIC_BY_KEY, some[n].epicRef);
      FoundMatches(rows, EPIC_BY_ID, some[n].epicRef);
    } else {
      LinksStayInside(rows, some[..n], link);
    }
  }

  /** An issue's parent reference means the issue with that id, failing that the one with that
    * key; its epic reference the epic with that key, failing that the one with that id.
    */
  lemma ReferencesMean(rows: seq<Row>, row: Row, x: Row)
    requires Unambiguous(rows) && x in rows
    ensures Matches(x, ISSUE_BY_ID, row.parentRef) ==> ParentOf(rows, row) == x.made
    ensures Matches(x, ISSUE_BY_KEY, row.parentRef) && (forall y <- rows :: !Matches(y, ISSUE_BY_ID, row.parentRef)) ==>
              ParentOf(rows, row) == x.made
    ensures Matches(x, EPIC_BY_KEY, row.epicRef) ==> EpicOf(rows, row) == x.made
    ensures Matches(x, EPIC_BY_ID, row.epicRef) && (forall y <- rows :: !Matches(y, EPIC_BY_KEY, row.epicRef)) ==>
              EpicOf(rows, row) == x.made
  {
    MatchIsFound(rows, x, ISSUE_BY_ID, row.parentRef);
    MatchIsFound(rows, x, ISSUE_BY_KEY, row.parentRef);
    MatchIsFound(rows, x, EPIC_BY_KEY, row.epicRef);
    MatchIsFound(rows, x, EPIC_BY_ID, row.epicRef);
    FoundMatches(rows, ISSUE_BY_ID, row.parentRef);
    FoundMatches(rows, EPIC_BY_KEY, row.epicRef);
    hide Find, Matches, Unambiguous;
  }

  lemma MatchIsFound(rows: seq<Row>, x: Row, index: Index, ref: string)
    requires Unambiguous(rows) && x in rows
    ensures Matches(x, index, ref) ==> x.made.Some? && Find(rows, index, ref) == x.made
  {
    FoundMatches(rows, index, ref);
    hide Find;
  }

  // --- the order of the rows -------------------------------------------------

  // No two entities are entered in one index under the same reference.
  ghost predicate Unambiguous(rows: seq<Row>) {
    forall x <- rows, y <- rows, index: Index, ref: string ::
      Matches(x, index, ref) && Matches(y, index, ref) ==> x.made == y.made
  }

  lemma SameFind(a: seq<Row>, b: seq<Row>, index: Index, ref: string)
    requires multiset(a) == multiset(b) && Unambiguous(a)
    ensures Find(a, index, ref) == Find(b, index, ref)
  {
    FoundMatches(a, index, ref);
    FoundMatches(b, index, ref);
    assert forall x :: x in a <==> x in multiset(a);
    assert forall x :: x in b <==> x in multiset(b);
    hide Matches, Find;
  }

  // `rows` with the `i`-th moved to the end.
  function MovedLast(rows: seq<Row>, i: nat): seq<Row>
    requires i < |rows|
  {
    rows[..i] + rows[i + 1..] + [rows[i]]
  }

  lemma MovedLastPermutes(rows: seq<Row>, i: nat)
    requires i < |rows|
    ensures multiset(MovedLast(rows, i)) == multiset(rows)
    ensures MovedLast(rows, i)[|rows| - 1] == rows[i] && |MovedLast(rows, i)| == |rows|
  {
    assert rows == rows[..i] + ([rows[i]] + rows[i + 1..]);
  }

  ghost predicate OrderIrrelevant(rows: seq<Row>) {
    forall other: seq<Row>, index: Index, ref: string ::
      multiset(other) == multiset(rows) ==> Find(other, index, ref) == Find(rows, index, ref)
  }

  /** Exactly when no reference is ambiguous does the order of the rows not matter, so that a row
    * may refer to a later one as well as to an earlier one.
    */
  lemma OrderIrrelevantIff(rows: seq<Row>)
    ensures OrderIrrelevant(rows) <==> Unambiguous(rows)
  {
    if Unambiguous(rows) {
      forall other: seq<Row>, index: Index, ref: string | multiset(other) == multiset(rows)
        ensures Find(other, index, ref) == Find(rows, index, ref)
      {
        SameFind(rows, other, index, ref);
      }
    } else {
      var x, y, index: Index, ref: string :|
        x in rows && y in rows && Matches(x, index, ref) && Matches(y, index, ref) && x.made != y.made;
      var i :| 0 <= i < |rows| && rows[i] == x;
      var j :| 0 <= j < |rows| && rows[j] == y;
      hide Matches, MovedLast, Unambiguous;
      MovedLastPermutes(rows, i);
      MovedLastPermutes(rows, j);
      assert Find(MovedLast(rows, i), index, ref) == x.made;
      assert Find(MovedLast(rows, j), index, ref) == y.made;
    }
  }

  lemma {:induction false} SameResolver(a: seq<Row>, b: seq<Row>, some: seq<Row>)
    requires multiset(a) == multiset(b) && Unambiguous(a)
    ensures LinksOf(a, some) == LinksOf(b, some)
  {
    if some != [] {
      hide Find, Unambiguous;
      SameResolver(a, b, some[..|some| - 1]);
      var row := some[|some| - 1];
      SameFind(a, b, ISSUE_BY_ID, row.parentRef);
      SameFind(a, b, ISSUE_BY_KEY, row.parentRef);
      SameFind(a, b, EPIC_BY_KEY, row.epicRef);
      SameFind(a, b, EPIC_BY_ID, row.epicRef);
    }
  }

  lemma {:induction false} LinksOfAppend(rows: seq<Row>, x: seq<Row>, y: seq<Row>)
    ensures LinksOf(rows, x + y) == LinksOf(rows, x) + LinksOf(rows, y)
  {
    hide LinksFor;
    if y == [] {
      assert x + y == x;
    } else {
      var n := |y| - 1;
      LinksOfAppend(rows, x, y[..n]);
      assert (x + y)[..|x + y| - 1] == x + y[..n];
    }
  }

  lemma {:induction false} LinksOfPermuted(rows: seq<Row>, x: seq<Row>, y: seq<Row>)
    requires multiset(x) == multiset(y)
    ensures multiset(LinksOf(rows, x)) == multiset(LinksOf(rows, y))
  {
    hide LinksFor, LinksOf;
    assert |multiset(x)| == |x| && |multiset(y)| == |y|;
    if x != [] {
      var n := |x| - 1;
      var last := x[n];
      assert x == x[..n] + [last] && last in multiset(y);
      var k :| 0 <= k < |y| && y[k] == last;
      var (front, back) := (y[..k], y[k + 1..]);
      assert y == front + ([last] + back);
      OneRemoved(x[..n], front, last, back, x, y);
      LinksOfPermuted(rows, x[..n], front + back);
      LinksOfAppend(rows, front, back);
      LinksOfAppend(rows, front, [last] + back);
      LinksOfAppend(rows, [last], back);
      LinksOfAppend(rows, x[..n], [last]);
    }
  }

  lemma OneRemoved(init: seq<Row>, front: seq<Row>, last: Row, back: seq<Row>, x: seq<Row>, y: seq<Row>)
    requires x == init + [last] && y == front + ([last] + back) && multiset(x) == multiset(y)
    ensures multiset(init) == multiset(front + back)
  {
    assert multiset(y) == multiset(front) + multiset{last} + multiset(back);
    assert multiset(x) == multiset(init) + multiset{last};
    assert multiset(init) == multiset(x) - multiset{last};
    assert multiset(front + back) == multiset(y) - multiset{last};
  }

  /** With unambiguous references every permutation of the rows writes the same links. */
  lemma {:induction false} LinksIgnoreOrder(a: seq<Row>, b: seq<Row>)
    requires multiset(a) == multiset(b) && Unambiguous(a)
    ensures multiset(LinksOf(a, a)) == multiset(LinksOf(b, b))
  {
    SameResolver(a, b, a);
    LinksOfPermuted(b, a, b);
  }

  // --- no cycle check --------------------------------------------------------

  lemma {:induction false} LinksForInLinks(rows: seq<Row>, some: seq<Row>, row: Row)
    requires row in some
    ensures forall link <- LinksFor(rows, row) :: link in LinksOf(rows, some)
  {
    var n := |some| - 1;
    if some[n] != row {
      assert some == some[..n] + [some[n]];
      hide LinksFor;
      LinksForInLinks(rows, some[..n], row);
    }
  }

  /** Issues that name each other as parent get each other as parent, and one that names itself
    * gets itself: unlike an update, an import does not look for cycles.
    */
  lemma MutualParentsAreLinked(rows: seq<Row>, x: Row, y: Row)
    requires Unambiguous(rows) && x in rows && y in rows && x.made.Some? && y.made.Some? && !IsEpic(x) && !IsEpic(y)
    requires x.parentRef == y.externalId != "" && y.parentRef == x.externalId != ""
    ensures exists k <- LinksOf(rows, rows) :: k.issue == x.made.value && k.parent == y.made
    ensures exists k <- LinksOf(rows, rows) :: k.issue == y.made.value && k.parent == x.made
  {
    assert Matches(y, ISSUE_BY_ID, x.parentRef) && Matches(x, ISSUE_BY_ID, y.parentRef);
    FoundMatches(rows, ISSUE_BY_ID, x.parentRef);
    FoundMatches(rows, ISSUE_BY_ID, y.parentRef);
    hide Find, IsEpic;
    assert ParentOf(rows, x) == y.made && ParentOf(rows, y) == x.made;
    LinksForInLinks(rows, rows, x);
    LinksForInLinks(rows, rows, y);
    hide LinksOf, Unambiguous;
    assert LinksFor(rows, x)[0] in LinksFor(rows, x);
    assert LinksFor(rows, y)[0] in LinksFor(rows, y);
  }

  // --- rows of the program's own export --------------------------------------

  function TrimHashes(s: string): (r: string)
    ensures r == "" || r[0] != '#'
    ensures |r| <= |s| && r == s[|s| - |r|..] && forall i :: 0 <= i < |s| - |r| ==> s[i] == '#'
  {
    if s != "" && s[0] == '#' then TrimHashes(s[1..]) else s
  }

  function StripHash(s: string): string {
    Trim(TrimHashes(Trim(s)))
  }

  predicate Hashes(s: string) {
    forall i :: 0 <= i < |s| ==> s[i] == '#'
  }

  lemma {:induction false} TrimHashesDrops(hashes: string, s: string)
    requires Hashes(hashes) && (s == "" || s[0] != '#')
    ensures TrimHashes(hashes + s) == s
  {
    if hashes == "" {
      assert hashes + s == s;
    } else {
      assert (hashes + s)[1..] == hashes[1..] + s;
      TrimHashesDrops(hashes[1..], s);
    }
  }

  /** Of a reference, hashes before it are dropped, and white space around them and around it. */
  lemma StripHashIs(w: string, hashes: string, u: string, ref: string, w': string)
    requires Spaces(w) && Hashes(hashes) && hashes != "" && Spaces(u) && Spaces(w')
    requires ref != "" && Tight(ref) && ref[0] != '#'
    ensures StripHash(w + (hashes + u + ref) + w') == ref
  {
    var t := hashes + u + ref;
    assert t[0] == hashes[0] && t[|t| - 1] == ref[|ref| - 1];
    HashIsNoSpace();
    TrimOf(w, t, w');
    SpacedIsNoHash(u, ref);
    assert t == hashes + (u + ref);
    TrimHashesDrops(hashes, u + ref);
    TrimOf(u, ref, "");
    assert u + ref + "" == u + ref;
    hide Trim, TrimHashes, Spaces, Tight, Hashes;
  }

  lemma HashIsNoSpace()
    ensures !IsSpace('#')
  {
  }

  lemma SpacedIsNoHash(u: string, ref: string)
    requires Spaces(u) && ref != "" && ref[0] != '#'
    ensures (u + ref)[0] != '#'
  {
    HashIsNoSpace();
  }

  // A cell of the export that names an issue or epic, or nothing.
  function Cell(n: Option<nat>): string {
    if n.None? then "" else "#" + Decimal(n.value)
  }

  // The row read back: the key as it stands, the references without their hash.
  ghost predicate FromExport(row: Row) {
    exists n: nat, parent: Option<nat>, epic: Option<nat> ::
      && row.externalId == Cell(Some(n)) && row.externalKey == Cell(Some(n))
      && row.parentRef == StripHash(Cell(parent)) && row.epicRef == StripHash(Cell(epic))
  }

  lemma StripHashOfNumber(d: string)
    requires d != "" && forall i :: 0 <= i < |d| ==> IsDigit(d[i])
    ensures StripHash("#" + d) == d
  {
    var s := "#" + d;
    assert s[1..] == d;
    DigitsTight(d);
    TrimHashesOnce(d);
    hide TrimHashes, Tight, Trim;
    TrimTight(s);
    TrimTight(d);
  }

  lemma DigitsTight(d: string)
    requires d != "" && forall i :: 0 <= i < |d| ==> IsDigit(d[i])
    ensures Tight("#" + d) && Tight(d) && d[0] != '#'
  {
    var s := "#" + d;
    assert s[0] == '#' && s[|s| - 1] == d[|d| - 1];
  }

  lemma TrimHashesOnce(d: string)
    requires d == "" || d[0] != '#'
    ensures TrimHashes("#" + d) == d
  {
    assert ("#" + d)[1..] == d;
  }

  lemma StripHashOfCell(n: Option<nat>)
    ensures StripHash(Cell(n)) == if n.None? then "" else Decimal(n.value)
  {
    if n.Some? {
      hide Decimal, StripHash;
      StripHashOfNumber(Decimal(n.value));
    }
  }

  lemma ExportedDoesNotMatch(row: Row, index: Index, cell: Option<nat>)
    requires FromExport(row)
    ensures !Matches(row, index, StripHash(Cell(cell)))
  {
    StripHashOfCell(cell);
    hide StripHash, Decimal;
    var n: nat, parent: Option<nat>, epic: Option<nat> :|
      && row.externalId == Cell(Some(n)) && row.externalKey == Cell(Some(n))
      && row.parentRef == StripHash(Cell(parent)) && row.epicRef == StripHash(Cell(epic));
    assert Label(row, index)[0] == '#';
    assert cell.Some? ==> Decimal(cell.value)[0] != '#';
  }

  /** Reading the program's own export back writes no link at all: a key keeps the hash that a
    * reference to it has lost.
    */
  lemma {:induction false} ExportedRowsAreNotLinked(rows: seq<Row>, some: seq<Row>)
    requires forall row <- rows :: FromExport(row)
    requires forall row <- some :: FromExport(row)
    ensures LinksOf(rows, some) == []
  {
    if some != [] {
      var n := |some| - 1;
      assert some[n] in some && forall row <- some[..n] :: row in some;
      ExportedRowsAreNotLinked(rows, some[..n]);
      NothingFound(rows, some[n]);
      hide Find;
    }
  }

  lemma NothingFound(rows: seq<Row>, row: Row)
    requires FromExport(row) && forall r <- rows :: FromExport(r)
    ensures ParentOf(rows, row).None? && EpicOf(rows, row).None?
  {
    var n: nat, parent: Option<nat>, epic: Option<nat> :|
      && row.externalId == Cell(Some(n)) && row.externalKey == Cell(Some(n))
      && row.parentRef == StripHash(Cell(parent)) && row.epicRef == StripHash(Cell(epic));
    hide FromExport, Matches, Find, StripHash, Cell;
    forall index: Index ensures Find(rows, index, row.parentRef).None? && Find(rows, index, row.epicRef).None? {
      FoundMatches(rows, index, row.parentRef);
      FoundMatches(rows, index, row.epicRef);
      forall r <- rows ensures !Matches(r, index, row.parentRef) && !Matches(r, index, row.epicRef) {
        ExportedDoesNotMatch(r, index, parent);
        ExportedDoesNotMatch(r, index, epic);
      }
    }
  }

  // --- the two passes --------------------------------------------------------

  // `entries` is the index of the rows.
  ghost predicate Indexes(entries: map<string, Uuid>, rows: seq<Row>, index: Index) {
    forall ref: string ::
      (ref in entries <==> Find(rows, index, ref).Some?)
      && (ref in entries ==> Find(rows, index, ref) == Some(entries[ref]))
  }

  function Entered(entries: map<string, Uuid>, row: Row, index: Index): map<string, Uuid> {
    if row.made.Some? && IsEpic(row) == index.epics && Label(row, index) != ""
    then entries[Label(row, index) := row.made.value] else entries
  }

  lemma EnteredIndexes(entries: map<string, Uuid>, rows: seq<Row>, row: Row, index: Index)
    requires Indexes(entries, rows, index)
    ensures Indexes(Entered(entries, row, index), rows + [row], index)
  {
    assert (rows + [row])[..|rows|] == rows;
    hide IsEpic;
  }

  function Lookup(entries: map<string, Uuid>, ref: string): Option<Uuid> {
    if ref in entries then Some(entries[ref]) else None
  }

  datatype Made = Made(idx: nat, id: Uuid, isEpic: bool)

  // The rows that were created, in order.
  function CreatedOf(rows: seq<Row>): seq<Made> {
    if rows == [] then [] else
    var n := |rows| - 1;
    CreatedOf(rows[..n]) + (if rows[n].made.Some? then [Made(n, rows[n].made.value, IsEpic(rows[n]))] else [])
  }

  ghost predicate MadeFrom(m: Made, rows: seq<Row>) {
    m.idx < |rows| && rows[m.idx].made == Some(m.id) && m.isEpic == IsEpic(rows[m.idx])
  }

  // The links of some of the created rows.
  function MadeLinks(rows: seq<Row>, created: seq<Made>): seq<Link> {
    if created == [] then [] else
    var m := created[|created| - 1];
    MadeLinks(rows, created[..|created| - 1]) + (if m.idx < |rows| then LinksFor(rows, rows[m.idx]) else [])
  }

  lemma {:induction false} CreatedAreMade(rows: seq<Row>, n: nat)
    requires n <= |rows|
    ensures forall m <- CreatedOf(rows[..n]) :: MadeFrom(m, rows)
    ensures MadeLinks(rows, CreatedOf(rows[..n])) == LinksOf(rows, rows[..n])
  {
    if n > 0 {
      hide LinksFor, IsEpic, CreatedOf, MadeLinks, LinksOf;
      CreatedAreMade(rows, n - 1);
      CreatedSnoc(rows, n - 1);
      var before := CreatedOf(rows[..n - 1]);
      if rows[n - 1].made.Some? {
        MadeLinksSnoc(rows, before, Made(n - 1, rows[n - 1].made.value, IsEpic(rows[n - 1])));
      } else {
        NotMadeNoLinks(rows, rows[n - 1]);
        assert before + [] == before && LinksOf(rows, rows[..n - 1]) + [] == LinksOf(rows, rows[..n - 1]);
      }
    } else {
      hide LinksFor, IsEpic;
      assert rows[..n] == [];
    }
  }

  lemma CreatedSnoc(rows: seq<Row>, n: nat)
    requires n < |rows|
    ensures CreatedOf(rows[..n + 1])
            == CreatedOf(rows[..n]) + if rows[n].made.Some? then [Made(n, rows[n].made.value, IsEpic(rows[n]))] else []
    ensures LinksOf(rows, rows[..n + 1]) == LinksOf(rows, rows[..n]) + LinksFor(rows, rows[n])
  {
    hide LinksFor, IsEpic;
    assert rows[..n + 1][..n] == rows[..n];
  }

  lemma MadeLinksSnoc(rows: seq<Row>, before: seq<Made>, m: Made)
    requires m.idx < |rows|
    ensures MadeLinks(rows, before + [m]) == MadeLinks(rows, before) + LinksFor(rows, rows[m.idx])
  {
    hide LinksFor;
    assert (before + [m])[..|before|] == before;
  }

  lemma NotMadeNoLinks(rows: seq<Row>, row: Row)
    requires row.made.None?
    ensures LinksFor(rows, row) == []
  {
  }

  datatype Kind = IssueKind | EpicKind

  function KindOf(row: Row): Kind {
    if IsEpic(row) then EpicKind else IssueKind
  }

  // How many rows were created as issues, or as epics.
  function Count(rows: seq<Row>, kind: Kind): nat {
    if rows == [] then 0 else
    var row := rows[|rows| - 1];
    Count(rows[..|rows| - 1], kind) + (if row.made.Some? && KindOf(row) == kind then 1 else 0)
  }

  // How a row that was not created is reported.
  function SkippedText(row: Row): string {
    row.externalKey + ": " + row.subject
  }

  // The rows that were not created, as they are reported.
  function SkippedOf(rows: seq<Row>): seq<string> {
    if rows == [] then [] else
    var row := rows[|rows| - 1];
    SkippedOf(rows[..|rows| - 1]) + (if row.made.None? then [SkippedText(row)] else [])
  }

  // Every skipped row is reported by its key and subject, and nothing else is.
  lemma {:induction false} SkippedTells(rows: seq<Row>)
    ensures forall row <- rows :: row.made.None? ==> row.externalKey + ": " + row.subject in SkippedOf(rows)
    ensures forall text <- SkippedOf(rows) ::
              exists row <- rows :: row.made.None? && text == row.externalKey + ": " + row.subject
  {
    if rows != [] {
      var n := |rows| - 1;
      SkippedTells(rows[..n]);
      assert rows == rows[..n] + [rows[n]];
    }
  }

  datatype Tables = Tables(
    byId: map<string, Uuid>, byKey: map<string, Uuid>, epicById: map<string, Uuid>, epicByKey: map<string, Uuid>)

  ghost predicate TablesOk(t: Tables, rows: seq<Row>) {
    && Indexes(t.byId, rows, ISSUE_BY_ID) && Indexes(t.byKey, rows, ISSUE_BY_KEY)
    && Indexes(t.epicById, rows, EPIC_BY_ID) && Indexes(t.epicByKey, rows, EPIC_BY_KEY)
  }

  function AllEntered(t: Tables, row: Row): Tables {
    Tables(Entered(t.byId, row, ISSUE_BY_ID), Entered(t.byKey, row, ISSUE_BY_KEY),
           Entered(t.epicById, row, EPIC_BY_ID), Entered(t.epicByKey, row, EPIC_BY_KEY))
  }

  lemma AllEnteredOk(t: Tables, rows: seq<Row>, row: Row)
    requires TablesOk(t, rows)
    ensures TablesOk(AllEntered(t, row), rows + [row])
  {
    hide Indexes, Entered;
    EnteredIndexes(t.byId, rows, row, ISSUE_BY_ID);
    EnteredIndexes(t.byKey, rows, row, ISSUE_BY_KEY);
    EnteredIndexes(t.epicById, rows, row, EPIC_BY_ID);
    EnteredIndexes(t.epicByKey, rows, row, EPIC_BY_KEY);
  }

  // One row of the first pass.
  method EnterRow(t: Tables, row: Row) returns (r: Tables)
    ensures r == AllEntered(t, row)
  {
    hide IsEpic;
    r := t;
    if row.made.Some? {
      var id := row.made.value;
      if IsEpic(row) {
        if row.externalId != "" {
          r := r.(epicById := r.epicById[row.externalId := id]);
        }
        if row.externalKey != "" {
          r := r.(epicByKey := r.epicByKey[row.externalKey := id]);
        }
      } else {
        if row.externalId != "" {
          r := r.(byId := r.byId[row.externalId := id]);
        }
        if row.externalKey != "" {
          r := r.(byKey := r.byKey[row.externalKey := id]);
        }
      }
    }
  }

  /** The first pass. Every row is counted once, as an issue, as an epic or as skipped. */
  method CreateRows(rows: seq<Row>)
    returns (issues: nat, epics: nat, skipped: seq<string>, t: Tables, created: seq<Made>)
    ensures issues == Count(rows, IssueKind) && epics == Count(rows, EpicKind)
    ensures issues + epics + |skipped| == |rows| && skipped == SkippedOf(rows)
    ensures TablesOk(t, rows) && created == CreatedOf(rows)
  {
    hide IsEpic, AllEntered, SkippedOf, SkippedText, Count, CreatedOf, TablesOk;
    t, created := Tables(map[], map[], map[], map[]), [];
    issues, epics, skipped := 0, 0, [];
    assert rows[..0] == [];
    NothingPassed(t);
    for i := 0 to |rows|
      invariant TablesOk(t, rows[..i])
      invariant created == CreatedOf(rows[..i])
      invariant issues == Count(rows[..i], IssueKind) && epics == Count(rows[..i], EpicKind)
      invariant issues + epics + |skipped| == i && skipped == SkippedOf(rows[..i])
    {
      var row := rows[i];
      assert rows[..i + 1] == rows[..i] + [row];
      RowPassed(rows[..i], row);
      AllEnteredOk(t, rows[..i], row);
      t := EnterRow(t, row);
      match row.made {
        case None => skipped := skipped + [SkippedText(row)];
        case Some(id) =>
          if IsEpic(row) {
            epics := epics + 1;
          } else {
            issues := issues + 1;
          }
          created := created + [Made(i, id, IsEpic(row))];
      }
    }
    assert rows[..|rows|] == rows;
  }

  lemma NothingPassed(t: Tables)
    requires t == Tables(map[], map[], map[], map[])
    ensures TablesOk(t, []) && CreatedOf([]) == [] && SkippedOf([]) == []
    ensures Count([], IssueKind) == 0 && Count([], EpicKind) == 0
  {
  }

  lemma RowPassed(rows: seq<Row>, row: Row)
    ensures forall kind :: Count(rows + [row], kind)
                           == Count(rows, kind) + if row.made.Some? && KindOf(row) == kind then 1 else 0
    ensures CreatedOf(rows + [row])
            == CreatedOf(rows) + if row.made.Some? then [Made(|rows|, row.made.value, IsEpic(row))] else []
    ensures SkippedOf(rows + [row]) == SkippedOf(rows) + if row.made.None? then [SkippedText(row)] else []
  {
    hide IsEpic, SkippedText;
    assert (rows + [row])[..|rows|] == rows;
  }

  lemma ResolvedLinks(t: Tables, rows: seq<Row>, row: Row)
    requires TablesOk(t, rows)
    ensures OrElse(Lookup(t.byId, row.parentRef), Lookup(t.byKey, row.parentRef)) == ParentOf(rows, row)
    ensures OrElse(Lookup(t.epicByKey, row.epicRef), Lookup(t.epicById, row.epicRef)) == EpicOf(rows, row)
  {
    hide Lookup, Indexes, Find;
    LookupFinds(t.byId, rows, ISSUE_BY_ID, row.parentRef);
    LookupFinds(t.byKey, rows, ISSUE_BY_KEY, row.parentRef);
    LookupFinds(t.epicByKey, rows, EPIC_BY_KEY, row.epicRef);
    LookupFinds(t.epicById, rows, EPIC_BY_ID, row.epicRef);
  }

  lemma MadeRowLinks(rows: seq<Row>, m: Made)
    requires MadeFrom(m, rows)
    ensures var (parent, epic) := (ParentOf(rows, rows[m.idx]), EpicOf(rows, rows[m.idx]));
            LinksFor(rows, rows[m.idx])
            == if m.isEpic || (parent.None? && epic.None?) then [] else [Link(m.id, parent, epic)]
  {
    hide ParentOf, EpicOf, IsEpic;
  }

  /** The whole import: the second pass writes just the links that the rows' references mean. */
  method ImportCommit(rows: seq<Row>)
    returns (issues: nat, epics: nat, skipped: seq<string>, links: seq<Link>)
    ensures links == LinksOf(rows, rows)
    ensures issues == Count(rows, IssueKind) && epics == Count(rows, EpicKind)
    ensures issues + epics + |skipped| == |rows| && skipped == SkippedOf(rows)
  {
    var t, created;
    issues, epics, skipped, t, created := CreateRows(rows);
    assert rows[..|rows|] == rows;
    CreatedAreMade(rows, |rows|);
    links := [];
    hide IsEpic, TablesOk, CreatedOf, LinksOf, ParentOf, EpicOf, LinksFor, Lookup, OrElse;
    for j := 0 to |created|
      invariant links == MadeLinks(rows, created[..j])
    {
      var m := created[j];
      assert MadeFrom(m, rows);
      assert created[..j + 1][..j] == created[..j];
      var row := rows[m.idx];
      ResolvedLinks(t, rows, row);
      MadeRowLinks(rows, m);
      if !m.isEpic {
        var parent := OrElse(Lookup(t.byId, row.parentRef), Lookup(t.byKey, row.parentRef));
        var epic := OrElse(Lookup(t.epicByKey, row.epicRef), Lookup(t.epicById, row.epicRef));
        if parent.Some? || epic.Some? {
          links := links + [Link(m.id, parent, epic)];
        }
      }
    }
    assert created[..|created|] == created;
  }

  lemma LookupFinds(entries: map<string, Uuid>, rows: seq<Row>, index: Index, ref: string)
    requires Indexes(entries, rows, index)
    ensures Lookup(entries, ref) == Find(rows, index, ref)
  {
  }
}
