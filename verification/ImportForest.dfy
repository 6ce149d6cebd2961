/** What an import does to the issue hierarchy: the created issues start without a parent, and the
  * links of the second pass are written with no look for cycles.
  */
module ImportForest {
  import opened Text
  import Hierarchy
  import ImportLinks

  type Issues = Hierarchy.Issues
  type Row = ImportLinks.Row
  type Uuid = ImportLinks.Uuid

  // The row was created, as an issue.
  predicate IsIssue(row: Row) {
    row.made.Some? && !ImportLinks.IsEpic(row)
  }

  // The table after the first pass.
  function WithCreated(h: Issues, rows: seq<Row>): Issues {
    if rows == [] then h else
    var n := |rows| - 1;
    var before := WithCreated(h, rows[..n]);
    if IsIssue(rows[n]) then before[rows[n].made.value := Hierarchy.Issue(None, true)] else before
  }

  // `SET parent_id = COALESCE(.., parent_id)`, link by link.
  function WithLinks(h: Issues, links: seq<ImportLinks.Link>): Issues {
    if links == [] then h else
    var n := |links| - 1;
    var (before, k) := (WithLinks(h, links[..n]), links[n]);
    if k.issue in before && k.parent.Some? then before[k.issue := before[k.issue].(parent := k.parent)] else before
  }

  function Imported(h: Issues, rows: seq<Row>): Issues {
    WithLinks(WithCreated(h, rows), ImportLinks.LinksOf(rows, rows))
  }

  ghost predicate DistinctIds(rows: seq<Row>) {
    forall i, j :: 0 <= i < j < |rows| && rows[i].made.Some? ==> rows[i].made != rows[j].made
  }

  // The ids given out are new: the table neither has nor names them.
  ghost predicate NewIds(h: Issues, rows: seq<Row>) {
    forall row <- rows :: row.made.Some? ==> row.made.value !in h && forall x <- h :: h[x].parent != row.made
  }

  // --- the table after both passes -------------------------------------------

  lemma {:induction false} CreatedHas(h: Issues, rows: seq<Row>, id: Uuid)
    ensures var t := WithCreated(h, rows);
            && ((exists row <- rows :: IsIssue(row) && row.made == Some(id)) ==>
                  id in t && t[id] == Hierarchy.Issue(None, true))
            && ((forall row <- rows :: IsIssue(row) ==> row.made != Some(id)) ==>
                  (id in t <==> id in h) && (id in h ==> t[id] == h[id]))
  {
    if rows != [] {
      hide IsIssue;
      var n := |rows| - 1;
      CreatedHas(h, rows[..n], id);
      assert rows == rows[..n] + [rows[n]];
    }
  }

  // The last parent that the links give an issue.
  function LinkedParent(links: seq<ImportLinks.Link>, id: Uuid): Option<Uuid> {
    if links == [] then None else
    var k := links[|links| - 1];
    if k.issue == id && k.parent.Some? then k.parent else LinkedParent(links[..|links| - 1], id)
  }

  lemma {:induction false} LinkedHas(h: Issues, links: seq<ImportLinks.Link>, id: Uuid)
    ensures var t := WithLinks(h, links);
            && (id in t <==> id in h)
            && (id in h ==>
                  t[id] == if LinkedParent(links, id).Some? then h[id].(parent := LinkedParent(links, id)) else h[id])
  {
    if links != [] {
      LinkedHas(h, links[..|links| - 1], id);
    }
  }

  lemma LinkedAppend(x: seq<ImportLinks.Link>, y: seq<ImportLinks.Link>, id: Uuid)
    requires |y| <= 1
    ensures LinkedParent(x + y, id)
            == if y != [] && y[0].issue == id && y[0].parent.Some? then y[0].parent else LinkedParent(x, id)
  {
    if y == [] { assert x + y == x; } else { assert (x + y)[..|x|] == x; }
  }

  // The last row decides for its own issue, and for no other.
  lemma LinkedLast(rows: seq<Row>, links: seq<ImportLinks.Link>, row: Row, id: Uuid)
    ensures LinkedParent(links + ImportLinks.LinksFor(rows, row), id)
            == if IsIssue(row) && row.made == Some(id) && ImportLinks.ParentOf(rows, row).Some?
               then ImportLinks.ParentOf(rows, row) else LinkedParent(links, id)
  {
    LinkedAppend(links, ImportLinks.LinksFor(rows, row), id);
    hide ImportLinks.ParentOf, ImportLinks.EpicOf, LinkedParent, ImportLinks.IsEpic;
  }

  lemma LastIsDistinct(rows: seq<Row>)
    requires DistinctIds(rows) && rows != [] && IsIssue(rows[|rows| - 1])
    ensures forall row <- rows[..|rows| - 1] :: row.made != rows[|rows| - 1].made
  {
    hide IsIssue;
    assert rows[|rows| - 1].made.Some? by { IssueIsMade(rows[|rows| - 1]); }
  }

  lemma IssueIsMade(row: Row)
    requires IsIssue(row)
    ensures row.made.Some?
  {
  }

  lemma LinksOfInit(rows: seq<Row>, some: seq<Row>)
    ensures some == [] ==> ImportLinks.LinksOf(rows, some) == []
    ensures some != [] ==>
              ImportLinks.LinksOf(rows, some)
              == ImportLinks.LinksOf(rows, some[..|some| - 1]) + ImportLinks.LinksFor(rows, some[|some| - 1])
  {
    hide ImportLinks.LinksFor;
  }

  lemma NoLinks(id: Uuid)
    ensures LinkedParent([], id) == None
  {
  }

  lemma InitDistinct(rows: seq<Row>)
    requires DistinctIds(rows) && rows != []
    ensures DistinctIds(rows[..|rows| - 1])
  {
  }

  // An issue is linked under what its row's reference means, and nothing else is linked.
  lemma {:induction false} LinksGive(rows: seq<Row>, some: seq<Row>, id: Uuid)
    requires DistinctIds(some)
    ensures forall row <- some :: IsIssue(row) && row.made == Some(id) ==>
              LinkedParent(ImportLinks.LinksOf(rows, some), id) == ImportLinks.ParentOf(rows, row)
    ensures (forall row <- some :: IsIssue(row) ==> row.made != Some(id)) ==>
              LinkedParent(ImportLinks.LinksOf(rows, some), id) == None
  {
    hide ImportLinks.LinksFor, ImportLinks.LinksOf, ImportLinks.ParentOf, LinkedParent, IsIssue, DistinctIds;
    LinksOfInit(rows, some);
    if some == [] {
      NoLinks(id);
    } else {
      var n := |some| - 1;
      var (init, last) := (some[..n], some[n]);
      InitDistinct(some);
      LinksGive(rows, init, id);
      LinkedLast(rows, ImportLinks.LinksOf(rows, init), last, id);
      assert some == init + [last];
      if IsIssue(last) && last.made == Some(id) {
        LastIsDistinct(some);
      }
    }
  }

  lemma ImportedIssue(h: Issues, rows: seq<Row>, row: Row)
    requires DistinctIds(rows) && row in rows && IsIssue(row)
    ensures var t := Imported(h, rows);
            row.made.value in t && t[row.made.value] == Hierarchy.Issue(ImportLinks.ParentOf(rows, row), true)
  {
    hide WithCreated, WithLinks, LinkedParent, ImportLinks.LinksOf, ImportLinks.ParentOf, DistinctIds;
    CreatedHas(h, rows, row.made.value);
    LinksGive(rows, rows, row.made.value);
    LinkedHas(WithCreated(h, rows), ImportLinks.LinksOf(rows, rows), row.made.value);
  }

  lemma ImportedOther(h: Issues, rows: seq<Row>, id: Uuid)
    requires DistinctIds(rows) && forall row <- rows :: IsIssue(row) ==> row.made != Some(id)
    ensures var t := Imported(h, rows); (id in t <==> id in h) && (id in h ==> t[id] == h[id])
  {
    hide WithCreated, WithLinks, LinkedParent, ImportLinks.LinksOf, DistinctIds;
    CreatedHas(h, rows, id);
    LinksGive(rows, rows, id);
    LinkedHas(WithCreated(h, rows), ImportLinks.LinksOf(rows, rows), id);
  }

  // --- climbing by references ------------------------------------------------

  // The row that the issue was created from.
  function RowOf(rows: seq<Row>, id: Uuid): (r: Option<Row>)
    ensures r.Some? ==> r.value in rows && IsIssue(r.value) && r.value.made == Some(id)
    ensures r.None? ==> forall row <- rows :: IsIssue(row) ==> row.made != Some(id)
  {
    if rows == [] then None else
    var last := rows[|rows| - 1];
    if IsIssue(last) && last.made == Some(id) then Some(last) else
    assert rows == rows[..|rows| - 1] + [last];
    RowOf(rows[..|rows| - 1], id)
  }

  // The issue reached by `n` parent references.
  function Climb(rows: seq<Row>, id: Uuid, n: nat): Option<Uuid> {
    if n == 0 then Some(id) else
    match Climb(rows, id, n - 1)
    case None => None
    case Some(y) => match RowOf(rows, y) case None => None case Some(row) => ImportLinks.ParentOf(rows, row)
  }

  // No issue of the import reaches itself by parent references.
  ghost predicate NoReferenceCycle(rows: seq<Row>) {
    forall row: Row, n: nat :: row in rows && IsIssue(row) && n > 0 ==> !Reaches(rows, row, n)
  }

  ghost predicate Reaches(rows: seq<Row>, row: Row, n: nat) {
    Climb(rows, if row.made.Some? then row.made.value else 0, n) == row.made
  }

  lemma ParentIsIssue(rows: seq<Row>, row: Row)
    ensures ImportLinks.ParentOf(rows, row).Some? ==>
              exists r <- rows :: IsIssue(r) && r.made == ImportLinks.ParentOf(rows, row)
  {
    ImportLinks.FoundMatches(rows, ImportLinks.ISSUE_BY_ID, row.parentRef);
    ImportLinks.FoundMatches(rows, ImportLinks.ISSUE_BY_KEY, row.parentRef);
    hide ImportLinks.Find, ImportLinks.IsEpic;
  }

  lemma ImportedParent(h: Issues, rows: seq<Row>, row: Row)
    requires DistinctIds(rows) && row in rows && IsIssue(row)
    ensures Hierarchy.Live(Imported(h, rows), row.made.value)
    ensures Hierarchy.LiveParent(Imported(h, rows), row.made.value) == ImportLinks.ParentOf(rows, row)
  {
    hide Imported, ImportLinks.ParentOf, IsIssue, DistinctIds;
    ImportedIssue(h, rows, row);
    ParentIsIssue(rows, row);
    if r :| r in rows && IsIssue(r) && r.made == ImportLinks.ParentOf(rows, row) && r.made.Some? {
      ImportedIssue(h, rows, r);
    }
  }

  lemma {:induction false} ClimbIsNth(h: Issues, rows: seq<Row>, row: Row, n: nat)
    requires DistinctIds(rows) && row in rows && IsIssue(row)
    ensures Hierarchy.Nth(Imported(h, rows), row.made.value, n) == Climb(rows, row.made.value, n)
    ensures Climb(rows, row.made.value, n).Some? ==> RowOf(rows, Climb(rows, row.made.value, n).value).Some?
  {
    assert row.made.Some? && RowOf(rows, row.made.value).Some?;
    hide Imported, ImportLinks.ParentOf, IsIssue, DistinctIds, RowOf;
    if n == 0 {
      ImportedParent(h, rows, row);
    } else {
      ClimbIsNth(h, rows, row, n - 1);
      var y := Climb(rows, row.made.value, n - 1);
      if y.Some? {
        var at := RowOf(rows, y.value).value;
        ImportedParent(h, rows, at);
        ParentIsIssue(rows, at);
      }
    }
  }

  // The issues that were there before keep their ancestors.
  lemma {:induction false} OldNth(h: Issues, rows: seq<Row>, x: Uuid, n: nat)
    requires DistinctIds(rows) && NewIds(h, rows) && x in h
    ensures Hierarchy.Nth(Imported(h, rows), x, n) == Hierarchy.Nth(h, x, n)
  {
    hide Imported, DistinctIds;
    if n == 0 {
      ImportedOther(h, rows, x);
    } else {
      OldNth(h, rows, x, n - 1);
      var y := Hierarchy.Nth(h, x, n - 1);
      if y.Some? {
        ImportedOther(h, rows, y.value);
        if h[y.value].parent.Some? {
          ImportedOther(h, rows, h[y.value].parent.value);
        }
      }
    }
  }

  lemma NowhereNth(h: Issues, x: Uuid, n: nat)
    requires x !in h
    ensures Hierarchy.Nth(h, x, n) == None
  {
    Hierarchy.NthAdd(h, x, 0, n);
  }

  /** An import into a project without cycles leaves it without cycles exactly when no created issue
    * reaches itself through the rows' parent references.
    */
  lemma {:induction false} ImportKeepsForestIff(h: Issues, rows: seq<Row>)
    requires Hierarchy.Forest(h) && DistinctIds(rows) && NewIds(h, rows)
    ensures Hierarchy.Forest(Imported(h, rows)) <==> NoReferenceCycle(rows)
  {
    var t := Imported(h, rows);
    hide Imported, DistinctIds, NewIds, Climb, ImportLinks.ParentOf;
    if Hierarchy.Forest(t) {
      forall row: Row, n: nat | row in rows && IsIssue(row) && n > 0 ensures !Reaches(rows, row, n) {
        ClimbIsNth(h, rows, row, n);
      }
    }
    if NoReferenceCycle(rows) {
      forall x: Uuid, n: nat | n > 0 ensures Hierarchy.Nth(t, x, n) != Some(x) {
        var r := RowOf(rows, x);
        if r.Some? {
          ClimbIsNth(h, rows, r.value, n);
          assert !Reaches(rows, r.value, n);
        } else if x in h {
          OldNth(h, rows, x, n);
        } else {
          ImportedOther(h, rows, x);
          NowhereNth(t, x, n);
        }
      }
    }
  }

  // Every parent that is found was made by an earlier row.
  ghost predicate ParentsComeFirst(rows: seq<Row>) {
    forall i :: 0 <= i < |rows| && IsIssue(rows[i]) && ImportLinks.ParentOf(rows, rows[i]).Some? ==>
      exists j :: 0 <= j < i && IsIssue(rows[j]) && rows[j].made == ImportLinks.ParentOf(rows, rows[i])
  }

  lemma OtherRow(rows: seq<Row>, j: nat, i: nat)
    requires DistinctIds(rows) && j < i < |rows| && IsIssue(rows[j])
    ensures rows[j].made != rows[i].made
  {
  }

  lemma SameRow(rows: seq<Row>, i: nat, j: nat)
    requires DistinctIds(rows) && i < |rows| && j < |rows| && rows[i].made.Some? && rows[i].made == rows[j].made
    ensures i == j
  {
  }

  lemma ClimbStep(rows: seq<Row>, id: Uuid, n: nat)
    ensures Climb(rows, id, 0) == Some(id)
    ensures Climb(rows, id, n + 1).Some? ==>
              && Climb(rows, id, n).Some? && RowOf(rows, Climb(rows, id, n).value).Some?
              && Climb(rows, id, n + 1)
                 == ImportLinks.ParentOf(rows, RowOf(rows, Climb(rows, id, n).value).value)
  {
    hide RowOf, ImportLinks.ParentOf;
  }

  // The parent of the issue made by row `k` was made by an earlier one.
  lemma ParentBefore(rows: seq<Row>, k: nat) returns (j: nat)
    requires DistinctIds(rows) && ParentsComeFirst(rows) && k < |rows| && IsIssue(rows[k])
    requires var r := RowOf(rows, rows[k].made.value); r.Some? && ImportLinks.ParentOf(rows, r.value).Some?
    ensures j < k && IsIssue(rows[j])
    ensures rows[j].made == ImportLinks.ParentOf(rows, RowOf(rows, rows[k].made.value).value)
  {
    hide RowOf, ImportLinks.ParentOf, IsIssue, DistinctIds;
    IssueIsMade(rows[k]);
    RowIs(rows, rows[k]);
    j :| 0 <= j < k && IsIssue(rows[j]) && rows[j].made == ImportLinks.ParentOf(rows, rows[k]);
  }

  lemma {:induction false} ClimbsBack(rows: seq<Row>, i: nat, n: nat) returns (j: nat)
    requires DistinctIds(rows) && ParentsComeFirst(rows) && i < |rows| && IsIssue(rows[i])
    requires Climb(rows, rows[i].made.value, n).Some?
    ensures j + n <= i && IsIssue(rows[j]) && rows[j].made == Climb(rows, rows[i].made.value, n)
  {
    hide *;
    IssueIsMade(rows[i]);
    if n == 0 {
      ClimbStep(rows, rows[i].made.value, 0);
      j := i;
    } else {
      ClimbStep(rows, rows[i].made.value, n - 1);
      var k := ClimbsBack(rows, i, n - 1);
      IssueIsMade(rows[k]);
      j := ParentBefore(rows, k);
    }
  }

  /** In particular when every parent that is found stands in an earlier row. */
  lemma {:induction false} ParentsFirstKeepForest(h: Issues, rows: seq<Row>)
    requires Hierarchy.Forest(h) && DistinctIds(rows) && NewIds(h, rows) && ParentsComeFirst(rows)
    ensures Hierarchy.Forest(Imported(h, rows))
  {
    hide Imported, NewIds, Climb, ImportLinks.ParentOf, Hierarchy.Forest;
    forall row: Row, n: nat | row in rows && IsIssue(row) && n > 0 ensures !Reaches(rows, row, n) {
      var i :| 0 <= i < |rows| && rows[i] == row;
      if Climb(rows, row.made.value, n).Some? {
        var j := ClimbsBack(rows, i, n);
        OtherRow(rows, j, i);
      }
    }
    ImportKeepsForestIff(h, rows);
  }

  /** Issues that name each other as parent, or one that names itself, make a cycle. */
  lemma {:induction false} MutualParentsBreakForest(h: Issues, rows: seq<Row>, x: Row, y: Row)
    requires Hierarchy.Forest(h) && DistinctIds(rows) && NewIds(h, rows) && ImportLinks.Unambiguous(rows)
    requires x in rows && y in rows && IsIssue(x) && IsIssue(y)
    requires x.parentRef == y.externalId != "" && y.parentRef == x.externalId != ""
    ensures !Hierarchy.Forest(Imported(h, rows))
  {
    ImportLinks.ReferencesMean(rows, x, y);
    ImportLinks.ReferencesMean(rows, y, x);
    assert ImportLinks.Matches(y, ImportLinks.ISSUE_BY_ID, x.parentRef);
    assert ImportLinks.Matches(x, ImportLinks.ISSUE_BY_ID, y.parentRef);
    hide Imported, NewIds, ImportLinks.ParentOf, Hierarchy.Forest, ImportLinks.Unambiguous, ImportLinks.Matches;
    RowIs(rows, x);
    RowIs(rows, y);
    assert Climb(rows, x.made.value, 1) == y.made by { assert Climb(rows, x.made.value, 0) == x.made; }
    assert Reaches(rows, x, 2);
    ImportKeepsForestIff(h, rows);
  }

  lemma RowIs(rows: seq<Row>, row: Row)
    requires DistinctIds(rows) && row in rows && IsIssue(row)
    ensures RowOf(rows, row.made.value) == Some(row)
  {
    var r := RowOf(rows, row.made.value).value;
    var i :| 0 <= i < |rows| && rows[i] == row;
    var j :| 0 <= j < |rows| && rows[j] == r;
    SameRow(rows, i, j);
  }

  // --- an import among the other work ----------------------------------------

  // The work that an import does: it creates its issues, then it writes its links.
  function Creates(rows: seq<Row>): seq<Hierarchy.Work> {
    if rows == [] then [] else
    var n := |rows| - 1;
    Creates(rows[..n]) + if IsIssue(rows[n]) then [Hierarchy.Handle(Hierarchy.Create(None))] else []
  }

  function LinkWork(links: seq<ImportLinks.Link>): seq<Hierarchy.Work> {
    if links == [] then [] else
    var (n, k) := (|links| - 1, links[|links| - 1]);
    LinkWork(links[..n]) + if k.parent.Some? then [Hierarchy.Link(k.issue, k.parent.value)] else []
  }

  function ImportWork(rows: seq<Row>): seq<Hierarchy.Work> {
    Creates(rows) + LinkWork(ImportLinks.LinksOf(rows, rows))
  }

  // The issues get the next ids, in the order of their rows.
  ghost predicate Numbered(rows: seq<Row>, next: nat) {
    forall i :: 0 <= i < |rows| && IsIssue(rows[i]) ==> rows[i].made == Some(next + |Creates(rows[..i])|)
  }

  lemma WorkOne(b: Hierarchy.Board, w: Hierarchy.Work)
    ensures Hierarchy.WorkAll(b, [w]) == Hierarchy.WorkStep(b, w)
  {
    hide Hierarchy.WorkStep;
    assert [w][..0] == [];
  }

  lemma CreateRoot(b: Hierarchy.Board)
    ensures Hierarchy.WorkStep(b, Hierarchy.Handle(Hierarchy.Create(None)))
            == b.(project := Hierarchy.Insert(b.project, None))
  {
  }

  lemma {:induction false} CreatesRun(b: Hierarchy.Board, rows: seq<Row>)
    requires Numbered(rows, b.project.next)
    ensures Hierarchy.WorkAll(b, Creates(rows))
            == b.(project := Hierarchy.Project(WithCreated(b.project.issues, rows), b.project.next + |Creates(rows)|))
  {
    if rows != [] {
      hide Hierarchy.WorkAll, Hierarchy.WorkStep, IsIssue;
      var n := |rows| - 1;
      forall i | 0 <= i < n && IsIssue(rows[i])
        ensures rows[..n][i].made == Some(b.project.next + |Creates(rows[..n][..i])|)
      {
        assert rows[..n][..i] == rows[..i];
      }
      CreatesRun(b, rows[..n]);
      if IsIssue(rows[n]) {
        var b1 := Hierarchy.WorkAll(b, Creates(rows[..n]));
        Hierarchy.WorkAllSplits(b, Creates(rows[..n]), [Hierarchy.Handle(Hierarchy.Create(None))]);
        WorkOne(b1, Hierarchy.Handle(Hierarchy.Create(None)));
        CreateRoot(b1);
      } else {
        assert Creates(rows) == Creates(rows[..n]);
      }
    }
  }

  ghost predicate LinksFit(h: Issues, links: seq<ImportLinks.Link>) {
    forall k <- links :: k.parent.Some? ==> k.issue in h && k.parent.value in h
  }

  lemma {:induction false} LinksRun(b: Hierarchy.Board, links: seq<ImportLinks.Link>)
    requires LinksFit(b.project.issues, links)
    ensures Hierarchy.WorkAll(b, LinkWork(links))
            == b.(project := b.project.(issues := WithLinks(b.project.issues, links)))
  {
    if links != [] {
      hide Hierarchy.WorkAll;
      var (n, k) := (|links| - 1, links[|links| - 1]);
      LinksRun(b, links[..n]);
      if k.parent.Some? {
        var w := Hierarchy.Link(k.issue, k.parent.value);
        Hierarchy.WorkAllSplits(b, LinkWork(links[..n]), [w]);
        WorkOne(Hierarchy.WorkAll(b, LinkWork(links[..n])), w);
        LinkedHas(b.project.issues, links[..n], k.issue);
        LinkedHas(b.project.issues, links[..n], k.parent.value);
      } else {
        assert LinkWork(links) == LinkWork(links[..n]);
      }
    }
  }

  lemma LinksFitCreated(h: Issues, rows: seq<Row>)
    ensures LinksFit(WithCreated(h, rows), ImportLinks.LinksOf(rows, rows))
  {
    hide WithCreated, ImportLinks.LinksOf, ImportLinks.IsEpic;
    forall k <- ImportLinks.LinksOf(rows, rows) | k.parent.Some?
      ensures k.issue in WithCreated(h, rows) && k.parent.value in WithCreated(h, rows)
    {
      ImportLinks.LinksStayInside(rows, rows, k);
      CreatedHas(h, rows, k.issue);
      CreatedHas(h, rows, k.parent.value);
    }
  }

  lemma ImportIsWork(b: Hierarchy.Board, rows: seq<Row>)
    requires Numbered(rows, b.project.next)
    ensures Hierarchy.WorkAll(b, ImportWork(rows)).project.issues == Imported(b.project.issues, rows)
  {
    hide Hierarchy.WorkAll, WithCreated, WithLinks, LinkWork, Creates, ImportLinks.LinksOf;
    CreatesRun(b, rows);
    LinksFitCreated(b.project.issues, rows);
    Hierarchy.WorkAllSplits(b, Creates(rows), LinkWork(ImportLinks.LinksOf(rows, rows)));
    LinksRun(Hierarchy.WorkAll(b, Creates(rows)), ImportLinks.LinksOf(rows, rows));
  }

  /** An import that nothing interrupts, at any point of a run that has kept the forest, keeps it
    * exactly when no created issue reaches itself through the rows' parent references.
    */
  lemma {:induction false} ImportRunKeepsForestIff(work: seq<Hierarchy.Work>, rows: seq<Row>)
    requires var b := Hierarchy.WorkAll(Hierarchy.EMPTY_BOARD, work);
             && Hierarchy.Forest(b.project.issues) && Numbered(rows, b.project.next)
             && DistinctIds(rows) && NewIds(b.project.issues, rows)
    ensures Hierarchy.Forest(Hierarchy.WorkAll(Hierarchy.EMPTY_BOARD, work + ImportWork(rows)).project.issues)
            <==> NoReferenceCycle(rows)
  {
    hide Hierarchy.WorkAll, Hierarchy.Forest, ImportWork, Imported, NoReferenceCycle, DistinctIds, NewIds, Numbered;
    var b := Hierarchy.WorkAll(Hierarchy.EMPTY_BOARD, work);
    Hierarchy.WorkAllSplits(Hierarchy.EMPTY_BOARD, work, ImportWork(rows));
    ImportIsWork(b, rows);
    ImportKeepsForestIff(b.project.issues, rows);
  }
}
