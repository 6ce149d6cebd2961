/** The issue hierarchy of one project: creating, moving, deleting, and the guard against cycles.
  *
  * The guard walks up from the new parent, but only through the first `WALK_LIMIT` issues, and
  * only through live ones.
  */
module Hierarchy {
  import opened Text

  type Id = nat

  datatype Issue = Issue(parent: Option<Id>, live: bool)

  type Issues = map<Id, Issue>

  const WALK_LIMIT: nat := 100

  predicate Live(h: Issues, x: Id) {
    x in h && h[x].live
  }

  function LiveParent(h: Issues, x: Id): (p: Option<Id>)
    ensures p.Some? ==> Live(h, p.value) && Live(h, x)
  {
    if Live(h, x) && h[x].parent.Some? && Live(h, h[x].parent.value) then h[x].parent else None
  }

  // The live issues from `x` upwards, at most `limit` of them.
  function Chain(h: Issues, x: Id, limit: nat): seq<Id>
    decreases limit
  {
    if limit == 0 || !Live(h, x) then [] else
    [x] + match LiveParent(h, x) case None => [] case Some(p) => Chain(h, p, limit - 1)
  }

  predicate ParentChainContains(h: Issues, start: Id, needle: Id) {
    needle in Chain(h, start, WALK_LIMIT)
  }

  // --- requests --------------------------------------------------------------

  datatype Action =
    | Create(parent: Option<Id>)
    | BulkCreate(parents: seq<Option<Id>>)
    | Update(id: Id, parent: Option<Id>)
    | SoftDelete(id: Id)
    | Purge(id: Id)

  datatype Project = Project(issues: Issues, next: Id)

  const EMPTY := Project(map[], 0)

  predicate ParentAllowed(h: Issues, parent: Option<Id>) {
    parent.Some? ==> Live(h, parent.value)
  }

  function Insert(pr: Project, parent: Option<Id>): Project {
    Project(pr.issues[pr.next := Issue(parent, true)], pr.next + 1)
  }

  function InsertAll(pr: Project, parents: seq<Option<Id>>): Project
    decreases |parents|
  {
    if parents == [] then pr else InsertAll(Insert(pr, parents[0]), parents[1..])
  }

  // Does the update of `id` pass every check on its parent?
  predicate MoveAccepted(h: Issues, id: Id, parent: Option<Id>) {
    && Live(h, id)
    && (parent != h[id].parent ==> ParentAllowed(h, parent))
    && parent != Some(id)
    && (parent != h[id].parent && parent.Some? ==> !ParentChainContains(h, parent.value, id))
  }

  function Moved(h: Issues, id: Id, parent: Option<Id>): Issues
    requires id in h
  {
    h[id := h[id].(parent := parent)]
  }

  // A purged row takes its children's references with it (`ON DELETE SET NULL`).
  function Purged(h: Issues, id: Id): Issues {
    map x <- h | x != id :: if h[x].parent == Some(id) then h[x].(parent := None) else h[x]
  }

  function Step(pr: Project, a: Action): Project {
    match a
    case Create(parent) => if ParentAllowed(pr.issues, parent) then Insert(pr, parent) else pr
    case BulkCreate(parents) =>
      if forall p <- parents :: ParentAllowed(pr.issues, p) then InsertAll(pr, parents) else pr
    case Update(id, parent) =>
      if MoveAccepted(pr.issues, id, parent) then pr.(issues := Moved(pr.issues, id, parent)) else pr
    case SoftDelete(id) =>
      if Live(pr.issues, id) then pr.(issues := pr.issues[id := pr.issues[id].(live := false)]) else pr
    case Purge(id) =>
      if id in pr.issues && !pr.issues[id].live then pr.(issues := Purged(pr.issues, id)) else pr
  }

  function Run(pr: Project, acts: seq<Action>): Project {
    if acts == [] then pr else Step(Run(pr, acts[..|acts| - 1]), acts[|acts| - 1])
  }

  // --- ancestors -------------------------------------------------------------

  // The `n`-th live ancestor; the zeroth is the issue itself.
  function Nth(h: Issues, x: Id, n: nat): (r: Option<Id>)
    ensures r.Some? ==> Live(h, r.value)
  {
    if n == 0 then (if Live(h, x) then Some(x) else None) else
    match Nth(h, x, n - 1) case None => None case Some(y) => LiveParent(h, y)
  }

  ghost predicate IsNth(h: Issues, x: Id, n: nat, y: Id) {
    Nth(h, x, n) == Some(y)
  }

  // No live issue is its own ancestor.
  ghost predicate Forest(h: Issues) {
    forall x: Id, n: nat :: n > 0 ==> Nth(h, x, n) != Some(x)
  }

  // The chain above `x` ends within `limit` issues.
  ghost predicate Shallow(h: Issues, x: Id, limit: nat) {
    Nth(h, x, limit) == None
  }

  lemma {:induction false} NthAdd(h: Issues, x: Id, a: nat, b: nat)
    ensures Nth(h, x, a + b) == match Nth(h, x, a) case None => None case Some(y) => Nth(h, y, b)
  {
    if b > 0 {
      NthAdd(h, x, a, b - 1);
    }
  }

  lemma {:induction false} ChainIsNth(h: Issues, x: Id, limit: nat)
    ensures |Chain(h, x, limit)| <= limit
    ensures forall n: nat :: n < limit ==>
              (Nth(h, x, n).Some? <==> n < |Chain(h, x, limit)|)
              && (n < |Chain(h, x, limit)| ==> Nth(h, x, n) == Some(Chain(h, x, limit)[n]))
    decreases limit
  {
    if limit > 0 && Live(h, x) && LiveParent(h, x).Some? {
      var p := LiveParent(h, x).value;
      ChainIsNth(h, p, limit - 1);
      forall n: nat | 0 < n < limit ensures Nth(h, x, n) == Nth(h, p, n - 1) {
        NthAdd(h, x, 1, n - 1);
        assert Nth(h, x, 1) == Some(p);
      }
    } else if limit > 0 {
      forall n: nat | 0 < n < limit ensures Nth(h, x, n) == None {
        NthAdd(h, x, 1, n - 1);
        assert Nth(h, x, 1) == None;
      }
    }
  }

  // --- the walk ends exactly in a forest -------------------------------------

  ghost predicate Injective(s: seq<Id>) {
    forall i, j :: 0 <= i < j < |s| ==> s[i] != s[j]
  }

  lemma {:induction false} Pigeonhole(s: seq<Id>, keys: set<Id>)
    requires Injective(s) && forall x <- s :: x in keys
    ensures |s| <= |keys|
  {
    if s != [] {
      var n := |s| - 1;
      assert s == s[..n] + [s[n]];
      Pigeonhole(s[..n], keys - {s[n]});
    }
  }

  lemma ForestChainInjective(h: Issues, x: Id, limit: nat)
    requires Forest(h)
    ensures Injective(Chain(h, x, limit))
  {
    ChainIsNth(h, x, limit);
    var c := Chain(h, x, limit);
    forall i, j | 0 <= i < j < |c| ensures c[i] != c[j] {
      NthAdd(h, x, i, j - i);
      assert Nth(h, x, i) == Some(c[i]) && Nth(h, x, j) == Some(c[j]);
    }
  }

  /** The walk up from an issue ends by itself, whatever the limit, exactly when the hierarchy is
    * a forest: otherwise some walk is longer than there are issues.
    */
  lemma WalkEndsIffForest(h: Issues)
    ensures Forest(h) <==> forall x: Id, limit: nat :: |Chain(h, x, limit)| <= |h|
  {
    if Forest(h) {
      forall x: Id, limit: nat ensures |Chain(h, x, limit)| <= |h| {
        ForestChainInjective(h, x, limit);
        ChainInIssues(h, x, limit);
        Pigeonhole(Chain(h, x, limit), h.Keys);
      }
    } else {
      var x: Id, n: nat :| n > 0 && Nth(h, x, n) == Some(x);
      CycleNeverEnds(h, x, n, |h|);
      ChainIsNth(h, x, |h| + 1);
      assert |Chain(h, x, |h| + 1)| == |h| + 1;
    }
  }

  lemma {:induction false} ChainInIssues(h: Issues, x: Id, limit: nat)
    ensures forall y <- Chain(h, x, limit) :: y in h.Keys
    decreases limit
  {
    if limit > 0 && Live(h, x) && LiveParent(h, x).Some? {
      ChainInIssues(h, LiveParent(h, x).value, limit - 1);
    }
  }

  lemma {:induction false} CycleNeverEnds(h: Issues, x: Id, n: nat, m: nat)
    requires n > 0 && Nth(h, x, n) == Some(x)
    ensures Nth(h, x, m).Some?
    decreases m
  {
    if m <= n {
      NthAdd(h, x, m, n - m);
    } else {
      CycleNeverEnds(h, x, n, m - n);
      NthAdd(h, x, n, m - n);
    }
  }

  // --- moves -----------------------------------------------------------------

  // A move leaves a chain alone up to the point where it meets the moved issue.
  lemma {:induction false} SameUntilMoved(h: Issues, id: Id, p: Id, x: Id, m: nat)
    requires id in h && Live(h, id)
    requires forall k: nat :: k < m ==> !IsNth(h, x, k, id)
    ensures Nth(Moved(h, id, Some(p)), x, m) == Nth(h, x, m)
  {
    if m > 0 {
      SameUntilMoved(h, id, p, x, m - 1);
      assert !IsNth(h, x, m - 1, id);
    }
  }

  lemma {:induction false} LeastHit(h: Issues, x: Id, y: Id, n: nat) returns (m: nat)
    requires Nth(h, x, n) == Some(y)
    ensures m <= n && Nth(h, x, m) == Some(y) && forall k: nat :: k < m ==> !IsNth(h, x, k, y)
  {
    if k: nat :| k < n && IsNth(h, x, k, y) {
      m := LeastHit(h, x, y, k);
    } else {
      m := n;
    }
  }

  // Moving `id` under `p` keeps a forest exactly when `id` is not an ancestor of `p`, or `p`.
  lemma MoveKeepsForestIff(h: Issues, id: Id, p: Id)
    requires Forest(h) && Live(h, id) && Live(h, p)
    ensures Forest(Moved(h, id, Some(p))) <==> forall n: nat :: !IsNth(h, p, n, id)
  {
    var h' := Moved(h, id, Some(p));
    if n: nat :| IsNth(h, p, n, id) {
      var m := LeastHit(h, p, id, n);
      SameUntilMoved(h, id, p, p, m);
      NthAdd(h', id, 1, m);
      assert Nth(h', id, 1) == Some(p);
      assert Nth(h', id, m + 1) == Some(id);
    } else {
      forall n: nat ensures !IsNth(h', p, n, id) {
        SameUntilMoved(h, id, p, p, n);
        assert !IsNth(h, p, n, id);
      }
      forall x: Id, n: nat | n > 0 ensures Nth(h', x, n) != Some(x) {
        if Nth(h', x, n) == Some(x) {
          NewCycleReachesMoved(h, id, p, x, n);
        }
      }
    }
  }

  // A cycle of the new hierarchy runs through the moved issue, so it can be met from `p`.
  lemma NewCycleReachesMoved(h: Issues, id: Id, p: Id, x: Id, n: nat)
    requires Forest(h) && Live(h, id) && Live(h, p) && n > 0
    requires Nth(Moved(h, id, Some(p)), x, n) == Some(x)
    ensures exists k: nat :: IsNth(Moved(h, id, Some(p)), p, k, id)
  {
    var h' := Moved(h, id, Some(p));
    if forall k: nat :: k < n ==> !IsNth(h, x, k, id) {
      SameUntilMoved(h, id, p, x, n);
    } else {
      var j0: nat :| j0 < n && IsNth(h, x, j0, id);
      var j := LeastHit(h, x, id, j0);
      SameUntilMoved(h, id, p, x, j);
      NthAdd(h', x, j, 1);
      assert Nth(h', id, 1) == Some(p);
      NthAdd(h', x, j + 1, n - j - 1);
      NthAdd(h', p, n - j - 1, j);
      assert IsNth(h', p, n - 1, id);
    }
  }

  // What the guard lets through is safe unless the moved issue sits above `p` beyond its reach.
  lemma GuardSeesNearAncestors(h: Issues, id: Id, p: Id)
    ensures ParentChainContains(h, p, id) <==> exists n: nat :: n < 100 && IsNth(h, p, n, id)
  {
    ChainIsNth(h, p, WALK_LIMIT);
    var c := Chain(h, p, WALK_LIMIT);
    hide Chain;
    if id in c {
      var i: nat :| i < |c| && c[i] == id;
      assert IsNth(h, p, i, id);
    }
    if n: nat :| n < WALK_LIMIT && IsNth(h, p, n, id) {
      assert c[n] == id;
    }
  }

  lemma BeyondTheEnd(h: Issues, x: Id, limit: nat, n: nat)
    requires Shallow(h, x, limit) && limit <= n
    ensures Nth(h, x, n) == None
  {
    NthAdd(h, x, limit, n - limit);
  }

  /** Exactly when the chain above `p`, counting `p`, has at most `WALK_LIMIT` issues does every
    * move under `p` that the guard accepts keep the hierarchy a forest.
    */
  lemma GuardSufficesIff(h: Issues, p: Id)
    requires Forest(h) && Live(h, p)
    ensures Shallow(h, p, 100)
            <==> forall id: Id :: MoveAccepted(h, id, Some(p)) ==> Forest(Moved(h, id, Some(p)))
  {
    if Shallow(h, p, WALK_LIMIT) {
      forall id: Id | MoveAccepted(h, id, Some(p)) ensures Forest(Moved(h, id, Some(p))) {
        ShallowMoveKeepsForest(h, id, p);
      }
    } else {
      var id := Nth(h, p, WALK_LIMIT).value;
      FarAncestorIsAccepted(h, id, p);
      MoveKeepsForestIff(h, id, p);
      assert IsNth(h, p, WALK_LIMIT, id);
    }
  }

  lemma ShallowMoveKeepsForest(h: Issues, id: Id, p: Id)
    requires Forest(h) && MoveAccepted(h, id, Some(p))
    requires Live(h, p) ==> Shallow(h, p, WALK_LIMIT)
    ensures Forest(Moved(h, id, Some(p)))
  {
    if h[id].parent == Some(p) {
      assert Moved(h, id, Some(p)) == h;
    } else {
      MoveKeepsForestIff(h, id, p);
      GuardSeesNearAncestors(h, id, p);
      forall n: nat ensures !IsNth(h, p, n, id) {
        if n >= WALK_LIMIT {
          BeyondTheEnd(h, p, WALK_LIMIT, n);
        }
      }
    }
  }

  lemma ParentIsFirst(h: Issues, id: Id, p: Id)
    requires Live(h, id) && Live(h, p) && h[id].parent == Some(p)
    ensures Nth(h, id, 1) == Some(p)
  {
    assert Nth(h, id, 0) == Some(id);
  }

  // The ancestor just out of the guard's reach may be moved under its own descendant.
  lemma FarAncestorIsAccepted(h: Issues, id: Id, p: Id)
    requires Forest(h) && Live(h, p) && Nth(h, p, WALK_LIMIT) == Some(id)
    ensures MoveAccepted(h, id, Some(p))
  {
    GuardSeesNearAncestors(h, id, p);
    forall n: nat | n < WALK_LIMIT ensures !IsNth(h, p, n, id) {
      NthAdd(h, p, n, WALK_LIMIT - n);
    }
    NthAdd(h, p, WALK_LIMIT, 1);
    assert Nth(h, id, 1) != Some(p);
    if h[id].parent == Some(p) {
      ParentIsFirst(h, id, p);
    }
    assert Nth(h, p, 0) == Some(p);
  }

  /** Under an issue within its reach the guard is exact: it accepts a move just when the move
    * keeps the hierarchy a forest.
    */
  lemma GuardIsExact(h: Issues, id: Id, p: Id)
    requires Forest(h) && Live(h, id) && Live(h, p) && Shallow(h, p, 100)
    ensures MoveAccepted(h, id, Some(p)) <==> Forest(Moved(h, id, Some(p)))
  {
    if MoveAccepted(h, id, Some(p)) {
      ShallowMoveKeepsForest(h, id, p);
    } else {
      MoveKeepsForestIff(h, id, p);
      GuardSeesNearAncestors(h, id, p);
      assert IsNth(h, p, 0, p);
      hide Forest, Moved;
    }
  }

  // A move is accepted of a live issue, under itself never, and under a new parent if that is live
  // and the issue is not among the first 100 from it upwards.
  lemma MoveAcceptedIff(h: Issues, id: Id, parent: Option<Id>)
    ensures MoveAccepted(h, id, parent)
            <==> && id in h && h[id].live && parent != Some(id)
                 && (parent == h[id].parent || parent == None
                     || (&& parent.value in h && h[parent.value].live
                         && forall n: nat :: n < 100 ==> !IsNth(h, parent.value, n, id)))
  {
    if parent.Some? {
      GuardSeesNearAncestors(h, id, parent.value);
    }
    hide ParentChainContains;
  }

  // A deletion hides a live issue and keeps its parent; a purge takes a hidden one away, and its
  // children's references with it.
  lemma DeletionsLeave(pr: Project, id: Id)
    ensures var (pr', h, h') := (Step(pr, SoftDelete(id)), pr.issues, Step(pr, SoftDelete(id)).issues);
            && pr'.next == pr.next && h'.Keys == h.Keys
            && (forall x <- h :: x != id ==> h'[x] == h[x])
            && (id in h ==> h'[id] == Issue(h[id].parent, false))
    ensures var (pr', h, h') := (Step(pr, Purge(id)), pr.issues, Step(pr, Purge(id)).issues);
            && pr'.next == pr.next
            && (id in h && !h[id].live ==>
                  && h'.Keys == h.Keys - {id}
                  && forall x <- h' ::
                       h'[x] == Issue(if h[x].parent == Some(id) then None else h[x].parent, h[x].live))
            && (id in h && h[id].live ==> h' == h)
  {
  }

  // --- runs ------------------------------------------------------------------

  // Every live-parent link of `g` is one of `h`.
  lemma {:induction false} FewerLinksNth(g: Issues, h: Issues, x: Id, n: nat)
    requires forall y: Id :: Live(g, y) ==> Live(h, y)
    requires forall y: Id :: LiveParent(g, y).Some? ==> LiveParent(h, y) == LiveParent(g, y)
    ensures Nth(g, x, n).Some? ==> Nth(h, x, n) == Nth(g, x, n)
  {
    if n > 0 {
      FewerLinksNth(g, h, x, n - 1);
    }
  }

  lemma FewerLinksForest(g: Issues, h: Issues)
    requires Forest(h)
    requires forall y: Id :: Live(g, y) ==> Live(h, y)
    requires forall y: Id :: LiveParent(g, y).Some? ==> LiveParent(h, y) == LiveParent(g, y)
    ensures Forest(g)
  {
    forall x: Id, n: nat | n > 0 ensures Nth(g, x, n) != Some(x) {
      FewerLinksNth(g, h, x, n);
    }
  }

  // Ids are handed out in order, and no issue refers to one that is still to come.
  ghost predicate Fresh(pr: Project) {
    forall x <- pr.issues :: x < pr.next && (pr.issues[x].parent.Some? ==> pr.issues[x].parent.value < pr.next)
  }

  lemma InsertKeepsForest(pr: Project, parent: Option<Id>)
    requires Fresh(pr) && Forest(pr.issues) && (parent.Some? ==> parent.value < pr.next)
    ensures Fresh(Insert(pr, parent)) && Forest(Insert(pr, parent).issues)
  {
    var h, g, new_ := pr.issues, Insert(pr, parent).issues, pr.next;
    forall x: Id, n: nat | n > 0 ensures Nth(g, x, n) != Some(x) {
      NothingAboveIsNew(pr, parent, x, n);
    }
  }

  lemma {:induction false} NothingAboveIsNew(pr: Project, parent: Option<Id>, x: Id, n: nat)
    requires Fresh(pr) && Forest(pr.issues) && n > 0 && (parent.Some? ==> parent.value < pr.next)
    ensures var g := Insert(pr, parent).issues;
            && Nth(g, x, n) != Some(pr.next)
            && (x != pr.next ==> Nth(g, x, n) == Nth(pr.issues, x, n))
  {
    if n > 1 {
      NothingAboveIsNew(pr, parent, x, n - 1);
    }
  }

  lemma {:induction false} InsertAllKeepsForest(pr: Project, parents: seq<Option<Id>>)
    requires Fresh(pr) && Forest(pr.issues)
    requires forall p <- parents :: p.Some? ==> p.value < pr.next
    ensures Fresh(InsertAll(pr, parents)) && Forest(InsertAll(pr, parents).issues)
    decreases |parents|
  {
    if parents != [] {
      assert parents[0] in parents;
      InsertKeepsForest(pr, parents[0]);
      InsertAllKeepsForest(Insert(pr, parents[0]), parents[1..]);
    }
  }

  // The move, if the action is one, is under an issue the guard can see to the end of.
  ghost predicate WithinReach(pr: Project, a: Action) {
    a.Update? && a.parent.Some? && Live(pr.issues, a.parent.value) ==>
      Shallow(pr.issues, a.parent.value, 100)
  }

  lemma UpdateKeepsForest(pr: Project, id: Id, parent: Option<Id>)
    requires Fresh(pr) && Forest(pr.issues) && WithinReach(pr, Update(id, parent))
    ensures Fresh(Step(pr, Update(id, parent))) && Forest(Step(pr, Update(id, parent)).issues)
  {
    hide Shallow;
    var h := pr.issues;
    if MoveAccepted(h, id, parent) {
      if parent.Some? {
        ShallowMoveKeepsForest(h, id, parent.value);
      } else {
        FewerLinksForest(Moved(h, id, None), h);
      }
    }
  }

  lemma StepKeepsForest(pr: Project, a: Action)
    requires Fresh(pr) && Forest(pr.issues) && WithinReach(pr, a)
    ensures Fresh(Step(pr, a)) && Forest(Step(pr, a).issues)
  {
    hide Forest, Shallow;
    match a
    case Create(parent) =>
      if ParentAllowed(pr.issues, parent) { InsertKeepsForest(pr, parent); }
    case BulkCreate(parents) =>
      if forall p <- parents :: ParentAllowed(pr.issues, p) { InsertAllKeepsForest(pr, parents); }
    case Update(id, parent) => UpdateKeepsForest(pr, id, parent);
    case SoftDelete(id) => FewerLinksForest(Step(pr, a).issues, pr.issues);
    case Purge(id) => FewerLinksForest(Step(pr, a).issues, pr.issues);
  }

  ghost predicate AllWithinReach(acts: seq<Action>) {
    forall i :: 0 <= i < |acts| ==> WithinReach(Run(EMPTY, acts[..i]), acts[i])
  }

  /** Over any run of creates, bulk creates, updates, deletions and purges handled one at a time
    * in which each move is under an issue at most `WALK_LIMIT` deep, the hierarchy is a forest.
    */
  lemma {:induction false} RunKeepsForest(acts: seq<Action>)
    requires AllWithinReach(acts)
    ensures Fresh(Run(EMPTY, acts)) && Forest(Run(EMPTY, acts).issues)
  {
    if acts == [] {
      forall x: Id, n: nat ensures Nth(map[], x, n) == None { NothingInNothing(x, n); }
    } else {
      var n := |acts| - 1;
      forall i | 0 <= i < n ensures WithinReach(Run(EMPTY, acts[..n][..i]), acts[..n][i]) {
        assert acts[..n][..i] == acts[..i];
      }
      hide Step, Forest, WithinReach;
      RunKeepsForest(acts[..n]);
      StepKeepsForest(Run(EMPTY, acts[..n]), acts[n]);
    }
  }

  lemma {:induction false} NothingInNothing(x: Id, n: nat)
    ensures Nth(map[], x, n) == None
  {
    if n > 0 {
      NothingInNothing(x, n - 1);
    }
  }

  // --- how far the promise carries -------------------------------------------

  lemma SmallForestIsShallow(h: Issues, x: Id)
    requires Forest(h) && |h| <= WALK_LIMIT
    ensures Shallow(h, x, WALK_LIMIT)
  {
    WalkEndsIffForest(h);
    ChainIsNth(h, x, WALK_LIMIT + 1);
    assert |Chain(h, x, WALK_LIMIT + 1)| <= |h|;
  }

  ghost predicate StaysSmall(acts: seq<Action>) {
    forall i :: 0 <= i <= |acts| ==> |Run(EMPTY, acts[..i]).issues| <= 100
  }

  /** A project of at most `WALK_LIMIT` issues never gets a cycle, whatever the requests. */
  lemma {:induction false} SmallProjectsStayForests(acts: seq<Action>)
    requires StaysSmall(acts)
    ensures AllWithinReach(acts) && Forest(Run(EMPTY, acts).issues)
  {
    forall i | 0 <= i < |acts| ensures WithinReach(Run(EMPTY, acts[..i]), acts[i]) {
      forall j | 0 <= j <= i ensures acts[..i][..j] == acts[..j] {}
      SmallProjectsStayForests(acts[..i]);
      var pr, a := Run(EMPTY, acts[..i]), acts[i];
      if a.Update? && a.parent.Some? {
        SmallForestIsShallow(pr.issues, a.parent.value);
      }
    }
    RunKeepsForest(acts);
  }

  // The requests that create `n` issues, each under the one before.
  function Ladder(n: nat): seq<Action> {
    if n == 0 then [] else Ladder(n - 1) + [Create(if n == 1 then None else Some(n - 2))]
  }

  function Rungs(n: nat): (h: Issues)
    ensures forall i: nat :: i < n ==> i in h && h[i] == Issue(if i == 0 then None else Some(i - 1), true)
    ensures forall i <- h :: i < n
  {
    if n == 0 then map[] else Rungs(n - 1)[n - 1 := Issue(if n == 1 then None else Some(n - 2), true)]
  }

  lemma {:induction false} LadderRuns(n: nat)
    ensures Run(EMPTY, Ladder(n)) == Project(Rungs(n), n)
  {
    if n > 0 {
      LadderRuns(n - 1);
      LadderLength(n);
      LadderLength(n - 1);
      assert Ladder(n)[..n - 1] == Ladder(n - 1);
    }
  }

  lemma LadderWithinReach(n: nat)
    ensures AllWithinReach(Ladder(n))
  {
    forall i | 0 <= i < |Ladder(n)| ensures WithinReach(Run(EMPTY, Ladder(n)[..i]), Ladder(n)[i]) {
      LadderCreates(n, i);
    }
  }

  lemma {:induction false} LadderLength(n: nat)
    ensures |Ladder(n)| == n
  {
    if n > 0 { LadderLength(n - 1); }
  }

  lemma {:induction false} LadderCreates(n: nat, i: nat)
    requires i < |Ladder(n)|
    ensures Ladder(n)[i].Create?
  {
    if i < |Ladder(n)| - 1 { LadderCreates(n - 1, i); }
  }

  lemma {:induction false} RungAbove(n: nat, x: Id, k: nat)
    requires k <= x < n
    ensures Nth(Rungs(n), x, k) == Some(x - k)
  {
    if k > 0 { RungAbove(n, x, k - 1); }
  }

  /** Without the bound the promise fails: after a chain of `WALK_LIMIT + 1` issues the server
    * accepts the move of its root under its last issue.
    */
  lemma DeepMoveClosesACycle() returns (acts: seq<Action>, a: Action)
    ensures Forest(Run(EMPTY, acts).issues) && !Forest(Run(EMPTY, acts + [a]).issues)
  {
    var n := WALK_LIMIT + 1;
    acts, a := Ladder(n), Update(0, Some(WALK_LIMIT));
    LadderRuns(n);
    LadderWithinReach(n);
    RunKeepsForest(acts);
    var h := Rungs(n);
    RungAbove(n, WALK_LIMIT, WALK_LIMIT);
    RungAbove(n, WALK_LIMIT, 0);
    FarAncestorIsAccepted(h, 0, WALK_LIMIT);
    MoveKeepsForestIff(h, 0, WALK_LIMIT);
    assert IsNth(h, WALK_LIMIT, WALK_LIMIT, 0);
    assert (acts + [a])[..|acts|] == acts;
    assert Run(EMPTY, acts + [a]).issues == Moved(h, 0, Some(WALK_LIMIT)) by { hide Forest, Nth, Ladder; }
  }

  // --- moves handled at the same time ----------------------------------------

  /** Two moves that each keep the forest close a cycle together exactly when each moved issue is
    * above the other's new parent, or is it.
    */
  lemma MovesCloseACycleIff(h: Issues, a: Id, p: Id, b: Id, q: Id)
    requires Forest(h) && a != b && Live(h, a) && Live(h, p) && Live(h, b) && Live(h, q)
    requires Forest(Moved(h, a, Some(p))) && Forest(Moved(h, b, Some(q)))
    ensures !Forest(Moved(Moved(h, a, Some(p)), b, Some(q)))
            <==> (exists n: nat :: IsNth(h, q, n, a)) && (exists m: nat :: IsNth(h, p, m, b))
  {
    var g := Moved(h, a, Some(p));
    MoveKeepsForestIff(h, a, p);
    MoveKeepsForestIff(h, b, q);
    MoveKeepsForestIff(g, b, q);
    if n: nat :| IsNth(h, q, n, a) {
      var j := LeastHit(h, q, a, n);
      if k: nat :| IsNth(g, q, k, b) {
        if k <= j {
          SameUpTo(h, a, p, b, q, j, k);
        } else {
          PathThroughMoved(h, a, p, b, q, j, k - j - 1);
        }
      }
      if m: nat :| IsNth(h, p, m, b) {
        PathThroughMoved(h, a, p, b, q, j, m);
      }
    } else {
      forall k: nat ensures !IsNth(g, q, k, b) {
        SameUntilMoved(h, a, p, q, k);
        assert !IsNth(h, q, k, b);
      }
    }
  }

  // Up to the moved issue the walk is the old one.
  lemma SameUpTo(h: Issues, a: Id, p: Id, b: Id, q: Id, j: nat, k: nat)
    requires Live(h, a) && k <= j && forall n: nat :: n < j ==> !IsNth(h, q, n, a)
    ensures IsNth(Moved(h, a, Some(p)), q, k, b) <==> IsNth(h, q, k, b)
  {
    SameUntilMoved(h, a, p, q, k);
  }

  // From the moved issue on it is that from the new parent.
  lemma PathThroughMoved(h: Issues, a: Id, p: Id, b: Id, q: Id, j: nat, m: nat)
    requires Live(h, a) && Live(h, p) && Nth(h, q, j) == Some(a)
    requires forall n: nat :: n < j ==> !IsNth(h, q, n, a)
    requires forall n: nat :: !IsNth(h, p, n, a)
    ensures IsNth(Moved(h, a, Some(p)), q, j + 1 + m, b) <==> IsNth(h, p, m, b)
  {
    var g := Moved(h, a, Some(p));
    SameUntilMoved(h, a, p, q, j);
    NewParentIsNext(h, a, p, q, j);
    NthAdd(g, q, j + 1, m);
    SameUntilMoved(h, a, p, p, m);
    hide Nth, Moved;
  }

  lemma NewParentIsNext(h: Issues, a: Id, p: Id, q: Id, j: nat)
    requires Live(h, a) && Live(h, p) && Nth(Moved(h, a, Some(p)), q, j) == Some(a)
    ensures Nth(Moved(h, a, Some(p)), q, j + 1) == Some(p)
  {
  }

  // An update in two steps: what was checked, and the version of the row it was checked on. A link
  // of an import is written with no check, and neither asks for the version nor changes it.
  datatype Move = Move(id: Id, parent: Option<Id>, version: nat)

  datatype Board = Board(project: Project, versions: map<Id, nat>, moves: seq<Move>)

  datatype Work =
    | Handle(action: Action)
    | CheckMove(id: Id, parent: Option<Id>)
    | WriteMove(move: nat)
    | Link(id: Id, under: Id)

  function VersionOf(b: Board, id: Id): nat {
    if id in b.versions then b.versions[id] else 1
  }

  // Does the guarded write go through?
  predicate Applies(b: Board, m: Move) {
    Live(b.project.issues, m.id) && VersionOf(b, m.id) == m.version
  }

  function Written(b: Board, m: Move): Board {
    if !Applies(b, m) then b else
    b.(project := b.project.(issues := Moved(b.project.issues, m.id, m.parent)),
       versions := b.versions[m.id := m.version + 1])
  }

  function WorkStep(b: Board, w: Work): Board {
    match w
    case Handle(a) => if a.Update? then b else b.(project := Step(b.project, a))
    case CheckMove(id, parent) =>
      if MoveAccepted(b.project.issues, id, parent)
      then b.(moves := b.moves + [Move(id, parent, VersionOf(b, id))]) else b
    case WriteMove(k) =>
      if k < |b.moves| then Written(b.(moves := b.moves[..k] + b.moves[k + 1..]), b.moves[k]) else b
    case Link(id, p) =>
      if id in b.project.issues && p in b.project.issues
      then b.(project := b.project.(issues := Moved(b.project.issues, id, Some(p)))) else b
  }

  const EMPTY_BOARD := Board(EMPTY, map[], [])

  function WorkAll(b: Board, work: seq<Work>): Board {
    if work == [] then b else WorkStep(WorkAll(b, work[..|work| - 1]), work[|work| - 1])
  }

  // Is the move or link, when it is written, under an issue that the moved one is not above?
  ghost predicate SafeWrite(b: Board, w: Work) {
    match w
    case WriteMove(k) =>
      k < |b.moves| && Applies(b, b.moves[k]) && b.moves[k].parent.Some? ==>
        NotAbove(b.project.issues, b.moves[k].id, b.moves[k].parent.value)
    case Link(id, p) => NotAbove(b.project.issues, id, p)
    case _ => true
  }

  ghost predicate NotAbove(h: Issues, id: Id, p: Id) {
    Live(h, id) && Live(h, p) ==> forall n: nat :: !IsNth(h, p, n, id)
  }

  // Any new parent keeps a forest exactly when the issue is not above it; one that is deleted, or
  // given to a deleted issue, does no harm.
  lemma RelinkKeepsForestIff(h: Issues, id: Id, p: Id)
    requires Forest(h) && id in h
    ensures Forest(Moved(h, id, Some(p))) <==> NotAbove(h, id, p)
  {
    if Live(h, id) && Live(h, p) {
      MoveKeepsForestIff(h, id, p);
    } else {
      FewerLinksForest(Moved(h, id, Some(p)), h);
    }
  }

  // What was checked refers to no issue that is still to come.
  ghost predicate BoardOk(b: Board) {
    && Fresh(b.project)
    && forall m <- b.moves :: m.parent.Some? ==> m.parent.value < b.project.next
  }

  /** Whatever happened between its check and its write, a move keeps the forest exactly when, at
    * the write, the moved issue is not above its new parent; and so does an import's link.
    */
  lemma WorkKeepsForestIff(b: Board, w: Work)
    requires BoardOk(b) && Forest(b.project.issues)
    ensures BoardOk(WorkStep(b, w))
    ensures Forest(WorkStep(b, w).project.issues) <==> SafeWrite(b, w)
  {
    var h := b.project.issues;
    match w
    case Handle(a) =>
      if !a.Update? { StepKeepsForest(b.project, a); NextGrows(b.project, a); }
      hide Forest;
    case CheckMove(id, parent) =>
      hide Forest;
    case WriteMove(k) =>
      if k < |b.moves| && Applies(b, b.moves[k]) {
        var m := b.moves[k];
        assert m in b.moves;
        if m.parent.Some? {
          RelinkKeepsForestIff(h, m.id, m.parent.value);
        } else {
          FewerLinksForest(Moved(h, m.id, m.parent), h);
        }
        hide Forest;
      }
    case Link(id, p) =>
      if id in h && p in h {
        RelinkKeepsForestIff(h, id, p);
      } else {
        hide Forest;
        NowhereIsNotAbove(h, id, p);
      }
  }

  lemma VersionRises(b: Board, w: Work, id: Id)
    ensures VersionOf(WorkStep(b, w), id) >= VersionOf(b, id)
  {
    hide Step;
  }

  lemma {:induction false} VersionsRise(b: Board, work: seq<Work>, id: Id)
    ensures VersionOf(WorkAll(b, work), id) >= VersionOf(b, id)
  {
    if work != [] {
      hide WorkStep, VersionOf;
      VersionsRise(b, work[..|work| - 1], id);
      VersionRises(WorkAll(b, work[..|work| - 1]), work[|work| - 1], id);
    }
  }

  /** Of the moves of one issue that were checked at one version at most one is ever written. */
  lemma WrittenOnce(b: Board, k: nat, work: seq<Work>, m: Move)
    requires k < |b.moves| && b.moves[k].id == m.id && b.moves[k].version == m.version
    requires Live(b.project.issues, m.id) && VersionOf(b, m.id) == m.version
    ensures var b' := WorkAll(WorkStep(b, WriteMove(k)), work);
            && WorkStep(b, WriteMove(k)).project.issues == Moved(b.project.issues, m.id, b.moves[k].parent)
            && !Applies(b', m)
            && forall j: nat :: j < |b'.moves| && b'.moves[j] == m ==>
                 WorkStep(b', WriteMove(j)).project.issues == b'.project.issues
  {
    VersionsRise(WorkStep(b, WriteMove(k)), work, m.id);
    hide WorkAll;
  }

  // A move that was just checked is written, unless something came in between.
  lemma CheckedMoveApplies(b: Board, id: Id, parent: Option<Id>)
    requires MoveAccepted(b.project.issues, id, parent)
    ensures var b' := WorkStep(b, CheckMove(id, parent));
            && b'.project == b.project && b'.moves == b.moves + [Move(id, parent, VersionOf(b, id))]
            && WorkStep(b', WriteMove(|b.moves|)).project.issues == Moved(b.project.issues, id, parent)
  {
    hide ParentChainContains;
  }

  lemma NowhereIsNotAbove(h: Issues, id: Id, p: Id)
    requires id !in h || p !in h
    ensures NotAbove(h, id, p)
  {
  }

  lemma NextGrows(pr: Project, a: Action)
    ensures Step(pr, a).next >= pr.next
  {
    if a.BulkCreate? {
      InsertAllGrows(pr, a.parents);
    }
  }

  lemma {:induction false} InsertAllGrows(pr: Project, parents: seq<Option<Id>>)
    ensures InsertAll(pr, parents).next == pr.next + |parents|
    decreases |parents|
  {
    if parents != [] { InsertAllGrows(Insert(pr, parents[0]), parents[1..]); }
  }

  /** So any interleaving in which every write is safe keeps the forest. */
  lemma {:induction false} SafeWorkKeepsForest(work: seq<Work>)
    requires forall i :: 0 <= i < |work| ==> SafeWrite(WorkAll(EMPTY_BOARD, work[..i]), work[i])
    ensures BoardOk(WorkAll(EMPTY_BOARD, work)) && Forest(WorkAll(EMPTY_BOARD, work).project.issues)
  {
    if work == [] {
      assert AllWithinReach([]);
      RunKeepsForest([]);
    } else {
      var n := |work| - 1;
      forall i | 0 <= i < n ensures SafeWrite(WorkAll(EMPTY_BOARD, work[..n][..i]), work[..n][i]) {
        assert work[..n][..i] == work[..i];
      }
      hide WorkStep, Forest, SafeWrite, BoardOk;
      SafeWorkKeepsForest(work[..n]);
      WorkKeepsForestIff(WorkAll(EMPTY_BOARD, work[..n]), work[n]);
    }
  }

  // Both writes of two moves checked on the same rows.
  lemma BothWritten(b: Board, x: Move, y: Move)
    requires b.moves == [x, y] && Applies(b, x) && Applies(b, y) && x.id != y.id
    ensures WorkAll(b, [WriteMove(0), WriteMove(0)]).project.issues
            == Moved(Moved(b.project.issues, x.id, x.parent), y.id, y.parent)
  {
    var work := [WriteMove(0), WriteMove(0)];
    assert work[..1][..0] == [] && work[..1] == [WriteMove(0)];
    assert b.moves[..0] + b.moves[1..] == [y];
    var b1 := WorkStep(b, WriteMove(0));
    assert WorkAll(b, work[..1]) == b1;
    assert b1.moves == [y] && Applies(b1, y);
  }

  /** The run: two issues are created, each is checked as a child of the other, and both writes,
    * guarded by the versions of two different rows, go through.
    */
  lemma ConcurrentMovesCanCloseACycle() returns (work: seq<Work>)
    ensures Forest(WorkAll(EMPTY_BOARD, work[..|work| / 2]).project.issues)
    ensures !Forest(WorkAll(EMPTY_BOARD, work).project.issues)
    ensures |work| == 6 && work[2] == CheckMove(0, Some(1)) && work[3] == CheckMove(1, Some(0))
    ensures work[4] == WriteMove(0) && work[5] == WriteMove(0)
  {
    work := [Handle(Create(None)), Handle(Create(None)), CheckMove(0, Some(1)), CheckMove(1, Some(0)),
             WriteMove(0), WriteMove(0)];
    var h: Issues := map[0 := Issue(None, true), 1 := Issue(None, true)];
    TwoRoots(h);
    var x, y := Move(0, Some(1), 1), Move(1, Some(0), 1);
    var b2 := Board(Project(h, 2), map[], []);
    var b4 := b2.(moves := [x, y]);
    hide Forest, Nth, MoveAccepted, Moved;
    assert WorkAll(EMPTY_BOARD, work[..2]) == b2 by { TwoCreated(work[..2]); }
    assert WorkAll(EMPTY_BOARD, work[..3]) == b2.(moves := [x]) by { assert work[..3][..2] == work[..2]; }
    assert WorkAll(EMPTY_BOARD, work[..4]) == b4 by { assert work[..4][..3] == work[..3]; }
    BothWritten(b4, x, y);
    WorkAllSplits(EMPTY_BOARD, work[..4], work[4..]);
    assert work == work[..4] + work[4..] && work[4..] == [WriteMove(0), WriteMove(0)];
  }

  /** A link of an import is not checked at all: of two issues it creates, one is moved under the
    * other before the other is linked under it.
    */
  lemma LinkCanCloseACycle() returns (work: seq<Work>)
    ensures |work| == 5 && work[2] == CheckMove(0, Some(1)) && work[3] == WriteMove(0) && work[4] == Link(1, 0)
    ensures Forest(WorkAll(EMPTY_BOARD, work[..4]).project.issues)
    ensures !Forest(WorkAll(EMPTY_BOARD, work).project.issues)
  {
    work := [Handle(Create(None)), Handle(Create(None)), CheckMove(0, Some(1)), WriteMove(0), Link(1, 0)];
    var h: Issues := map[0 := Issue(None, true), 1 := Issue(None, true)];
    TwoRoots(h);
    var b2 := Board(Project(h, 2), map[], []);
    var b3 := b2.(moves := [Move(0, Some(1), 1)]);
    hide Forest, Nth, MoveAccepted;
    assert WorkAll(EMPTY_BOARD, work[..2]) == b2 by { TwoCreated(work[..2]); }
    assert WorkAll(EMPTY_BOARD, work[..3]) == b3 by { assert work[..3][..2] == work[..2]; }
    assert WorkAll(EMPTY_BOARD, work[..4]).project.issues == Moved(h, 0, Some(1)) by {
      assert work[..4][..3] == work[..3];
    }
    assert WorkAll(EMPTY_BOARD, work).project.issues == Moved(Moved(h, 0, Some(1)), 1, Some(0));
  }

  lemma TwoCreated(work: seq<Work>)
    requires work == [Handle(Create(None)), Handle(Create(None))]
    ensures WorkAll(EMPTY_BOARD, work)
            == Board(Project(map[0 := Issue(None, true), 1 := Issue(None, true)], 2), map[], [])
  {
    var one := Board(Project(map[0 := Issue(None, true)], 1), map[], []);
    assert work[..1] == [work[0]] && work[..1][..0] == [];
    assert WorkAll(EMPTY_BOARD, work[..1]) == one;
    assert WorkAll(EMPTY_BOARD, work) == WorkStep(one, work[1]);
  }

  lemma {:induction false} WorkAllSplits(b: Board, first: seq<Work>, rest: seq<Work>)
    ensures WorkAll(b, first + rest) == WorkAll(WorkAll(b, first), rest)
  {
    if rest == [] {
      assert first + rest == first;
    } else {
      hide WorkStep;
      var n := |rest| - 1;
      assert (first + rest)[..|first + rest| - 1] == first + rest[..n];
      WorkAllSplits(b, first, rest[..n]);
    }
  }

  lemma TwoRoots(h: Issues)
    requires h == map[0 := Issue(None, true), 1 := Issue(None, true)]
    ensures Forest(h) && MoveAccepted(h, 0, Some(1)) && MoveAccepted(h, 1, Some(0))
    ensures Forest(Moved(h, 0, Some(1)))
    ensures !Forest(Moved(Moved(h, 0, Some(1)), 1, Some(0)))
  {
    var acts := [Create(None), Create(None)];
    assert acts[..1][0] == acts[0] && acts[..1][..0] == [];
    assert Run(EMPTY, acts[..1]) == Project(map[0 := Issue(None, true)], 1);
    assert Run(EMPTY, acts) == Project(h, 2);
    RunKeepsForest(acts);
    GuardSeesNearAncestors(h, 0, 1);
    GuardSeesNearAncestors(h, 1, 0);
    forall n: nat ensures !IsNth(h, 1, n, 0) && !IsNth(h, 0, n, 1) {
      RootAlone(h, 1, n);
      RootAlone(h, 0, n);
    }
    MoveKeepsForestIff(h, 0, 1);
    MoveKeepsForestIff(h, 1, 0);
    MovesCloseACycleIff(h, 0, 1, 1, 0);
    assert IsNth(h, 0, 0, 0) && IsNth(h, 1, 0, 1);
  }

  lemma {:induction false} RootAlone(h: Issues, x: Id, n: nat)
    requires Live(h, x) && h[x].parent == None
    ensures Nth(h, x, n) == (if n == 0 then Some(x) else None)
  {
    if n > 0 { RootAlone(h, x, n - 1); }
  }

  // --- the handlers on stored rows -------------------------------------------

  lemma {:induction false} InsertAllSnoc(pr: Project, parents: seq<Option<Id>>, n: nat)
    requires n < |parents|
    ensures InsertAll(pr, parents[..n + 1]) == Insert(InsertAll(pr, parents[..n]), parents[n])
    decreases n
  {
    var some := parents[..n + 1];
    if n == 0 {
      assert some[1..] == [] && parents[..0] == [];
    } else {
      assert some[1..] == parents[1..][..n] && parents[..n][1..] == parents[1..][..n - 1];
      InsertAllSnoc(Insert(pr, parents[0]), parents[1..], n - 1);
    }
  }

  // From `first` on stand new live issues under the given parents, and nothing else has changed.
  ghost predicate Inserted(h: Issues, h': Issues, first: Id, parents: seq<Option<Id>>) {
    forall x: Id ::
      && (x in h' <==> x in h || first <= x < first + |parents|)
      && (first <= x < first + |parents| ==> h'[x] == Issue(parents[x - first], true))
      && (x in h && !(first <= x < first + |parents|) ==> h'[x] == h[x])
  }

  lemma NoneInserted(h: Issues, first: Id)
    ensures Inserted(h, h, first, [])
  {
  }

  lemma {:induction false} InsertAllHolds(pr: Project, parents: seq<Option<Id>>)
    ensures Inserted(pr.issues, InsertAll(pr, parents).issues, pr.next, parents)
    decreases |parents|
  {
    if parents != [] {
      InsertAllHolds(Insert(pr, parents[0]), parents[1..]);
    }
  }

  class IssueTable {
    var issues: Issues
    var next: Id

    function View(): Project
      reads this
    {
      Project(issues, next)
    }

    ghost predicate Valid()
      reads this
    {
      Fresh(View()) && Forest(issues)
    }

    constructor ()
      ensures View() == EMPTY && Valid()
    {
      issues, next := map[], 0;
      new;
      assert AllWithinReach([]);
      RunKeepsForest([]);
    }

    method Create(parent: Option<Id>) returns (ok: bool)
      requires Valid()
      modifies this
      ensures Valid() && View() == Step(old(View()), Action.Create(parent))
      ensures ok <==> ParentAllowed(old(issues), parent)
      ensures ok <==> (parent.Some? ==> parent.value in old(issues) && old(issues)[parent.value].live)
      ensures ok ==> issues == old(issues)[old(next) := Issue(parent, true)] && next == old(next) + 1
      ensures !ok ==> issues == old(issues) && next == old(next)
    {
      StepKeepsForest(View(), Action.Create(parent));
      hide Forest, Fresh;
      ok := ParentAllowed(issues, parent);
      if ok {
        issues, next := issues[next := Issue(parent, true)], next + 1;
      }
    }

    // All parents are checked before the first issue is created.
    method BulkCreate(parents: seq<Option<Id>>) returns (ok: bool)
      requires Valid()
      modifies this
      ensures Valid() && View() == Step(old(View()), Action.BulkCreate(parents))
      ensures ok <==> forall p <- parents :: ParentAllowed(old(issues), p)
      ensures next == if ok then old(next) + |parents| else old(next)
      ensures Inserted(old(issues), issues, old(next), if ok then parents else [])
    {
      ghost var before := View();
      StepKeepsForest(before, Action.BulkCreate(parents));
      hide Forest, Fresh, Inserted;
      NoneInserted(issues, next);
      for i := 0 to |parents|
        invariant View() == before
        invariant forall j :: 0 <= j < i ==> ParentAllowed(issues, parents[j])
      {
        if !ParentAllowed(issues, parents[i]) {
          assert parents[i] in parents;
          return false;
        }
      }
      ok := true;
      assert parents[..0] == [];
      for i := 0 to |parents|
        invariant View() == InsertAll(before, parents[..i])
        invariant next == before.next + i
      {
        InsertAllSnoc(before, parents, i);
        issues, next := issues[next := Issue(parents[i], true)], next + 1;
      }
      assert parents[..|parents|] == parents;
      InsertAllHolds(before, parents);
    }

    // The parent part of an update.
    method SetParent(id: Id, parent: Option<Id>) returns (ok: bool)
      requires Valid()
      modifies this
      ensures View() == Step(old(View()), Update(id, parent))
      ensures ok <==> MoveAccepted(old(issues), id, parent)
      ensures ok ==> id in old(issues) && issues == old(issues)[id := Issue(parent, true)]
      ensures !ok ==> issues == old(issues)
      ensures WithinReach(old(View()), Update(id, parent)) ==> Valid()
    {
      ghost var before := View();
      if WithinReach(before, Update(id, parent)) {
        StepKeepsForest(before, Update(id, parent));
      }
      hide Forest, Fresh, WithinReach;
      ok := false;
      if !Live(issues, id) {
        return;
      }
      var changed := parent != issues[id].parent;
      if changed && !ParentAllowed(issues, parent) {
        return;
      }
      if parent == Some(id) {
        return;
      }
      if changed && parent.Some? && ParentChainContains(issues, parent.value, id) {
        return;
      }
      ok, issues := true, issues[id := issues[id].(parent := parent)];
    }
  }
}
