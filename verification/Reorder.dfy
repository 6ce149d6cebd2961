/** Moving an item of an ordered list: the target order the handler computes, and the ranks that
  * are stored for it.
  *
  * A list is shown in the order of its ranks. A move stores one new rank when it can, and
  * renumbers the whole list after the target order only when it cannot.
  */
module Reorder {
  import opened Text

  type Id = nat
  type Ranks = map<Id, real>

  const APPEND_GAP := 1.0

  // --- the target order ------------------------------------------------------

  function Without(ids: seq<Id>, id: Id): (r: seq<Id>)
    ensures forall x <- r :: x in ids
  {
    if ids == [] then [] else
    if ids[0] == id then Without(ids[1..], id) else [ids[0]] + Without(ids[1..], id)
  }

  lemma {:induction false} InWithout(ids: seq<Id>, id: Id, x: Id)
    ensures x in Without(ids, id) <==> x in ids && x != id
  {
    if ids != [] {
      InWithout(ids[1..], id, x);
    }
  }

  function Position(ids: seq<Id>, x: Id): (r: Option<nat>)
    ensures r.None? <==> x !in ids
    ensures r.Some? ==> r.value < |ids| && ids[r.value] == x && x !in ids[..r.value]
  {
    if ids == [] then None
    else if ids[0] == x then Some(0)
    else match Position(ids[1..], x) case None => None case Some(p) => Some(p + 1)
  }

  // Where the moved item goes among the others.
  function Slot(rest: seq<Id>, before: Option<Id>, after: Option<Id>): (pos: nat)
    ensures pos <= |rest|
  {
    match before
    case Some(b) => (match Position(rest, b) case Some(p) => p + 1 case None => |rest|)
    case None =>
      match after
      case Some(a) => (match Position(rest, a) case Some(p) => p case None => 0)
      case None => |rest|
  }

  function InsertAt(rest: seq<Id>, pos: nat, id: Id): seq<Id>
    requires pos <= |rest|
  {
    rest[..pos] + [id] + rest[pos..]
  }

  function TargetOrder(ids: seq<Id>, id: Id, before: Option<Id>, after: Option<Id>): seq<Id> {
    var rest := Without(ids, id);
    InsertAt(rest, Slot(rest, before, after), id)
  }

  ghost predicate Distinct(ids: seq<Id>) {
    forall i, j :: 0 <= i < j < |ids| ==> ids[i] != ids[j]
  }

  lemma {:induction false} WithoutAbsent(ids: seq<Id>, id: Id)
    requires id !in ids
    ensures Without(ids, id) == ids
  {
    if ids != [] {
      WithoutAbsent(ids[1..], id);
    }
  }

  lemma {:induction false} WithoutConcat(a: seq<Id>, b: seq<Id>, id: Id)
    ensures Without(a + b, id) == Without(a, id) + Without(b, id)
  {
    if a == [] {
      assert a + b == b;
    } else {
      assert (a + b)[1..] == a[1..] + b;
      WithoutConcat(a[1..], b, id);
    }
  }

  lemma WithoutAt(ids: seq<Id>, id: Id, k: nat)
    requires Distinct(ids) && k < |ids| && ids[k] == id
    ensures Without(ids, id) == ids[..k] + ids[k + 1..] && Distinct(Without(ids, id))
    ensures ids == InsertAt(Without(ids, id), k, id)
  {
    hide Without;
    var (a, b) := (ids[..k], ids[k + 1..]);
    assert ids == a + ([id] + b);
    WithoutInserted(a, b, id);
  }

  lemma WithoutInserted(a: seq<Id>, b: seq<Id>, id: Id)
    requires id !in a && id !in b
    ensures Without(a + ([id] + b), id) == a + b
  {
    WithoutConcat(a, [id] + b, id);
    WithoutAbsent(a, id);
    WithoutAbsent(b, id);
    assert ([id] + b)[1..] == b;
  }

  lemma InsertAtIndex(rest: seq<Id>, pos: nat, id: Id, i: nat)
    requires pos <= |rest| && i <= |rest|
    ensures InsertAt(rest, pos, id)[i] == if i < pos then rest[i] else if i == pos then id else rest[i - 1]
  {
  }

  lemma InsertAtDistinct(rest: seq<Id>, pos: nat, id: Id)
    requires pos <= |rest| && id !in rest && Distinct(rest)
    ensures Distinct(InsertAt(rest, pos, id))
  {
    var target := InsertAt(rest, pos, id);
    forall i, j | 0 <= i < j < |target| ensures target[i] != target[j] {
      hide InsertAt;
      InsertAtIndex(rest, pos, id, i);
      InsertAtIndex(rest, pos, id, j);
    }
  }

  lemma InsertAtMultiset(rest: seq<Id>, pos: nat, id: Id)
    requires pos <= |rest|
    ensures multiset(InsertAt(rest, pos, id)) == multiset(rest) + multiset{id}
  {
    assert rest == rest[..pos] + rest[pos..];
  }

  lemma WithoutInsertAt(rest: seq<Id>, pos: nat, id: Id)
    requires pos <= |rest| && id !in rest
    ensures Without(InsertAt(rest, pos, id), id) == rest
  {
    hide Without;
    assert InsertAt(rest, pos, id) == rest[..pos] + ([id] + rest[pos..]);
    assert rest == rest[..pos] + rest[pos..];
    WithoutInserted(rest[..pos], rest[pos..], id);
  }

  /** The target order is a permutation of the list, and the others keep their relative order. */
  lemma {:induction false} TargetRearranges(ids: seq<Id>, id: Id, before: Option<Id>, after: Option<Id>)
    requires Distinct(ids) && id in ids
    ensures var target := TargetOrder(ids, id, before, after);
            && multiset(target) == multiset(ids)
            && Distinct(target)
            && Without(target, id) == Without(ids, id)
  {
    hide Slot, Without, Distinct, InsertAt;
    var k :| 0 <= k < |ids| && ids[k] == id;
    var rest := Without(ids, id);
    var pos := Slot(rest, before, after);
    InWithout(ids, id, id);
    WithoutAt(ids, id, k);
    InsertAtMultiset(rest, k, id);
    InsertAtMultiset(rest, pos, id);
    InsertAtDistinct(rest, pos, id);
    WithoutInsertAt(rest, pos, id);
  }

  // Some neighbours in the list, in this order.
  ghost predicate Adjacent(ids: seq<Id>, x: Id, y: Id) {
    exists i :: 0 <= i < |ids| - 1 && ids[i] == x && ids[i + 1] == y
  }

  /** The moved item ends up right after `before`; failing that right before `after`; failing that
    * at an end. A `before` that is not another listed item means the last place, whatever `after`
    * says; an `after` that is not another listed item means the first.
    */
  lemma {:induction false} TargetPlace(ids: seq<Id>, id: Id, before: Option<Id>, after: Option<Id>)
    requires Distinct(ids) && id in ids
    ensures var target := TargetOrder(ids, id, before, after);
            && (before.Some? && before.value != id && before.value in ids ==> Adjacent(target, before.value, id))
            && (before.Some? && (before.value == id || before.value !in ids) ==> target[|target| - 1] == id)
            && (before.None? && after.Some? && after.value != id && after.value in ids ==>
                  Adjacent(target, id, after.value))
            && (before.None? && after.Some? && (after.value == id || after.value !in ids) ==> target[0] == id)
            && (before.None? && after.None? ==> target[|target| - 1] == id)
  {
    var rest := Without(ids, id);
    var pos := Slot(rest, before, after);
    var target := TargetOrder(ids, id, before, after);
    assert target[pos] == id;
    InWithout(ids, id, id);
    if before.Some? { InWithout(ids, id, before.value); }
    if after.Some? { InWithout(ids, id, after.value); }
    if before.Some? && before.value in rest {
      assert target[pos - 1] == before.value && target[pos - 1 + 1] == id;
    }
    if before.None? && after.Some? && after.value in rest {
      assert target[pos + 1] == after.value;
    }
  }

  // --- ranks -----------------------------------------------------------------

  /** `mid` is what the machine computes for the midpoint of the two ranks, however it rounds. */
  function RankBetween(before: Option<real>, after: Option<real>, mid: real): Option<real> {
    match (before, after)
    case (None, None) => Some(APPEND_GAP)
    case (Some(b), None) => Some(b + APPEND_GAP)
    case (None, Some(a)) => Some(a - APPEND_GAP)
    case (Some(b), Some(a)) =>
      var (lo, hi) := if b <= a then (b, a) else (a, b);
      if lo < mid < hi then Some(mid) else None
  }

  // Next to one neighbour the rank is one away from it, next to none it is one; between two it is
  // the midpoint, in whichever order they are named, if that lies strictly between them.
  lemma RankBetweenIs(a: real, b: real, mid: real)
    ensures RankBetween(None, None, mid) == Some(1.0)
    ensures RankBetween(Some(a), None, mid) == Some(a + 1.0)
    ensures RankBetween(None, Some(a), mid) == Some(a - 1.0)
    ensures RankBetween(Some(a), Some(b), mid)
            == if a < mid < b || b < mid < a then Some(mid) else None
    ensures RankBetween(Some(a), Some(b), (a + b) / 2.0) == if a == b then None else Some((a + b) / 2.0)
  {
  }

  // The ranks 1, 2, ... handed out along `order`; an id without a row updates nothing.
  function Renumbered(ranks: Ranks, order: seq<Id>): (r: Ranks)
    ensures r.Keys == ranks.Keys
  {
    if order == [] then ranks else
    var n := |order| - 1;
    var r := Renumbered(ranks, order[..n]);
    if order[n] in r then r[order[n] := n as real + APPEND_GAP] else r
  }

  function SetOrder(ranks: Ranks, id: Id, before: Option<real>, after: Option<real>, order: seq<Id>, mid: real): Ranks {
    match RankBetween(before, after, mid)
    case Some(rank) => if id in ranks then ranks[id := rank] else ranks
    case None => Renumbered(ranks, order)
  }

  // The rank of a listed neighbour.
  function RankOf(ranks: Ranks, ids: seq<Id>, x: Option<Id>): Option<real>
    requires forall y <- ids :: y in ranks
  {
    if x.Some? && x.value in ids then Some(ranks[x.value]) else None
  }

  datatype Outcome = NotFound | Done(ranks: Ranks)

  /** The move of `id` in the list `ids`, as the handler carries it out. */
  function Move(ranks: Ranks, ids: seq<Id>, id: Id, before: Option<Id>, after: Option<Id>, mid: real): Outcome
    requires forall x <- ids :: x in ranks
  {
    if id !in ids then NotFound else
    Done(SetOrder(ranks, id, RankOf(ranks, ids, before), RankOf(ranks, ids, after),
                  TargetOrder(ids, id, before, after), mid))
  }

  // The ranks rise strictly along `ids`: sorting by rank can show these items in no other order.
  ghost predicate ShowsAs(ranks: Ranks, ids: seq<Id>) {
    && (forall x <- ids :: x in ranks)
    && forall i, j :: 0 <= i < j < |ids| ==> ranks[ids[i]] < ranks[ids[j]]
  }

  // Some order of `ids` by rank, ties in any order, as the database may return it.
  ghost predicate SortedByRank(ranks: Ranks, ids: seq<Id>) {
    && (forall x <- ids :: x in ranks)
    && forall i, j :: 0 <= i < j < |ids| ==> ranks[ids[i]] <= ranks[ids[j]]
  }

  /** So when the ranks rise strictly along `a`, the database can only answer `a`. */
  lemma {:induction false} ShownOrderIsUnique(ranks: Ranks, a: seq<Id>, b: seq<Id>)
    requires ShowsAs(ranks, a) && SortedByRank(ranks, b) && multiset(a) == multiset(b)
    ensures a == b
  {
    hide ShowsAs, SortedByRank;
    SameLength(a, b);
    if a != [] {
      var n := |a| - 1;
      SameLast(ranks, a, b);
      WithoutLast(a);
      WithoutLast(b);
      ShownPrefix(ranks, a, n);
      SortedPrefix(ranks, b, n);
      ShownOrderIsUnique(ranks, a[..n], b[..n]);
    }
  }

  lemma WithoutLast(a: seq<Id>)
    requires a != []
    ensures a == a[..|a| - 1] + [a[|a| - 1]]
    ensures multiset(a[..|a| - 1]) == multiset(a) - multiset{a[|a| - 1]}
  {
  }

  lemma ShownPrefix(ranks: Ranks, a: seq<Id>, n: nat)
    requires ShowsAs(ranks, a) && n <= |a|
    ensures ShowsAs(ranks, a[..n])
  {
  }

  lemma SortedPrefix(ranks: Ranks, b: seq<Id>, n: nat)
    requires SortedByRank(ranks, b) && n <= |b|
    ensures SortedByRank(ranks, b[..n])
  {
  }

  lemma SameLast(ranks: Ranks, a: seq<Id>, b: seq<Id>)
    requires ShowsAs(ranks, a) && SortedByRank(ranks, b) && multiset(a) == multiset(b)
    requires a != [] && |a| == |b|
    ensures a[|a| - 1] == b[|b| - 1]
  {
    var n := |a| - 1;
    assert a[n] in multiset(b) && b[n] in multiset(a);
    var i :| 0 <= i < |b| && b[i] == a[n];
    var j :| 0 <= j < |a| && a[j] == b[n];
    assert ranks[b[i]] <= ranks[b[n]];
    LastRanksHighest(ranks, a, j);
  }

  lemma LastRanksHighest(ranks: Ranks, a: seq<Id>, j: nat)
    requires ShowsAs(ranks, a) && j < |a|
    ensures j == |a| - 1 || ranks[a[j]] < ranks[a[|a| - 1]]
  {
  }

  lemma SameLength(a: seq<Id>, b: seq<Id>)
    requires multiset(a) == multiset(b)
    ensures |a| == |b|
  {
    assert |multiset(a)| == |a| && |multiset(b)| == |b|;
  }

  // --- does the list then show the target order? -----------------------------

  // Does `rank` lie strictly between the ranks of the neighbours at `pos`?
  predicate RankFits(ranks: Ranks, rest: seq<Id>, pos: nat, rank: real)
    requires pos <= |rest| && forall x <- rest :: x in ranks
  {
    (pos > 0 ==> ranks[rest[pos - 1]] < rank) && (pos < |rest| ==> rank < ranks[rest[pos]])
  }

  lemma InsertedAfter(ranks: Ranks, rest: seq<Id>, pos: nat, id: Id, rank: real, i: nat)
    requires pos <= |rest| && id !in rest && (forall x <- rest :: x in ranks) && i <= |rest|
    ensures InsertAt(rest, pos, id)[i] in ranks[id := rank]
    ensures ranks[id := rank][InsertAt(rest, pos, id)[i]]
            == if i < pos then ranks[rest[i]] else if i == pos then rank else ranks[rest[i - 1]]
  {
    InsertAtIndex(rest, pos, id, i);
  }

  // One new rank puts `id` at `pos` exactly when it lies strictly between its neighbours there.
  lemma InsertedShowsIff(ranks: Ranks, rest: seq<Id>, pos: nat, id: Id, rank: real)
    requires pos <= |rest| && id !in rest && forall x <- rest :: x in ranks
    ensures ShowsAs(ranks[id := rank], InsertAt(rest, pos, id))
            <==> ShowsAs(ranks, rest) && RankFits(ranks, rest, pos, rank)
  {
    if ShowsAs(ranks[id := rank], InsertAt(rest, pos, id)) {
      ShownThenFits(ranks, rest, pos, id, rank);
    }
    if ShowsAs(ranks, rest) && RankFits(ranks, rest, pos, rank) {
      FitsThenShown(ranks, rest, pos, id, rank);
    }
  }

  lemma FitsThenShown(ranks: Ranks, rest: seq<Id>, pos: nat, id: Id, rank: real)
    requires pos <= |rest| && id !in rest && ShowsAs(ranks, rest) && RankFits(ranks, rest, pos, rank)
    ensures ShowsAs(ranks[id := rank], InsertAt(rest, pos, id))
  {
    var target, after := InsertAt(rest, pos, id), ranks[id := rank];
    assert |target| == |rest| + 1;
    hide InsertAt;
    forall i | 0 <= i < |target| ensures target[i] in after {
      InsertedAfter(ranks, rest, pos, id, rank, i);
    }
    forall i, j | 0 <= i < j < |target| ensures after[target[i]] < after[target[j]] {
      InsertedAfter(ranks, rest, pos, id, rank, i);
      InsertedAfter(ranks, rest, pos, id, rank, j);
      assert i < pos - 1 ==> ranks[rest[i]] < ranks[rest[pos - 1]];
      assert j > pos + 1 ==> ranks[rest[pos]] < ranks[rest[j - 1]];
    }
  }

  lemma ShownThenFits(ranks: Ranks, rest: seq<Id>, pos: nat, id: Id, rank: real)
    requires pos <= |rest| && id !in rest && forall x <- rest :: x in ranks
    requires ShowsAs(ranks[id := rank], InsertAt(rest, pos, id))
    ensures ShowsAs(ranks, rest) && RankFits(ranks, rest, pos, rank)
  {
    var target, after := InsertAt(rest, pos, id), ranks[id := rank];
    assert |target| == |rest| + 1;
    hide InsertAt;
    forall i, j | 0 <= i < j < |rest| ensures ranks[rest[i]] < ranks[rest[j]] {
      var i' := if i < pos then i else i + 1;
      var j' := if j < pos then j else j + 1;
      InsertedAfter(ranks, rest, pos, id, rank, i');
      InsertedAfter(ranks, rest, pos, id, rank, j');
      assert after[target[i']] < after[target[j']];
    }
    InsertedAfter(ranks, rest, pos, id, rank, pos);
    if pos > 0 {
      InsertedAfter(ranks, rest, pos, id, rank, pos - 1);
      assert after[target[pos - 1]] < after[target[pos]];
    }
    if pos < |rest| {
      InsertedAfter(ranks, rest, pos, id, rank, pos + 1);
      assert after[target[pos]] < after[target[pos + 1]];
    }
  }

  lemma {:induction false} RenumberedLeaves(ranks: Ranks, order: seq<Id>)
    ensures forall x <- ranks :: x !in order ==> Renumbered(ranks, order)[x] == ranks[x]
  {
    if order != [] {
      var n := |order| - 1;
      RenumberedLeaves(ranks, order[..n]);
      assert order == order[..n] + [order[n]];
    }
  }

  lemma {:induction false} RenumberedShows(ranks: Ranks, order: seq<Id>)
    requires Distinct(order) && forall x <- order :: x in ranks
    ensures forall i :: 0 <= i < |order| ==> Renumbered(ranks, order)[order[i]] == (i + 1) as real
    ensures forall x <- ranks :: x !in order ==> Renumbered(ranks, order)[x] == ranks[x]
  {
    if order != [] {
      var n := |order| - 1;
      RenumberedShows(ranks, order[..n]);
      assert order == order[..n] + [order[n]];
    }
  }

  /** After a move the list shows the target order exactly when it was renumbered, or the new rank
    * lies strictly between the ranks of the target neighbours and the others had no ties.
    */
  lemma {:induction false} MoveShowsTargetIff(
    ranks: Ranks, ids: seq<Id>, id: Id, before: Option<Id>, after: Option<Id>, mid: real)
    requires Distinct(ids) && id in ids && forall x <- ids :: x in ranks
    ensures var rest := Without(ids, id);
            var rank := RankBetween(RankOf(ranks, ids, before), RankOf(ranks, ids, after), mid);
            ShowsAs(Move(ranks, ids, id, before, after, mid).ranks, TargetOrder(ids, id, before, after))
            <==> rank.None?
                 || (ShowsAs(ranks, rest) && RankFits(ranks, rest, Slot(rest, before, after), rank.value))
  {
    var rest := Without(ids, id);
    var pos := Slot(rest, before, after);
    var target := InsertAt(rest, pos, id);
    InWithout(ids, id, id);
    hide Without, Slot, InsertAt, ShowsAs, RankFits, RankBetween, Renumbered;
    match RankBetween(RankOf(ranks, ids, before), RankOf(ranks, ids, after), mid)
    case Some(rank) => InsertedShowsIff(ranks, rest, pos, id, rank);
    case None =>
      TargetRearranges(ids, id, before, after);
      forall x <- target ensures x in ranks {
        assert x in multiset(target) && x in multiset(ids);
      }
      RenumberedIsShown(ranks, target);
  }

  lemma RenumberedIsShown(ranks: Ranks, order: seq<Id>)
    requires Distinct(order) && forall x <- order :: x in ranks
    ensures ShowsAs(Renumbered(ranks, order), order)
  {
    RenumberedShows(ranks, order);
    hide Renumbered, Distinct;
  }

  lemma {:induction false} ShownWithout(ranks: Ranks, ids: seq<Id>, id: Id)
    requires ShowsAs(ranks, ids)
    ensures ShowsAs(ranks, Without(ids, id))
  {
    if ids != [] {
      ShownTail(ranks, ids);
      ShownWithout(ranks, ids[1..], id);
      if ids[0] != id {
        ShownCons(ranks, ids[0], Without(ids[1..], id));
      }
    }
  }

  lemma ShownTail(ranks: Ranks, ids: seq<Id>)
    requires ShowsAs(ranks, ids) && ids != []
    ensures ShowsAs(ranks, ids[1..]) && ids[0] in ranks
    ensures forall y <- ids[1..] :: y in ranks && ranks[ids[0]] < ranks[y]
  {
  }

  lemma ShownCons(ranks: Ranks, x: Id, rest: seq<Id>)
    requires ShowsAs(ranks, rest) && x in ranks && forall y <- rest :: ranks[x] < ranks[y]
    ensures ShowsAs(ranks, [x] + rest)
  {
    var ids := [x] + rest;
    forall i, j | 0 <= i < j < |ids| ensures ranks[ids[i]] < ranks[ids[j]] {
      assert rest[j - 1] in rest;
    }
  }

  lemma ShownIsDistinct(ranks: Ranks, ids: seq<Id>)
    requires ShowsAs(ranks, ids)
    ensures Distinct(ids)
  {
  }

  // The slot of a request that names the `k`-th of the others.
  lemma SlotAt(ranks: Ranks, ids: seq<Id>, id: Id, k: nat, after: Option<Id>)
    requires ShowsAs(ranks, ids) && k < |Without(ids, id)|
    ensures var rest := Without(ids, id);
            && Distinct(ids) && ShowsAs(ranks, rest) && rest[k] in ids
            && Slot(rest, Some(rest[k]), after) == k + 1 && Slot(rest, None, Some(rest[k])) == k
  {
    var rest := Without(ids, id);
    ShownWithout(ranks, ids, id);
    ShownIsDistinct(ranks, ids);
    ShownIsDistinct(ranks, rest);
    InWithout(ids, id, rest[k]);
  }

  /** Named with both of its neighbours-to-be, an item always gets its place, by whatever rounding
    * of the midpoint: two ranks with no number between them lead to renumbering.
    */
  lemma {:induction false} BothNeighboursAlwaysWork(ranks: Ranks, ids: seq<Id>, id: Id, k: nat, mid: real)
    requires ShowsAs(ranks, ids) && id in ids && k + 1 < |Without(ids, id)|
    ensures var rest := Without(ids, id);
            ShowsAs(Move(ranks, ids, id, Some(rest[k]), Some(rest[k + 1]), mid).ranks, InsertAt(rest, k + 1, id))
  {
    var rest := Without(ids, id);
    var b, a := rest[k], rest[k + 1];
    SlotAt(ranks, ids, id, k, Some(a));
    SlotAt(ranks, ids, id, k + 1, None);
    var rank := RankBetween(Some(ranks[b]), Some(ranks[a]), mid);
    MidpointFits(ranks, rest, k, mid);
    hide Without, Slot, InsertAt, SetOrder, ShowsAs, RankFits, RankBetween, Distinct;
    assert RankOf(ranks, ids, Some(b)) == Some(ranks[b]) && RankOf(ranks, ids, Some(a)) == Some(ranks[a]);
    MoveShowsTargetIff(ranks, ids, id, Some(b), Some(a), mid);
  }

  lemma MidpointFits(ranks: Ranks, rest: seq<Id>, k: nat, mid: real)
    requires ShowsAs(ranks, rest) && k + 1 < |rest|
    ensures var rank := RankBetween(Some(ranks[rest[k]]), Some(ranks[rest[k + 1]]), mid);
            rank.Some? ==> RankFits(ranks, rest, k + 1, rank.value)
  {
    assert ranks[rest[k]] < ranks[rest[k + 1]];
  }

  /** Named with the item before it alone, an item gets its place exactly when the next rank is
    * more than one above.
    */
  lemma {:induction false} BeforeAloneWorksIff(ranks: Ranks, ids: seq<Id>, id: Id, k: nat, mid: real)
    requires ShowsAs(ranks, ids) && id in ids && k < |Without(ids, id)|
    ensures var rest := Without(ids, id);
            ShowsAs(Move(ranks, ids, id, Some(rest[k]), None, mid).ranks, InsertAt(rest, k + 1, id))
            <==> k + 1 == |rest| || ranks[rest[k]] + APPEND_GAP < ranks[rest[k + 1]]
  {
    var rest := Without(ids, id);
    SlotAt(ranks, ids, id, k, None);
    hide Without, Slot, InsertAt, SetOrder, ShowsAs;
    MoveShowsTargetIff(ranks, ids, id, Some(rest[k]), None, mid);
  }

  lemma {:induction false} AfterAloneWorksIff(ranks: Ranks, ids: seq<Id>, id: Id, k: nat, mid: real)
    requires ShowsAs(ranks, ids) && id in ids && k < |Without(ids, id)|
    ensures var rest := Without(ids, id);
            ShowsAs(Move(ranks, ids, id, None, Some(rest[k]), mid).ranks, InsertAt(rest, k, id))
            <==> k == 0 || ranks[rest[k - 1]] < ranks[rest[k]] - APPEND_GAP
  {
    var rest := Without(ids, id);
    SlotAt(ranks, ids, id, k, None);
    hide Without, Slot, InsertAt, SetOrder, ShowsAs;
    MoveShowsTargetIff(ranks, ids, id, None, Some(rest[k]), mid);
  }

  /** Named with no neighbour, an item moves to the end exactly when all others rank below one. */
  lemma {:induction false} NoNeighbourWorksIff(ranks: Ranks, ids: seq<Id>, id: Id, mid: real)
    requires ShowsAs(ranks, ids) && id in ids
    ensures var rest := Without(ids, id);
            ShowsAs(Move(ranks, ids, id, None, None, mid).ranks, rest + [id])
            <==> forall x <- rest :: ranks[x] < APPEND_GAP
  {
    var rest := Without(ids, id);
    ShownWithout(ranks, ids, id);
    ShownIsDistinct(ranks, ids);
    assert InsertAt(rest, |rest|, id) == rest + [id];
    MoveShowsTargetIff(ranks, ids, id, None, None, mid);
    hide Move;
    if rest != [] && ranks[rest[|rest| - 1]] < APPEND_GAP {
      forall x <- rest ensures ranks[x] < APPEND_GAP {
        var i :| 0 <= i < |rest| && rest[i] == x;
        assert i < |rest| - 1 ==> ranks[rest[i]] < ranks[rest[|rest| - 1]];
      }
    }
  }

  /** So the stored ranks need not show the order the handler worked out. */
  lemma OneNeighbourCanMiss(mid: real)
    ensures var (ranks, ids) := (map[7 := 1.0, 8 := 1.25, 9 := 1.5], [7, 8, 9]);
            && ShowsAs(ranks, ids)
            && TargetOrder(ids, 9, Some(7), None) == [7, 9, 8]
            && Move(ranks, ids, 9, Some(7), None, mid) == Done(map[7 := 1.0, 8 := 1.25, 9 := 2.0])
            && ShowsAs(Move(ranks, ids, 9, Some(7), None, mid).ranks, [7, 8, 9])
  {
    var ranks: Ranks, ids: seq<Id> := map[7 := 1.0, 8 := 1.25, 9 := 1.5], [7, 8, 9];
    assert ids[1..] == [8, 9] && [8, 9][1..] == [9];
    assert Without(ids, 9) == [7, 8];
  }

  // --- the handler on stored ranks -------------------------------------------

  class RankTable {
    var ranks: Ranks

    constructor (ranks: Ranks)
      ensures this.ranks == ranks
    {
      this.ranks := ranks;
    }

    // Whether a row was updated, or the list renumbered.
    method StoreOrder(id: Id, before: Option<real>, after: Option<real>, order: seq<Id>, mid: real)
      returns (ok: bool)
      modifies this
      ensures ranks == SetOrder(old(ranks), id, before, after, order, mid)
      ensures !ok ==> id !in ranks && ranks == old(ranks)
      ensures forall x <- old(ranks) :: x in ranks && (x != id && x !in order ==> ranks[x] == old(ranks)[x])
      ensures before.None? && after.None? && ok ==> ranks == old(ranks)[id := 1.0]
      ensures before.Some? && after.None? && ok ==> ranks == old(ranks)[id := before.value + 1.0]
      ensures before.None? && after.Some? && ok ==> ranks == old(ranks)[id := after.value - 1.0]
      ensures before.Some? && after.Some? && ok ==>
                (before.value < mid < after.value || after.value < mid < before.value ==>
                   ranks == old(ranks)[id := mid])
    {
      RenumberedLeaves(ranks, order);
      var between := RankBetween(before, after, mid);
      if between.Some? {
        ok := id in ranks;
        if ok {
          ranks := ranks[id := between.value];
        }
        return;
      }
      ok := true;
      assert order[..0] == [];
      for i := 0 to |order|
        invariant ranks == Renumbered(old(ranks), order[..i])
      {
        assert order[..i + 1][..i] == order[..i];
        if order[i] in ranks {
          ranks := ranks[order[i] := i as real + APPEND_GAP];
        }
      }
      assert order[..|order|] == order;
    }

    method MoveItem(ids: seq<Id>, id: Id, before: Option<Id>, after: Option<Id>, mid: real) returns (found: bool)
      requires forall x <- ids :: x in ranks
      modifies this
      ensures found <==> id in ids
      ensures ranks == if found then Move(old(ranks), ids, id, before, after, mid).ranks else old(ranks)
    {
      if id !in ids {
        return false;
      }
      var order := Without(ids, id);
      var pos := |order|;
      if before.Some? {
        var p := Position(order, before.value);
        if p.Some? {
          pos := p.value + 1;
        }
      } else if after.Some? {
        var p := Position(order, after.value);
        pos := if p.Some? then p.value else 0;
      }
      order := order[..pos] + [id] + order[pos..];
      found := StoreOrder(id, RankOf(ranks, ids, before), RankOf(ranks, ids, after), order, mid);
    }
  }
}
