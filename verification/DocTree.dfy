/** The documentation sidebar: a flat listing turned into a sorted forest.
  *
  * `lower` stands for the standard library's Unicode lower-casing; nothing here depends on
  * which function it is.
  */
module DocTree {
  import opened Text

  datatype RawEntry = RawEntry(path: string, name: string, isDir: bool, size: nat)

  datatype Kind = Dir | Doc

  datatype DocEntry = DocEntry(path: string, name: string, kind: Kind, size: Option<nat>, children: seq<DocEntry>)

  // A node of the forest without its children.
  datatype Node = Node(path: string, name: string, kind: Kind, size: Option<nat>)

  const MAX_DEPTH: nat := 64
  const I64_MAX: nat := 0x7FFF_FFFF_FFFF_FFFF

  // --- paths -----------------------------------------------------------------

  /** The part before the last `/`, or the empty path. */
  function ParentOf(path: string): (parent: string)
    ensures '/' !in path ==> parent == ""
    ensures '/' in path ==> |parent| < |path| && path[|parent|] == '/' && parent == path[..|parent|]
                            && '/' !in path[|parent| + 1..]
    ensures path != "" ==> |parent| < |path|
  {
    if path == "" then "" else
    var init, last := path[..|path| - 1], path[|path| - 1];
    if last == '/' then init else ParentOf(init)
  }

  function Separators(path: string): nat {
    if path == "" then 0
    else Separators(path[..|path| - 1]) + if path[|path| - 1] == '/' then 1 else 0
  }

  lemma {:induction false} ParentHasOneSeparatorLess(path: string)
    ensures '/' in path ==> Separators(path) == Separators(ParentOf(path)) + 1
    ensures '/' !in path ==> Separators(path) == 0
  {
    if path != "" && path[|path| - 1] != '/' {
      assert path == path[..|path| - 1] + [path[|path| - 1]];
      ParentHasOneSeparatorLess(path[..|path| - 1]);
    }
  }

  // --- ordering --------------------------------------------------------------

  predicate StringLe(a: string, b: string) {
    a == "" || (b != "" && (a[0] < b[0] || (a[0] == b[0] && StringLe(a[1..], b[1..]))))
  }

  datatype Key = Key(isDoc: bool, name: string)

  // Directories first, then by lower-cased name.
  function KeyOf(e: DocEntry, lower: string -> string): Key {
    Key(e.kind == Doc, lower(e.name))
  }

  predicate KeyLe(a: Key, b: Key) {
    if a.isDoc != b.isDoc then !a.isDoc else StringLe(a.name, b.name)
  }

  lemma StringLeOrder(a: string, b: string, c: string)
    ensures StringLe(a, b) || StringLe(b, a)
    ensures StringLe(a, b) && StringLe(b, a) ==> a == b
    ensures StringLe(a, b) && StringLe(b, c) ==> StringLe(a, c)
  {
    if a != "" && b != "" {
      StringLeOrder(a[1..], b[1..], if c != "" then c[1..] else c);
      assert a == [a[0]] + a[1..] && b == [b[0]] + b[1..];
    }
  }

  lemma KeyLeOrder(a: Key, b: Key, c: Key)
    ensures KeyLe(a, b) || KeyLe(b, a)
    ensures KeyLe(a, b) && KeyLe(b, a) ==> a == b
    ensures KeyLe(a, b) && KeyLe(b, c) ==> KeyLe(a, c)
  {
    StringLeOrder(a.name, b.name, c.name);
  }

  ghost predicate KeysRise(level: seq<DocEntry>, lower: string -> string) {
    forall i, j :: 0 <= i < j < |level| ==> KeyLe(KeyOf(level[i], lower), KeyOf(level[j], lower))
  }

  // The texts agree up to `k`, and there the first ends or has the smaller character.
  predicate SplitsAt(a: string, b: string, k: nat) {
    && k <= |a| && k <= |b| && a[..k] == b[..k]
    && (k == |a| || (k < |b| && a[k] < b[k]))
  }

  ghost predicate Precedes(a: string, b: string) {
    exists k: nat :: SplitsAt(a, b, k)
  }

  // No document stands before a directory, and within each kind the lower-cased names are in
  // dictionary order.
  ghost predicate Sorted(level: seq<DocEntry>, lower: string -> string) {
    forall i, j :: 0 <= i < j < |level| ==>
      && !(level[i].kind == Doc && level[j].kind == Dir)
      && (level[i].kind == level[j].kind ==> Precedes(lower(level[i].name), lower(level[j].name)))
  }

  lemma {:induction false} StringLeIff(a: string, b: string)
    ensures StringLe(a, b) <==> Precedes(a, b)
  {
    if a == "" {
      assert SplitsAt(a, b, 0);
    } else if b != "" {
      StringLeIff(a[1..], b[1..]);
      assert SplitsAt(a, b, 0) <==> a[0] < b[0];
      if k: nat :| SplitsAt(a, b, k) {
        if k > 0 { SplitsTail(a, b, k - 1); }
      }
      if k: nat :| SplitsAt(a[1..], b[1..], k) {
        SplitsTail(a, b, k);
      }
    }
  }

  lemma SplitsTail(a: string, b: string, k: nat)
    requires a != "" && b != ""
    ensures SplitsAt(a, b, k + 1) <==> a[0] == b[0] && SplitsAt(a[1..], b[1..], k)
  {
    if k < |a| && k < |b| {
      assert a[..k + 1] == [a[0]] + a[1..][..k] && b[..k + 1] == [b[0]] + b[1..][..k];
      assert a[..k + 1][0] == a[0] && b[..k + 1][0] == b[0];
      assert a[..k + 1][1..] == a[1..][..k] && b[..k + 1][1..] == b[1..][..k];
    }
  }

  lemma KeyLeIff(a: DocEntry, b: DocEntry, lower: string -> string)
    ensures KeyLe(KeyOf(a, lower), KeyOf(b, lower))
            <==> (&& !(a.kind == Doc && b.kind == Dir)
                  && (a.kind == b.kind ==> Precedes(lower(a.name), lower(b.name))))
  {
    hide StringLe, Precedes;
    StringLeIff(lower(a.name), lower(b.name));
  }

  lemma SortedIff(level: seq<DocEntry>, lower: string -> string)
    ensures Sorted(level, lower) <==> KeysRise(level, lower)
  {
    hide KeyLe, KeyOf, Precedes;
    forall i, j | 0 <= i < j < |level|
      ensures KeyLe(KeyOf(level[i], lower), KeyOf(level[j], lower))
              <==> (&& !(level[i].kind == Doc && level[j].kind == Dir)
                    && (level[i].kind == level[j].kind ==> Precedes(lower(level[i].name), lower(level[j].name))))
    {
      KeyLeIff(level[i], level[j], lower);
    }
  }

  function Insert(e: DocEntry, level: seq<DocEntry>, lower: string -> string): seq<DocEntry> {
    if level == [] || KeyLe(KeyOf(e, lower), KeyOf(level[0], lower)) then [e] + level
    else [level[0]] + Insert(e, level[1..], lower)
  }

  // `sort_by`: a stable sort.
  function SortLevel(level: seq<DocEntry>, lower: string -> string): seq<DocEntry> {
    if level == [] then [] else Insert(level[0], SortLevel(level[1..], lower), lower)
  }

  function WithKey(level: seq<DocEntry>, k: Key, lower: string -> string): seq<DocEntry> {
    if level == [] then [] else
    (if KeyOf(level[0], lower) == k then [level[0]] else []) + WithKey(level[1..], k, lower)
  }

  lemma {:induction false} InsertSorts(e: DocEntry, level: seq<DocEntry>, lower: string -> string)
    requires KeysRise(level, lower)
    ensures KeysRise(Insert(e, level, lower), lower)
    ensures multiset(Insert(e, level, lower)) == multiset{e} + multiset(level)
  {
    hide KeyLe, KeyOf;
    if level == [] {
    } else if KeyLe(KeyOf(e, lower), KeyOf(level[0], lower)) {
      forall j | 0 <= j < |level| ensures KeyLe(KeyOf(e, lower), KeyOf(level[j], lower)) {
        KeyLeOrder(KeyOf(e, lower), KeyOf(level[0], lower), KeyOf(level[j], lower));
      }
    } else {
      var rest := Insert(e, level[1..], lower);
      InsertSorts(e, level[1..], lower);
      assert level == [level[0]] + level[1..];
      forall j | 0 <= j < |rest| ensures KeyLe(KeyOf(level[0], lower), KeyOf(rest[j], lower)) {
        assert rest[j] in multiset(rest);
        KeyLeOrder(KeyOf(e, lower), KeyOf(level[0], lower), KeyOf(e, lower));
      }
    }
  }

  lemma {:induction false} InsertIsStable(e: DocEntry, level: seq<DocEntry>, k: Key, lower: string -> string)
    ensures WithKey(Insert(e, level, lower), k, lower) == WithKey([e] + level, k, lower)
  {
    if level != [] && !KeyLe(KeyOf(e, lower), KeyOf(level[0], lower)) {
      InsertIsStable(e, level[1..], k, lower);
      KeyLeOrder(KeyOf(e, lower), KeyOf(e, lower), KeyOf(e, lower));
      assert ([e] + level)[1..] == level && ([e] + level[1..])[1..] == level[1..];
      assert Insert(e, level, lower)[1..] == Insert(e, level[1..], lower);
    }
  }

  // The level comes out in order, with the same entries, equal keys keeping their order.
  lemma SortLevelSorts(level: seq<DocEntry>, lower: string -> string)
    ensures Sorted(SortLevel(level, lower), lower)
    ensures multiset(SortLevel(level, lower)) == multiset(level)
    ensures forall k :: WithKey(SortLevel(level, lower), k, lower) == WithKey(level, k, lower)
  {
    SortRises(level, lower);
    SortedIff(SortLevel(level, lower), lower);
    hide SortLevel;
  }

  lemma {:induction false} SortRises(level: seq<DocEntry>, lower: string -> string)
    ensures KeysRise(SortLevel(level, lower), lower)
    ensures multiset(SortLevel(level, lower)) == multiset(level)
    ensures forall k :: WithKey(SortLevel(level, lower), k, lower) == WithKey(level, k, lower)
  {
    if level != [] {
      SortRises(level[1..], lower);
      InsertSorts(level[0], SortLevel(level[1..], lower), lower);
      assert level == [level[0]] + level[1..];
      forall k ensures WithKey(SortLevel(level, lower), k, lower) == WithKey(level, k, lower) {
        var rest := SortLevel(level[1..], lower);
        InsertIsStable(level[0], rest, k, lower);
        assert ([level[0]] + rest)[1..] == rest;
      }
    }
  }

  lemma {:induction false} WithKeyHas(level: seq<DocEntry>, k: Key, lower: string -> string)
    ensures WithKey(level, k, lower) != [] <==> exists i :: 0 <= i < |level| && KeyOf(level[i], lower) == k
  {
    if level != [] {
      WithKeyHas(level[1..], k, lower);
      if i :| 0 <= i < |level[1..]| && KeyOf(level[1..][i], lower) == k {
        assert KeyOf(level[i + 1], lower) == k;
      }
      if i :| 0 <= i < |level| && KeyOf(level[i], lower) == k && i > 0 {
        assert KeyOf(level[1..][i - 1], lower) == k;
      }
    }
  }

  lemma WithKeyTail(level: seq<DocEntry>, k: Key, lower: string -> string)
    requires level != []
    ensures KeyOf(level[0], lower) == k ==>
              WithKey(level, k, lower) == [level[0]] + WithKey(level[1..], k, lower)
    ensures KeyOf(level[0], lower) != k ==> WithKey(level[1..], k, lower) == WithKey(level, k, lower)
    ensures KeyOf(level[0], lower) == k ==> WithKey(level, k, lower)[1..] == WithKey(level[1..], k, lower)
  {
  }

  // Those three properties leave no choice: they determine the sorted level.
  lemma StableSortIsUnique(a: seq<DocEntry>, b: seq<DocEntry>, lower: string -> string)
    requires Sorted(a, lower) && Sorted(b, lower)
    requires forall k :: WithKey(a, k, lower) == WithKey(b, k, lower)
    ensures a == b
  {
    hide Sorted, KeysRise;
    SortedIff(a, lower);
    SortedIff(b, lower);
    StableRisingIsUnique(a, b, lower);
  }

  lemma {:induction false} StableRisingIsUnique(a: seq<DocEntry>, b: seq<DocEntry>, lower: string -> string)
    requires KeysRise(a, lower) && KeysRise(b, lower)
    requires forall k :: WithKey(a, k, lower) == WithKey(b, k, lower)
    ensures a == b
  {
    if a == [] {
      if b != [] {
        var kb := KeyOf(b[0], lower);
        WithKeyHas(a, kb, lower);
        WithKeyHas(b, kb, lower);
      }
    } else {
      var ka := KeyOf(a[0], lower);
      WithKeyHas(a, ka, lower);
      WithKeyHas(b, ka, lower);
      var i :| 0 <= i < |b| && KeyOf(b[i], lower) == ka;
      var kb := KeyOf(b[0], lower);
      WithKeyHas(b, kb, lower);
      WithKeyHas(a, kb, lower);
      var j :| 0 <= j < |a| && KeyOf(a[j], lower) == kb;
      KeyLeOrder(ka, kb, ka);
      KeyLeOrder(ka, ka, ka);
      assert ka == kb;
      WithKeyTail(a, ka, lower);
      WithKeyTail(b, ka, lower);
      forall k ensures WithKey(a[1..], k, lower) == WithKey(b[1..], k, lower) {
        WithKeyTail(a, k, lower);
        WithKeyTail(b, k, lower);
      }
      StableRisingIsUnique(a[1..], b[1..], lower);
      assert a == [a[0]] + a[1..] && b == [b[0]] + b[1..];
    }
  }

  // --- building the forest ---------------------------------------------------

  // The indices below `n` of the entries whose parent is `p`, in listing order.
  function IndicesUpTo(raw: seq<RawEntry>, p: string, n: nat): (idx: seq<nat>)
    requires n <= |raw|
    ensures forall j :: 0 <= j < |idx| ==> idx[j] < n && ParentOf(raw[idx[j]].path) == p
  {
    if n == 0 then [] else
    var before := IndicesUpTo(raw, p, n - 1);
    if ParentOf(raw[n - 1].path) == p then before + [n - 1] else before
  }

  // The index after the first `n` entries: each entry is pushed under its parent's path.
  function Index(raw: seq<RawEntry>, n: nat): map<string, seq<nat>>
    requires n <= |raw|
  {
    if n == 0 then map[] else
    var m, p := Index(raw, n - 1), ParentOf(raw[n - 1].path);
    m[p := (if p in m then m[p] else []) + [n - 1]]
  }

  lemma {:induction false} IndexHoldsTheChildren(raw: seq<RawEntry>, n: nat, p: string)
    requires n <= |raw|
    ensures (if p in Index(raw, n) then Index(raw, n)[p] else []) == IndicesUpTo(raw, p, n)
    ensures p in Index(raw, n) ==> Index(raw, n)[p] != []
  {
    hide ParentOf;
    if n > 0 {
      IndexHoldsTheChildren(raw, n - 1, p);
    }
  }

  function EntryOf(e: RawEntry, children: seq<DocEntry>): DocEntry {
    DocEntry(e.path, e.name, if e.isDir then Dir else Doc, SizeOf(e), children)
  }

  function SizeOf(e: RawEntry): Option<nat> {
    if e.isDir then None else Some(if e.size <= I64_MAX then e.size else I64_MAX)
  }

  // `indices.iter().filter_map(|i| raw.get(*i))`
  function Fetched(raw: seq<RawEntry>, indices: seq<nat>): seq<RawEntry> {
    if indices == [] then [] else
    (if indices[0] < |raw| then [raw[indices[0]]] else []) + Fetched(raw, indices[1..])
  }

  function BuildLevel(
    raw: seq<RawEntry>, byParent: map<string, seq<nat>>, prefix: string, depth: nat, lower: string -> string)
    : seq<DocEntry>
    decreases if depth <= MAX_DEPTH then MAX_DEPTH + 1 - depth else 0, 1, 0
  {
    if depth > MAX_DEPTH || prefix !in byParent then []
    else SortLevel(BuildEntries(raw, byParent, Fetched(raw, byParent[prefix]), depth, lower), lower)
  }

  function BuildEntries(
    raw: seq<RawEntry>, byParent: map<string, seq<nat>>, es: seq<RawEntry>, depth: nat, lower: string -> string)
    : seq<DocEntry>
    requires depth <= MAX_DEPTH
    decreases MAX_DEPTH + 1 - depth, 0, |es|
  {
    if es == [] then [] else
    [EntryOf(es[0], if es[0].isDir then BuildLevel(raw, byParent, es[0].path, depth + 1, lower) else [])]
    + BuildEntries(raw, byParent, es[1..], depth, lower)
  }

  function Nested(raw: seq<RawEntry>, lower: string -> string): seq<DocEntry> {
    BuildLevel(raw, Index(raw, |raw|), "", 0, lower)
  }

  /** `nest`: index the listing by parent once, then build the forest by descent. */
  method Nest(raw: seq<RawEntry>, lower: string -> string) returns (forest: seq<DocEntry>)
    ensures forest == Nested(raw, lower)
  {
    hide ParentOf, BuildLevel;
    var byParent: map<string, seq<nat>> := map[];
    for i := 0 to |raw|
      invariant byParent == Index(raw, i)
    {
      var p := ParentOf(raw[i].path);
      byParent := byParent[p := (if p in byParent then byParent[p] else []) + [i]];
    }
    forest := BuildLevel(raw, byParent, "", 0, lower);
  }

  // --- the simple builder ----------------------------------------------------

  ghost predicate Walkable(raw: seq<RawEntry>, longest: nat) {
    forall e <- raw :: e.path != "" && |e.path| <= longest
  }

  // The entries of the listing whose parent is `p`, in listing order.
  function ChildrenOf(raw: seq<RawEntry>, p: string): (kids: seq<RawEntry>)
    ensures forall e <- kids :: e in raw && ParentOf(e.path) == p
  {
    if raw == [] then [] else
    var before, last := ChildrenOf(raw[..|raw| - 1], p), raw[|raw| - 1];
    if ParentOf(last.path) == p then before + [last] else before
  }

  // No index and no depth guard: the listing is filtered at every level. Paths grow on the way
  // down, and that is what makes the descent end.
  ghost function SimpleLevel(raw: seq<RawEntry>, prefix: string, longest: nat, lower: string -> string): seq<DocEntry>
    requires Walkable(raw, longest) && |prefix| <= longest
    decreases longest - |prefix|, 1, 0
  {
    SortLevel(SimpleEntries(raw, ChildrenOf(raw, prefix), prefix, longest, lower), lower)
  }

  ghost function SimpleEntries(
    raw: seq<RawEntry>, kids: seq<RawEntry>, prefix: string, longest: nat, lower: string -> string): seq<DocEntry>
    requires Walkable(raw, longest) && |prefix| <= longest
    requires forall e <- kids :: e in raw && ParentOf(e.path) == prefix
    decreases longest - |prefix|, 0, |kids|
  {
    if kids == [] then [] else
    assert kids[0] in kids && kids[0] in raw && |ParentOf(kids[0].path)| < |kids[0].path|;
    [EntryOf(kids[0], if kids[0].isDir then SimpleLevel(raw, kids[0].path, longest, lower) else [])]
    + SimpleEntries(raw, kids[1..], prefix, longest, lower)
  }

  lemma {:induction false} FetchedSnoc(raw: seq<RawEntry>, indices: seq<nat>, i: nat)
    requires i < |raw|
    ensures Fetched(raw, indices + [i]) == Fetched(raw, indices) + [raw[i]]
  {
    if indices != [] {
      assert (indices + [i])[1..] == indices[1..] + [i];
      FetchedSnoc(raw, indices[1..], i);
    }
  }

  lemma {:induction false} IndexedChildren(raw: seq<RawEntry>, p: string, n: nat)
    requires n <= |raw|
    ensures Fetched(raw, IndicesUpTo(raw, p, n)) == ChildrenOf(raw[..n], p)
  {
    hide ParentOf;
    if n > 0 {
      IndexedChildren(raw, p, n - 1);
      assert raw[..n][..n - 1] == raw[..n - 1] && raw[..n][n - 1] == raw[n - 1];
      FetchedSnoc(raw, IndicesUpTo(raw, p, n - 1), n - 1);
    }
  }

  // The indexed level holds the children of `prefix`, in listing order.
  lemma LevelUnfolds(raw: seq<RawEntry>, prefix: string, depth: nat, lower: string -> string)
    requires depth <= MAX_DEPTH
    ensures BuildLevel(raw, Index(raw, |raw|), prefix, depth, lower)
            == SortLevel(BuildEntries(raw, Index(raw, |raw|), ChildrenOf(raw, prefix), depth, lower), lower)
  {
    hide ParentOf, Index;
    IndexHoldsTheChildren(raw, |raw|, prefix);
    IndexedChildren(raw, prefix, |raw|);
    assert raw[..|raw|] == raw;
  }

  ghost predicate Shallow(raw: seq<RawEntry>) {
    forall e <- raw :: Separators(e.path) <= MAX_DEPTH
  }

  // The depth of a level is at most one more than the separators of its prefix.
  ghost predicate DepthFits(prefix: string, depth: nat) {
    if prefix == "" then depth == 0 else depth <= Separators(prefix) + 1
  }

  lemma ChildDepthFits(path: string, depth: nat)
    requires path != "" && DepthFits(ParentOf(path), depth)
    ensures DepthFits(path, depth + 1)
  {
    ParentHasOneSeparatorLess(path);
  }

  // Entries agree when the levels below them do.
  lemma {:induction false} SameLevelsSameEntries(
    raw: seq<RawEntry>, byParent: map<string, seq<nat>>, kids: seq<RawEntry>, prefix: string, depth: nat, longest: nat,
    lower: string -> string)
    requires Walkable(raw, longest) && |prefix| <= longest && depth <= MAX_DEPTH
    requires forall e <- kids :: e in raw && ParentOf(e.path) == prefix
    requires forall e <- kids ::
               (|e.path| <= longest
                && BuildLevel(raw, byParent, e.path, depth + 1, lower) == SimpleLevel(raw, e.path, longest, lower))
    ensures BuildEntries(raw, byParent, kids, depth, lower) == SimpleEntries(raw, kids, prefix, longest, lower)
    decreases |kids|
  {
    hide BuildLevel, SimpleLevel, SortLevel, ParentOf, ChildrenOf;
    if kids != [] {
      assert kids[0] in kids;
      SameLevelsSameEntries(raw, byParent, kids[1..], prefix, depth, longest, lower);
    }
  }

  // A level of the guarded builder is the simple level: paths run out of separators before the
  // guard cuts anything off.
  lemma {:induction false} GuardedLevelIsSimple(
    raw: seq<RawEntry>, prefix: string, depth: nat, longest: nat, lower: string -> string)
    requires Walkable(raw, longest) && |prefix| <= longest
    requires Shallow(raw) && DepthFits(prefix, depth)
    ensures BuildLevel(raw, Index(raw, |raw|), prefix, depth, lower) == SimpleLevel(raw, prefix, longest, lower)
    decreases longest - |prefix|
  {
    hide ParentOf, ChildrenOf, Index;
    var byParent, kids := Index(raw, |raw|), ChildrenOf(raw, prefix);
    if depth > MAX_DEPTH {
      if kids != [] {
        assert kids[0] in kids;
        ParentHasOneSeparatorLess(kids[0].path);
        assert false;
      }
    } else {
      forall e <- kids
        ensures (|e.path| <= longest
                 && BuildLevel(raw, byParent, e.path, depth + 1, lower) == SimpleLevel(raw, e.path, longest, lower))
      {
        ChildDepthFits(e.path, depth);
        GuardedLevelIsSimple(raw, e.path, depth + 1, longest, lower);
      }
      SameLevelsSameEntries(raw, byParent, kids, prefix, depth, longest, lower);
      LevelUnfolds(raw, prefix, depth, lower);
    }
  }

  /** For listings of non-empty paths with at most 64 separators the indexed, depth-guarded
    * builder is the simple one.
    */
  lemma NestIsSimple(raw: seq<RawEntry>, longest: nat, lower: string -> string)
    requires Walkable(raw, longest)
    requires Shallow(raw)
    ensures Nested(raw, lower) == SimpleLevel(raw, "", longest, lower)
  {
    GuardedLevelIsSimple(raw, "", 0, longest, lower);
  }

  // --- what the forest holds -------------------------------------------------

  function NodeOf(e: RawEntry): Node {
    Node(e.path, e.name, if e.isDir then Dir else Doc, SizeOf(e))
  }

  // Pre-order listing of the forest.
  function Flatten(forest: seq<DocEntry>): seq<Node>
    decreases forest
  {
    if forest == [] then [] else
    var e := forest[0];
    [Node(e.path, e.name, e.kind, e.size)] + Flatten(e.children) + Flatten(forest[1..])
  }

  ghost predicate ListedDir(raw: seq<RawEntry>, path: string) {
    exists e <- raw :: e.isDir && e.path == path
  }

  // How many listed directories lie strictly between `prefix` and `path`, climbing from `path`;
  // `None` if an ancestor on the way is not a listed directory or `prefix` is never met.
  ghost function Steps(raw: seq<RawEntry>, prefix: string, path: string): Option<nat>
    decreases |path|
  {
    if path == "" then None else
    var q := ParentOf(path);
    if q == prefix then Some(0)
    else if q == "" || !ListedDir(raw, q) then None
    else match Steps(raw, prefix, q) case None => None case Some(n) => Some(n + 1)
  }

  ghost predicate Within(raw: seq<RawEntry>, prefix: string, depth: nat, path: string) {
    Steps(raw, prefix, path).Some? && depth + Steps(raw, prefix, path).value <= MAX_DEPTH
  }

  // Every ancestor of the entry is a listed directory.
  ghost predicate Linked(raw: seq<RawEntry>, path: string) {
    Steps(raw, "", path).Some?
  }

  ghost predicate DistinctPaths(es: seq<RawEntry>) {
    forall i, j :: 0 <= i < j < |es| ==> es[i].path != es[j].path
  }

  lemma {:induction false} StepsShrink(raw: seq<RawEntry>, prefix: string, path: string)
    requires Steps(raw, prefix, path).Some?
    ensures |prefix| < |path|
    decreases |path|
  {
    if ParentOf(path) != prefix {
      StepsShrink(raw, prefix, ParentOf(path));
    }
  }

  lemma {:induction false} StepsUnique(raw: seq<RawEntry>, a: string, b: string, path: string)
    requires Steps(raw, a, path).Some? && Steps(raw, a, path) == Steps(raw, b, path)
    ensures a == b
    decreases |path|
  {
    hide ParentOf, ListedDir;
    if ParentOf(path) != a {
      StepsUnique(raw, a, b, ParentOf(path));
    }
  }

  lemma {:induction false} StepsExtend(raw: seq<RawEntry>, k: RawEntry, path: string)
    requires k in raw && k.isDir && k.path != "" && Steps(raw, k.path, path).Some?
    ensures Steps(raw, ParentOf(k.path), path) == Some(Steps(raw, k.path, path).value + 1)
    decreases |path|
  {
    StepsShrink(raw, k.path, path);
    var q := ParentOf(path);
    if q != k.path {
      StepsExtend(raw, k, q);
      StepsShrink(raw, k.path, q);
    }
  }

  lemma {:induction false} StepsSplit(raw: seq<RawEntry>, prefix: string, path: string) returns (k: RawEntry)
    requires Steps(raw, prefix, path).Some? && Steps(raw, prefix, path).value > 0
    ensures k in raw && k.isDir && k.path != "" && ParentOf(k.path) == prefix
    ensures Steps(raw, k.path, path) == Some(Steps(raw, prefix, path).value - 1)
    decreases |path|
  {
    hide ParentOf;
    var q := ParentOf(path);
    assert q != prefix && q != "" && ListedDir(raw, q);
    if Steps(raw, prefix, q).value == 0 {
      k :| k in raw && k.isDir && k.path == q;
      assert ParentOf(q) == prefix;
    } else {
      hide ListedDir;
      k := StepsSplit(raw, prefix, q);
      StepsShrink(raw, k.path, q);
    }
  }

  lemma {:induction false} InsertFlattens(e: DocEntry, level: seq<DocEntry>, lower: string -> string)
    ensures multiset(Flatten(Insert(e, level, lower))) == multiset(Flatten([e] + level))
  {
    hide KeyLe, KeyOf;
    if level != [] && !KeyLe(KeyOf(e, lower), KeyOf(level[0], lower)) {
      InsertFlattens(e, level[1..], lower);
      assert ([e] + level)[1..] == level && ([e] + level[1..])[1..] == level[1..];
      assert Insert(e, level, lower)[1..] == Insert(e, level[1..], lower);
    }
  }

  lemma {:induction false} SortFlattens(level: seq<DocEntry>, lower: string -> string)
    ensures multiset(Flatten(SortLevel(level, lower))) == multiset(Flatten(level))
  {
    hide Insert;
    if level != [] {
      var rest := SortLevel(level[1..], lower);
      SortFlattens(level[1..], lower);
      InsertFlattens(level[0], rest, lower);
      assert ([level[0]] + rest)[1..] == rest;
    }
  }

  // A listing as the walk produces it: no empty path, no path twice.
  ghost predicate Listing(raw: seq<RawEntry>) {
    DistinctPaths(raw) && forall e <- raw :: e.path != ""
  }

  // The entries reached from `prefix` within the depth that is left.
  ghost function KeptNodes(raw: seq<RawEntry>, prefix: string, depth: nat): set<Node> {
    set e <- raw | Within(raw, prefix, depth, e.path) :: NodeOf(e)
  }

  // The given siblings and what is kept below each.
  ghost function Below(raw: seq<RawEntry>, kids: seq<RawEntry>, depth: nat): set<Node> {
    if kids == [] then {} else
    {NodeOf(kids[0])} + (if kids[0].isDir then KeptNodes(raw, kids[0].path, depth + 1) else {})
    + Below(raw, kids[1..], depth)
  }

  lemma {:induction false} BelowHas(raw: seq<RawEntry>, kids: seq<RawEntry>, depth: nat, x: Node)
    ensures x in Below(raw, kids, depth) <==>
              exists k <- kids :: x == NodeOf(k) || (k.isDir && x in KeptNodes(raw, k.path, depth + 1))
  {
    hide KeptNodes;
    if kids != [] {
      BelowHas(raw, kids[1..], depth, x);
      assert kids == [kids[0]] + kids[1..];
    }
  }

  lemma {:induction false} ChildrenOfHas(raw: seq<RawEntry>, p: string)
    ensures forall e <- raw :: ParentOf(e.path) == p ==> e in ChildrenOf(raw, p)
    ensures DistinctPaths(raw) ==> DistinctPaths(ChildrenOf(raw, p))
  {
    hide ParentOf;
    if raw != [] {
      var n := |raw| - 1;
      ChildrenOfHas(raw[..n], p);
      assert raw == raw[..n] + [raw[n]];
      if DistinctPaths(raw) { ChildrenOfDistinct(raw, p); }
    }
  }

  lemma ChildrenOfDistinct(raw: seq<RawEntry>, p: string)
    requires raw != [] && DistinctPaths(raw) && DistinctPaths(ChildrenOf(raw[..|raw| - 1], p))
    ensures DistinctPaths(ChildrenOf(raw, p))
  {
    hide ParentOf;
    var n := |raw| - 1;
    forall e <- ChildrenOf(raw[..n], p) ensures e.path != raw[n].path {
      var i :| 0 <= i < n && raw[i] == e;
    }
  }

  lemma KeptIsBelow(raw: seq<RawEntry>, prefix: string, depth: nat, x: Node)
    requires Listing(raw) && x in KeptNodes(raw, prefix, depth)
    ensures x in Below(raw, ChildrenOf(raw, prefix), depth)
  {
    hide ParentOf, ChildrenOf, Below;
    var kids := ChildrenOf(raw, prefix);
    ChildrenOfHas(raw, prefix);
    BelowHas(raw, kids, depth, x);
    var e :| e in raw && Within(raw, prefix, depth, e.path) && NodeOf(e) == x;
    if Steps(raw, prefix, e.path).value == 0 {
      assert e in kids;
    } else {
      var k := StepsSplit(raw, prefix, e.path);
      assert k in kids && x in KeptNodes(raw, k.path, depth + 1);
    }
  }

  lemma BelowIsKept(raw: seq<RawEntry>, prefix: string, depth: nat, x: Node)
    requires Listing(raw) && depth <= MAX_DEPTH && x in Below(raw, ChildrenOf(raw, prefix), depth)
    ensures x in KeptNodes(raw, prefix, depth)
  {
    hide ParentOf, ChildrenOf, Below;
    var kids := ChildrenOf(raw, prefix);
    BelowHas(raw, kids, depth, x);
    if k :| k in kids && x == NodeOf(k) {
      assert Within(raw, prefix, depth, k.path);
    } else {
      var k :| k in kids && k.isDir && x in KeptNodes(raw, k.path, depth + 1);
      var e :| e in raw && Within(raw, k.path, depth + 1, e.path) && NodeOf(e) == x;
      StepsExtend(raw, k, e.path);
      assert Within(raw, prefix, depth, e.path);
    }
  }

  // Nothing is kept below one sibling and also is, or is kept below, another.
  lemma SiblingsDisjoint(raw: seq<RawEntry>, k: RawEntry, others: seq<RawEntry>, prefix: string, depth: nat)
    requires Listing(raw) && k in raw && ParentOf(k.path) == prefix
    requires forall o <- others :: o in raw && ParentOf(o.path) == prefix && o.path != k.path
    ensures NodeOf(k) !in KeptNodes(raw, k.path, depth) && NodeOf(k) !in Below(raw, others, depth)
    ensures k.isDir ==> KeptNodes(raw, k.path, depth + 1) !! Below(raw, others, depth)
    ensures NodeOf(k) !in KeptNodes(raw, k.path, depth + 1)
  {
    hide KeptNodes, ParentOf, Below, Listing, NodeOf;
    NotKeptBelowItself(raw, k, depth);
    NotKeptBelowItself(raw, k, depth + 1);
    BelowHas(raw, others, depth, NodeOf(k));
    forall o <- others
      ensures NodeOf(k) != NodeOf(o) && (o.isDir ==> NodeOf(k) !in KeptNodes(raw, o.path, depth + 1))
    {
      SiblingNotBelow(raw, k, o, depth);
    }
    if k.isDir {
      forall x | x in KeptNodes(raw, k.path, depth + 1) ensures x !in Below(raw, others, depth) {
        BelowHas(raw, others, depth, x);
        forall o <- others ensures x != NodeOf(o) && (o.isDir ==> x !in KeptNodes(raw, o.path, depth + 1)) {
          SiblingNotBelow(raw, o, k, depth);
          if o.isDir { SiblingsKeepApart(raw, k, o, depth, x); }
        }
      }
    }
  }

  lemma KeptEntry(raw: seq<RawEntry>, prefix: string, depth: nat, x: Node) returns (e: RawEntry)
    requires x in KeptNodes(raw, prefix, depth)
    ensures e in raw && Within(raw, prefix, depth, e.path) && NodeOf(e) == x
  {
    hide Within, NodeOf;
    e :| e in raw && Within(raw, prefix, depth, e.path) && NodeOf(e) == x;
  }

  lemma NotKeptBelowItself(raw: seq<RawEntry>, k: RawEntry, depth: nat)
    ensures NodeOf(k) !in KeptNodes(raw, k.path, depth)
  {
    hide KeptNodes, Steps;
    if NodeOf(k) in KeptNodes(raw, k.path, depth) {
      var e := KeptEntry(raw, k.path, depth, NodeOf(k));
      StepsShrink(raw, k.path, e.path);
    }
  }

  lemma SiblingNotBelow(raw: seq<RawEntry>, k: RawEntry, o: RawEntry, depth: nat)
    requires Listing(raw) && k in raw && o in raw && k.path != o.path && ParentOf(k.path) == ParentOf(o.path)
    ensures NodeOf(k) != NodeOf(o) && (o.isDir ==> NodeOf(k) !in KeptNodes(raw, o.path, depth + 1))
  {
    hide KeptNodes, ParentOf;
    if o.isDir && NodeOf(k) in KeptNodes(raw, o.path, depth + 1) {
      var e := KeptEntry(raw, o.path, depth + 1, NodeOf(k));
      StepsExtend(raw, o, e.path);
    }
  }

  lemma SiblingsKeepApart(raw: seq<RawEntry>, k: RawEntry, o: RawEntry, depth: nat, x: Node)
    requires Listing(raw) && k in raw && o in raw && k.path != o.path && ParentOf(k.path) == ParentOf(o.path)
    requires k.isDir && o.isDir && x in KeptNodes(raw, k.path, depth + 1)
    ensures x !in KeptNodes(raw, o.path, depth + 1)
  {
    hide KeptNodes, ParentOf, Steps, NodeOf;
    var e := KeptEntry(raw, k.path, depth + 1, x);
    StepsExtend(raw, k, e.path);
    if x in KeptNodes(raw, o.path, depth + 1) {
      var e' := KeptEntry(raw, o.path, depth + 1, x);
      NodeHasPath(e, e');
      StepsExtend(raw, o, e'.path);
      StepsUnique(raw, k.path, o.path, e.path);
    }
  }

  lemma NodeHasPath(e: RawEntry, e': RawEntry)
    requires NodeOf(e) == NodeOf(e')
    ensures e.path == e'.path
  {
  }

  lemma {:induction false} EntriesFlatten(
    raw: seq<RawEntry>, byParent: map<string, seq<nat>>, kids: seq<RawEntry>, prefix: string, depth: nat,
    lower: string -> string)
    requires Listing(raw) && depth <= MAX_DEPTH && DistinctPaths(kids)
    requires forall k <- kids :: k in raw && ParentOf(k.path) == prefix
    requires forall k <- kids :: k.isDir ==>
               (multiset(Flatten(BuildLevel(raw, byParent, k.path, depth + 1, lower)))
                == multiset(KeptNodes(raw, k.path, depth + 1)))
    ensures multiset(Flatten(BuildEntries(raw, byParent, kids, depth, lower))) == multiset(Below(raw, kids, depth))
  {
    hide BuildLevel, BuildEntries, Flatten, ParentOf, KeptNodes, Below, NodeOf, EntryOf, Listing;
    BelowUnfolds(raw, kids, depth);
    EntriesUnfold(raw, byParent, kids, depth, lower);
    if kids != [] {
      var k, rest := kids[0], kids[1..];
      assert kids == [k] + rest;
      EntriesFlatten(raw, byParent, rest, prefix, depth, lower);
      DistinctHead(kids);
      SiblingsDisjoint(raw, k, rest, prefix, depth);
      MultisetOfUnion(NodeOf(k), if k.isDir then KeptNodes(raw, k.path, depth + 1) else {}, Below(raw, rest, depth));
    }
  }

  lemma DistinctHead(es: seq<RawEntry>)
    requires DistinctPaths(es) && es != []
    ensures forall o <- es[1..] :: o.path != es[0].path
  {
  }

  lemma EntriesUnfold(
    raw: seq<RawEntry>, byParent: map<string, seq<nat>>, kids: seq<RawEntry>, depth: nat, lower: string -> string)
    requires depth <= MAX_DEPTH
    ensures kids == [] ==> Flatten(BuildEntries(raw, byParent, kids, depth, lower)) == []
    ensures kids != [] ==>
              Flatten(BuildEntries(raw, byParent, kids, depth, lower))
              == [NodeOf(kids[0])]
                 + (if kids[0].isDir then Flatten(BuildLevel(raw, byParent, kids[0].path, depth + 1, lower)) else [])
                 + Flatten(BuildEntries(raw, byParent, kids[1..], depth, lower))
  {
    hide BuildLevel, NodeOf;
    if kids != [] {
      var k := kids[0];
      var e := EntryOf(k, if k.isDir then BuildLevel(raw, byParent, k.path, depth + 1, lower) else []);
      FlattenCons(e, k, BuildEntries(raw, byParent, kids[1..], depth, lower));
    }
  }

  lemma BelowUnfolds(raw: seq<RawEntry>, kids: seq<RawEntry>, depth: nat)
    ensures kids == [] ==> Below(raw, kids, depth) == {}
    ensures kids != [] ==>
              Below(raw, kids, depth)
              == {NodeOf(kids[0])} + (if kids[0].isDir then KeptNodes(raw, kids[0].path, depth + 1) else {})
                 + Below(raw, kids[1..], depth)
  {
    hide KeptNodes;
  }

  lemma MultisetOfUnion<T>(x: T, a: set<T>, b: set<T>)
    requires x !in a && x !in b && a !! b
    ensures multiset({x} + a + b) == multiset{x} + multiset(a) + multiset(b)
  {
  }

  lemma FlattenCons(e: DocEntry, k: RawEntry, rest: seq<DocEntry>)
    requires e == EntryOf(k, e.children)
    ensures Flatten([e] + rest) == [NodeOf(k)] + Flatten(e.children) + Flatten(rest)
  {
    assert ([e] + rest)[1..] == rest;
  }

  lemma {:induction false} LevelFlattens(raw: seq<RawEntry>, prefix: string, depth: nat, lower: string -> string)
    requires Listing(raw)
    ensures multiset(Flatten(BuildLevel(raw, Index(raw, |raw|), prefix, depth, lower)))
            == multiset(KeptNodes(raw, prefix, depth))
    decreases if depth <= MAX_DEPTH then MAX_DEPTH + 1 - depth else 0
  {
    hide ParentOf, ChildrenOf, Index, Below, SortLevel, BuildEntries;
    if depth > MAX_DEPTH {
      assert KeptNodes(raw, prefix, depth) == {};
    } else {
      var byParent, kids := Index(raw, |raw|), ChildrenOf(raw, prefix);
      LevelUnfolds(raw, prefix, depth, lower);
      SortFlattens(BuildEntries(raw, byParent, kids, depth, lower), lower);
      ChildrenOfHas(raw, prefix);
      forall k <- kids | k.isDir
        ensures multiset(Flatten(BuildLevel(raw, byParent, k.path, depth + 1, lower)))
                == multiset(KeptNodes(raw, k.path, depth + 1))
      {
        LevelFlattens(raw, k.path, depth + 1, lower);
      }
      EntriesFlatten(raw, byParent, kids, prefix, depth, lower);
      forall x ensures x in KeptNodes(raw, prefix, depth) <==> x in Below(raw, kids, depth) {
        if x in KeptNodes(raw, prefix, depth) { KeptIsBelow(raw, prefix, depth, x); }
        if x in Below(raw, kids, depth) { BelowIsKept(raw, prefix, depth, x); }
      }
    }
  }

  /** The forest holds, each exactly once, the entries whose every ancestor is a listed directory
    * and that lie at most 64 directories deep, and nothing else.
    */
  lemma NestKeepsLinkedEntries(raw: seq<RawEntry>, lower: string -> string)
    requires Listing(raw)
    ensures multiset(Flatten(Nested(raw, lower)))
            == multiset(set e <- raw | Linked(raw, e.path) && Steps(raw, "", e.path).value <= 64 :: NodeOf(e))
  {
    hide BuildLevel, Flatten, Steps, Index, ParentOf;
    LevelFlattens(raw, "", 0, lower);
    assert KeptNodes(raw, "", 0)
           == set e <- raw | Linked(raw, e.path) && Steps(raw, "", e.path).value <= 64 :: NodeOf(e);
  }

  // The depth guard loses nothing exactly when no linked entry lies more than 64 deep.
  lemma GuardLosesNothingIff(raw: seq<RawEntry>, lower: string -> string)
    requires Listing(raw)
    ensures multiset(Flatten(Nested(raw, lower))) == multiset(set e <- raw | Linked(raw, e.path) :: NodeOf(e))
            <==> forall e <- raw | Linked(raw, e.path) :: Steps(raw, "", e.path).value <= 64
  {
    hide Nested, Flatten, Steps;
    NestKeepsLinkedEntries(raw, lower);
    var kept := set e <- raw | Linked(raw, e.path) && Steps(raw, "", e.path).value <= 64 :: NodeOf(e);
    var linked := set e <- raw | Linked(raw, e.path) :: NodeOf(e);
    if multiset(kept) == multiset(linked) {
      forall e <- raw | Linked(raw, e.path) ensures Steps(raw, "", e.path).value <= MAX_DEPTH {
        assert NodeOf(e) in multiset(linked);
        assert NodeOf(e) in kept;
      }
    }
    if forall e <- raw | Linked(raw, e.path) :: Steps(raw, "", e.path).value <= MAX_DEPTH {
      assert kept == linked;
    }
  }

  lemma {:induction false} StepsWithinSeparators(raw: seq<RawEntry>, path: string)
    requires Linked(raw, path)
    ensures Steps(raw, "", path).value <= Separators(path)
    decreases |path|
  {
    ParentHasOneSeparatorLess(path);
    if ParentOf(path) != "" {
      StepsWithinSeparators(raw, ParentOf(path));
    }
  }

  // In particular it loses nothing from a listing whose paths have at most 64 separators.
  lemma ShallowListingIsKept(raw: seq<RawEntry>, lower: string -> string)
    requires Listing(raw) && Shallow(raw)
    ensures multiset(Flatten(Nested(raw, lower))) == multiset(set e <- raw | Linked(raw, e.path) :: NodeOf(e))
  {
    hide Nested, Flatten, Steps, Separators;
    GuardLosesNothingIff(raw, lower);
    forall e <- raw | Linked(raw, e.path) ensures Steps(raw, "", e.path).value <= MAX_DEPTH {
      StepsWithinSeparators(raw, e.path);
    }
  }

  // The node tells its entry: its path and name, whether it is a directory, and the size of a
  // document, as far as a signed 64-bit number goes.
  predicate Tells(x: Node, e: RawEntry) {
    && x.path == e.path && x.name == e.name && (x.kind == Dir <==> e.isDir)
    && (e.isDir ==> x.size == None)
    && (!e.isDir && e.size < 0x8000_0000_0000_0000 ==> x.size == Some(e.size))
    && (!e.isDir && e.size >= 0x8000_0000_0000_0000 ==> x.size == Some(9_223_372_036_854_775_807))
  }

  /** Every node of the forest tells an entry of the listing, every linked entry at most 64
    * directories deep is told by a node, and a path has one node.
    */
  lemma NestTellsTheListing(raw: seq<RawEntry>, lower: string -> string)
    requires Listing(raw)
    ensures forall x <- Flatten(Nested(raw, lower)) :: exists e <- raw :: Linked(raw, e.path) && Tells(x, e)
    ensures forall e <- raw | Linked(raw, e.path) && Steps(raw, "", e.path).value <= 64 ::
              exists x <- Flatten(Nested(raw, lower)) :: Tells(x, e)
    ensures forall i, j :: 0 <= i < j < |Flatten(Nested(raw, lower))| ==>
              Flatten(Nested(raw, lower))[i].path != Flatten(Nested(raw, lower))[j].path
  {
    hide Nested, Flatten, Steps, ParentOf, NodeOf, Tells, DistinctPaths;
    NestKeepsLinkedEntries(raw, lower);
    var nodes := Flatten(Nested(raw, lower));
    var kept := set e <- raw | Linked(raw, e.path) && Steps(raw, "", e.path).value <= 64 :: NodeOf(e);
    forall x <- nodes ensures exists e <- raw :: Linked(raw, e.path) && Tells(x, e) {
      assert x in multiset(nodes);
      var e :| e in raw && Linked(raw, e.path) && NodeOf(e) == x;
      NodeTells(e);
    }
    forall e <- raw | Linked(raw, e.path) && Steps(raw, "", e.path).value <= 64
      ensures exists x <- nodes :: Tells(x, e)
    {
      assert NodeOf(e) in multiset(nodes);
      NodeTells(e);
    }
    forall i, j | 0 <= i < j < |nodes| ensures nodes[i].path != nodes[j].path {
      OnceEach(nodes, kept, i, j);
      assert nodes[i] in multiset(nodes) && nodes[j] in multiset(nodes);
      var e :| e in raw && NodeOf(e) == nodes[i];
      var e' :| e' in raw && NodeOf(e') == nodes[j];
      NodeTells(e);
      NodeTells(e');
      SamePathSameEntry(raw, nodes[i], nodes[j], e, e');
    }
  }

  lemma NodeTells(e: RawEntry)
    ensures Tells(NodeOf(e), e)
  {
  }

  lemma OnceEach<T>(s: seq<T>, xs: set<T>, i: nat, j: nat)
    requires multiset(s) == multiset(xs) && i < j < |s|
    ensures s[i] != s[j]
  {
    if s[i] == s[j] {
      TwiceCounted(s, i, j);
    }
  }

  lemma TwiceCounted<T>(s: seq<T>, i: nat, j: nat)
    requires i < j < |s| && s[i] == s[j]
    ensures multiset(s)[s[i]] >= 2
  {
    assert s == s[..j] + s[j..] && s[..j][i] == s[i] && s[j..][0] == s[j];
    assert s[i] in multiset(s[..j]) && s[i] in multiset(s[j..]);
  }

  lemma SamePathSameEntry(raw: seq<RawEntry>, x: Node, y: Node, e: RawEntry, e': RawEntry)
    requires DistinctPaths(raw) && e in raw && e' in raw && x == NodeOf(e) && y == NodeOf(e') && x != y
    ensures x.path != y.path
  {
  }

  // Every node hangs under the node whose path is its parent, documents have no children, and
  // every level is in order.
  ghost predicate WellPlaced(forest: seq<DocEntry>, parent: string, lower: string -> string)
    decreases forest
  {
    && Sorted(forest, lower)
    && forall n <- forest :: ParentOf(n.path) == parent && (n.kind == Doc ==> n.children == [])
                             && WellPlaced(n.children, n.path, lower)
  }

  lemma {:induction false} EntriesWellPlaced(
    raw: seq<RawEntry>, byParent: map<string, seq<nat>>, kids: seq<RawEntry>, prefix: string, depth: nat,
    lower: string -> string)
    requires depth <= MAX_DEPTH
    requires forall k <- kids :: ParentOf(k.path) == prefix
    requires forall k <- kids :: k.isDir ==>
               WellPlaced(BuildLevel(raw, byParent, k.path, depth + 1, lower), k.path, lower)
    ensures forall n <- BuildEntries(raw, byParent, kids, depth, lower) ::
              ParentOf(n.path) == prefix && (n.kind == Doc ==> n.children == [])
              && WellPlaced(n.children, n.path, lower)
  {
    hide BuildLevel, ParentOf, Sorted;
    if kids != [] {
      assert kids[0] in kids;
      EntriesWellPlaced(raw, byParent, kids[1..], prefix, depth, lower);
      EmptyIsWellPlaced(kids[0].path, lower);
    }
  }

  lemma EmptyIsWellPlaced(parent: string, lower: string -> string)
    ensures WellPlaced([], parent, lower)
  {
  }

  lemma {:induction false} LevelWellPlaced(raw: seq<RawEntry>, prefix: string, depth: nat, lower: string -> string)
    ensures WellPlaced(BuildLevel(raw, Index(raw, |raw|), prefix, depth, lower), prefix, lower)
    decreases if depth <= MAX_DEPTH then MAX_DEPTH + 1 - depth else 0
  {
    hide ParentOf, ChildrenOf, Index, SortLevel, BuildEntries, Sorted;
    if depth > MAX_DEPTH {
      EmptyIsWellPlaced(prefix, lower);
    } else {
      var byParent, kids := Index(raw, |raw|), ChildrenOf(raw, prefix);
      LevelUnfolds(raw, prefix, depth, lower);
      var entries := BuildEntries(raw, byParent, kids, depth, lower);
      forall k <- kids | k.isDir
        ensures WellPlaced(BuildLevel(raw, byParent, k.path, depth + 1, lower), k.path, lower)
      {
        LevelWellPlaced(raw, k.path, depth + 1, lower);
      }
      EntriesWellPlaced(raw, byParent, kids, prefix, depth, lower);
      SortLevelSorts(entries, lower);
      forall n <- SortLevel(entries, lower) ensures n in entries {
        assert n in multiset(SortLevel(entries, lower));
      }
    }
  }

  lemma NestIsWellPlaced(raw: seq<RawEntry>, lower: string -> string)
    ensures WellPlaced(Nested(raw, lower), "", lower)
  {
    LevelWellPlaced(raw, "", 0, lower);
  }
}
