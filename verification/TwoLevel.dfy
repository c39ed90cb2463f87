/** One table of the encoded index by itself: a tree that takes insertions, a flat vector it is merged into,
    and what a key looked up in the merged vector finds after any sequence of both. */
module TwoLevel {
  import opened Options
  import opened Ordered

  datatype Table<K> = Table(tree: seq<Entry<K, nat>>, flat: seq<Entry<K, nat>>)

  datatype Move<K> = Put(key: K, offset: nat) | Flatten

  function Moved<K>(less: (K, K) -> bool, t: Table<K>, m: Move<K>): Table<K> {
    match m
    case Put(k, offset) => if Contains(less, t.tree, k) then t else Table(Insert(less, t.tree, Entry(k, offset)), t.flat)
    case Flatten => Table([], Merge(less, t.tree, t.flat))
  }

  function AfterMoves<K>(less: (K, K) -> bool, t: Table<K>, moves: seq<Move<K>>): Table<K>
    decreases |moves|
  {
    if moves == [] then t else AfterMoves(less, Moved(less, t, moves[0]), moves[1..])
  }

  /** What a search of the merged vector finds. */
  function Found<K(==)>(less: (K, K) -> bool, t: Table<K>, k: K): Option<nat> {
    Lookup(less, Merge(less, t.tree, t.flat), k)
  }

  /** The offset a key was first put with. */
  function FirstPut<K(==)>(moves: seq<Move<K>>, k: K): Option<nat> {
    if moves == [] then None
    else if moves[0].Put? && moves[0].key == k then Some(moves[0].offset)
    else FirstPut(moves[1..], k)
  }

  /** The key is in the flat vector and not in the tree, so the tree takes it a second time. */
  predicate Shadows<K>(less: (K, K) -> bool, t: Table<K>, m: Move<K>) {
    m.Put? && !Contains(less, t.tree, m.key) && Contains(less, t.flat, m.key)
  }

  /** The keys put while they were in the flat vector and not in the tree. */
  function Shadowed<K>(less: (K, K) -> bool, t: Table<K>, moves: seq<Move<K>>): seq<K>
    decreases |moves|
  {
    if moves == [] then []
    else (if Shadows(less, t, moves[0]) then [moves[0].key] else []) + Shadowed(less, Moved(less, t, moves[0]), moves[1..])
  }

  /** Offsets below `flatBound` are the vector's and those below `bound` the tree's; no move uses an offset
      again once it has been flattened. */
  predicate Numbered<K>(moves: seq<Move<K>>, flatBound: nat, bound: nat) {
    moves == [] ||
    ((moves[0].Put? ==> flatBound <= moves[0].offset)
     && Numbered(moves[1..], NextFlatBound(moves[0], flatBound, bound), NextBound(moves[0], bound)))
  }

  function NextFlatBound<K>(m: Move<K>, flatBound: nat, bound: nat): nat {
    if m.Flatten? && flatBound <= bound then bound else flatBound
  }

  function NextBound<K>(m: Move<K>, bound: nat): nat {
    if m.Put? && bound <= m.offset then m.offset + 1 else bound
  }

  // ---------- counting a key ----------

  function CountKey<K(==), W>(s: seq<Entry<K, W>>, k: K): nat {
    if s == [] then 0 else (if s[0].key == k then 1 else 0) + CountKey(s[1..], k)
  }

  lemma {:induction false} CountAppends<K, W>(s: seq<Entry<K, W>>, t: seq<Entry<K, W>>, k: K)
    ensures CountKey(s + t, k) == CountKey(s, k) + CountKey(t, k)
  {
    if s == [] {
      assert s + t == t;
    } else {
      assert (s + t)[1..] == s[1..] + t;
      CountAppends(s[1..], t, k);
    }
  }

  lemma {:induction false} CountSplice<K, W>(s: seq<Entry<K, W>>, i: nat, e: Entry<K, W>, k: K)
    requires i <= |s|
    ensures CountKey(s[..i] + [e] + s[i..], k) == CountKey(s, k) + if e.key == k then 1 else 0
  {
    CountAppends(s[..i] + [e], s[i..], k);
    CountAppends(s[..i], [e], k);
    CountAppends(s[..i], s[i..], k);
    assert s[..i] + s[i..] == s;
    assert [e][1..] == [];
  }

  lemma {:induction false} CountMerge<K, W>(less: (K, K) -> bool, a: seq<Entry<K, W>>, b: seq<Entry<K, W>>, k: K)
    ensures CountKey(Merge(less, a, b), k) == CountKey(a, k) + CountKey(b, k)
  {
    if a != [] && b != [] {
      if less(b[0].key, a[0].key) { CountMerge(less, a, b[1..], k); } else { CountMerge(less, a[1..], b, k); }
    }
  }

  lemma {:induction false} CountIsKey<K, W>(s: seq<Entry<K, W>>, k: K)
    ensures CountKey(s, k) > 0 <==> HasKey(s, k)
  {
    if s != [] {
      CountIsKey(s[1..], k);
      HeadKey(s, k);
    }
  }

  lemma {:induction false} HeadKey<K, W>(a: seq<Entry<K, W>>, k: K)
    requires a != []
    ensures HasKey(a, k) <==> a[0].key == k || HasKey(a[1..], k)
  {
  }

  /** More than once means at two places. */
  lemma {:induction false} CountTwice<K, W>(s: seq<Entry<K, W>>, k: K)
    ensures CountKey(s, k) > 1 <==> exists i, j | 0 <= i < j < |s| :: s[i].key == k && s[j].key == k
  {
    if s != [] {
      CountTwice(s[1..], k);
      CountIsKey(s[1..], k);
      if CountKey(s, k) > 1 {
        if s[0].key == k {
          var j :| 0 <= j < |s[1..]| && s[1..][j].key == k;
          assert s[0].key == k && s[j + 1].key == k;
        } else {
          var i, j :| 0 <= i < j < |s[1..]| && s[1..][i].key == k && s[1..][j].key == k;
          assert s[i + 1].key == k && s[j + 1].key == k;
        }
      }
      if i, j :| 0 <= i < j < |s| && s[i].key == k && s[j].key == k {
        assert s[1..][j - 1].key == k;
        if i > 0 { assert s[1..][i - 1].key == k; }
      }
    }
  }

  // ---------- merging and searching ----------

  /** After a merge, the tree's entry is found before the flat vector's. */
  lemma {:induction false} MergeLookup<K(!new), W>(less: (K, K) -> bool, a: seq<Entry<K, W>>, b: seq<Entry<K, W>>, k: K)
    requires StrictOrder(less) && Sorted(less, a) && Sorted(less, b)
    ensures Lookup(less, Merge(less, a, b), k) == if HasKey(a, k) then Lookup(less, a, k) else Lookup(less, b, k)
  {
    LookupFinds(less, a, k);
    if a != [] && b != [] {
      Compare(less, b[0].key, a[0].key, k);
      if less(b[0].key, a[0].key) {
        MergeLookup(less, a, b[1..], k);
        LookupHead(less, b[0], b[1..], k);
        LookupHead(less, b[0], Merge(less, a, b[1..]), k);
        assert b == [b[0]] + b[1..];
        forall i | 0 <= i < |a| ensures less(b[0].key, a[i].key) { Compare(less, b[0].key, a[0].key, a[i].key); }
        forall i | 0 <= i < |a| && a[i].key == k ensures less(b[0].key, k) {}
      } else {
        MergeLookup(less, a[1..], b, k);
        LookupHead(less, a[0], a[1..], k);
        LookupHead(less, a[0], Merge(less, a[1..], b), k);
        assert a == [a[0]] + a[1..];
        HeadKey(a, k);
        LookupFinds(less, b, k);
        forall i | 0 <= i < |b| && b[i].key == k ensures !less(k, a[0].key) { Compare(less, a[0].key, b[0].key, b[i].key); }
      }
    }
  }

  lemma {:induction false} LookupHead<K(!new), W>(less: (K, K) -> bool, e: Entry<K, W>, rest: seq<Entry<K, W>>, k: K)
    requires StrictOrder(less)
    ensures Lookup(less, [e] + rest, k) ==
      if less(e.key, k) then Lookup(less, rest, k) else if e.key == k then Some(e.value) else None
  {
  }

  /** A key just inserted is found with its value, and no other key is found differently. */
  lemma {:induction false} InsertLookup<K(!new), W>(less: (K, K) -> bool, t: seq<Entry<K, W>>, e: Entry<K, W>, k: K)
    requires StrictOrder(less) && StrictlySorted(less, t) && !HasKey(t, e.key)
    ensures Lookup(less, Insert(less, t, e), k) == if k == e.key then Some(e.value) else Lookup(less, t, k)
    ensures HasKey(Insert(less, t, e), k) <==> k == e.key || HasKey(t, k)
    ensures CountKey(Insert(less, t, e), k) == CountKey(t, k) + if k == e.key then 1 else 0
  {
    var i := UpperBound(less, t, e.key);
    InsertionPoint(less, t, e.key);
    Compare(less, e.key, e.key, e.key);
    assert Insert(less, t, e) == t[..i] + [e] + t[i..];
    CountSplice(t, i, e, k);
    CountIsKey(t, k);
    CountIsKey(Insert(less, t, e), k);
    InsertKeepsOrder(less, t, e);
    SpliceLookup(less, t, i, e, k);
  }

  lemma {:induction false} SpliceLookup<K(!new), W>(less: (K, K) -> bool, t: seq<Entry<K, W>>, i: nat, e: Entry<K, W>, k: K)
    requires StrictOrder(less) && i <= |t|
    requires StrictlySorted(less, t[..i] + [e] + t[i..])
    ensures Lookup(less, t[..i] + [e] + t[i..], k) == if k == e.key then Some(e.value) else Lookup(less, t, k)
    decreases i
  {
    var s := t[..i] + [e] + t[i..];
    if i == 0 {
      assert s == [e] + t;
      LookupHead(less, e, t, k);
      assert forall j | 0 <= j < |t| :: s[j + 1] == t[j];
      if less(k, e.key) { Below(less, t, e.key, k); }
      Compare(less, k, e.key, k);
    } else {
      var rest := t[1..][..i - 1] + [e] + t[1..][i - 1..];
      assert s == [t[0]] + rest;
      assert forall p | 0 <= p < |rest| :: rest[p] == s[p + 1];
      SpliceLookup(less, t[1..], i - 1, e, k);
      LookupHead(less, t[0], rest, k);
      assert t == [t[0]] + t[1..];
      LookupHead(less, t[0], t[1..], k);
      assert s[0] == t[0] && s[i] == e;
    }
  }

  /** Nothing below a bound is in a table above it. */
  lemma {:induction false} Below<K(!new), W>(less: (K, K) -> bool, t: seq<Entry<K, W>>, bound: K, k: K)
    requires StrictOrder(less) && less(k, bound)
    requires forall j | 0 <= j < |t| :: less(bound, t[j].key)
    ensures Lookup(less, t, k) == None
  {
    if t != [] { Compare(less, k, bound, t[0].key); }
  }

  // ---------- one move ----------

  ghost predicate TableOk<K(!new)>(less: (K, K) -> bool, t: Table<K>) {
    StrictlySorted(less, t.tree) && Sorted(less, t.flat)
  }

  ghost predicate OffsetsBelow<K>(s: seq<Entry<K, nat>>, bound: nat) {
    forall i | 0 <= i < |s| :: s[i].value < bound
  }

  lemma {:induction false} FoundInEither<K(!new)>(less: (K, K) -> bool, t: Table<K>, k: K)
    requires StrictOrder(less) && TableOk(less, t)
    ensures Found(less, t, k) == if HasKey(t.tree, k) then Lookup(less, t.tree, k) else Lookup(less, t.flat, k)
    ensures Found(less, t, k).Some? <==> HasKey(t.tree, k) || HasKey(t.flat, k)
    ensures Contains(less, t.tree, k) <==> HasKey(t.tree, k)
    ensures Contains(less, t.flat, k) <==> HasKey(t.flat, k)
  {
    StrictlySortedIsSorted(less, t.tree);
    MergeLookup(less, t.tree, t.flat, k);
    LookupFinds(less, t.tree, k);
    LookupFinds(less, t.flat, k);
  }

  /** Flattening changes nothing that is found and no key's count. */
  lemma {:induction false} FlattenKeeps<K(!new)>(less: (K, K) -> bool, t: Table<K>, k: K)
    requires StrictOrder(less) && TableOk(less, t)
    ensures var t' := Moved(less, t, Flatten);
      && TableOk(less, t') && Found(less, t', k) == Found(less, t, k)
      && CountKey(t'.tree, k) + CountKey(t'.flat, k) == CountKey(t.tree, k) + CountKey(t.flat, k)
  {
    StrictlySortedIsSorted(less, t.tree);
    MergeSorts(less, t.tree, t.flat);
    CountMerge(less, t.tree, t.flat, k);
  }

  /** A put matters to its own key only, and then only if the tree does not hold it. */
  lemma {:induction false} PutChanges<K(!new)>(less: (K, K) -> bool, t: Table<K>, key: K, offset: nat, k: K)
    requires StrictOrder(less) && TableOk(less, t)
    ensures var t' := Moved(less, t, Put(key, offset));
      && TableOk(less, t') && t'.flat == t.flat
      && Found(less, t', k) == (if k == key && !HasKey(t.tree, key) then Some(offset) else Found(less, t, k))
      && CountKey(t'.tree, k) == CountKey(t.tree, k) + (if k == key && !HasKey(t.tree, key) then 1 else 0)
  {
    FoundInEither(less, t, key);
    if !HasKey(t.tree, key) {
      var t' := Moved(less, t, Put(key, offset));
      InsertKeepsOrder(less, t.tree, Entry(key, offset));
      InsertLookup(less, t.tree, Entry(key, offset), k);
      FoundInEither(less, t, k);
      FoundInEither(less, t', k);
    }
  }

  lemma {:induction false} BoundsKept<K>(less: (K, K) -> bool, t: Table<K>, m: Move<K>, flatBound: nat, bound: nat)
    requires OffsetsBelow(t.flat, flatBound) && OffsetsBelow(t.tree, bound)
    ensures OffsetsBelow(Moved(less, t, m).flat, NextFlatBound(m, flatBound, bound))
    ensures OffsetsBelow(Moved(less, t, m).tree, NextBound(m, bound))
  {
    match m
    case Put(k, offset) =>
      var e := Entry(k, offset);
      forall i | 0 <= i < |Insert(less, t.tree, e)| ensures Insert(less, t.tree, e)[i] == e || Insert(less, t.tree, e)[i] in t.tree {
        InsertedOrOld(less, t.tree, e, i);
      }
    case Flatten =>
      var f := Merge(less, t.tree, t.flat);
      forall i | 0 <= i < |f| ensures f[i] in t.tree || f[i] in t.flat { MergeMember(less, t.tree, t.flat, f[i]); }
  }

  lemma {:induction false} FoundBelow<K(!new)>(less: (K, K) -> bool, s: seq<Entry<K, nat>>, bound: nat, k: K)
    requires OffsetsBelow(s, bound)
    ensures Lookup(less, s, k).Some? ==> Lookup(less, s, k).value < bound
  {
  }

  // ---------- any sequence of moves ----------

  /** How a key stands to the offset it was first put with: found if and only if it was put, and never with an
      earlier offset. */
  ghost predicate Stands(found: Option<nat>, first: Option<nat>) {
    (found.Some? <==> first.Some?) && (found.Some? ==> first.value <= found.value)
  }

  function OrElse(a: Option<nat>, b: Option<nat>): Option<nat> {
    if a.Some? then a else b
  }

  function Times(known: Option<nat>): nat {
    if known.Some? then 1 else 0
  }

  function PutBy<K(==)>(m: Move<K>, k: K): Option<nat> {
    if m.Put? && m.key == k then Some(m.offset) else None
  }

  /** From `t` to `t1`, seen from key `k`, first put with `first` before and with `first1` now, and put `n` times
      while shadowing the flat vector. */
  ghost predicate Follows<K(!new)>(
    less: (K, K) -> bool, t: Table<K>, t1: Table<K>, k: K, first: Option<nat>, first1: Option<nat>, n: nat)
  {
    && TableOk(less, t1) && Stands(Found(less, t1, k), first1)
    && (Found(less, t1, k) == first1 <==> Found(less, t, k) == first && n == 0)
    && CountKey(t1.tree, k) + CountKey(t1.flat, k) + Times(first) == CountKey(t.tree, k) + CountKey(t.flat, k) + Times(first1) + n
  }

  lemma {:induction false} FollowsTwice<K(!new)>(
    less: (K, K) -> bool, t: Table<K>, t1: Table<K>, t2: Table<K>, k: K,
    first: Option<nat>, first1: Option<nat>, first2: Option<nat>, n: nat, m: nat)
    requires Follows(less, t, t1, k, first, first1, n) && Follows(less, t1, t2, k, first1, first2, m)
    ensures Follows(less, t, t2, k, first, first2, n + m)
  {
  }

  lemma {:induction false} OneMove<K(!new)>(
    less: (K, K) -> bool, t: Table<K>, m: Move<K>, k: K, first: Option<nat>, flatBound: nat, bound: nat)
    requires StrictOrder(less) && TableOk(less, t) && Stands(Found(less, t, k), first)
    requires OffsetsBelow(t.flat, flatBound) && OffsetsBelow(t.tree, bound)
    requires m.Put? ==> flatBound <= m.offset
    ensures Follows(less, t, Moved(less, t, m), k, first, OrElse(first, PutBy(m, k)),
      if Shadows(less, t, m) && m.key == k then 1 else 0)
  {
    FoundInEither(less, t, k);
    FoundBelow(less, t.flat, flatBound, k);
    match m
    case Put(key, offset) => PutChanges(less, t, key, offset, k);
    case Flatten => FlattenKeeps(less, t, k);
  }

  lemma {:induction false} AnyMoves<K(!new)>(
    less: (K, K) -> bool, t: Table<K>, moves: seq<Move<K>>, k: K, first: Option<nat>, flatBound: nat, bound: nat)
    requires StrictOrder(less) && TableOk(less, t) && Stands(Found(less, t, k), first)
    requires OffsetsBelow(t.flat, flatBound) && OffsetsBelow(t.tree, bound) && Numbered(moves, flatBound, bound)
    ensures Follows(less, t, AfterMoves(less, t, moves), k, first, OrElse(first, FirstPut(moves, k)),
      multiset(Shadowed(less, t, moves))[k])
    decreases |moves|
  {
    if moves != [] {
      var m, t1, rest := moves[0], Moved(less, t, moves[0]), moves[1..];
      var first1, shadowed := OrElse(first, PutBy(m, k)), Shadowed(less, t1, rest);
      var n := if Shadows(less, t, m) && m.key == k then 1 else 0;
      OneMove(less, t, m, k, first, flatBound, bound);
      BoundsKept(less, t, m, flatBound, bound);
      AnyMoves(less, t1, rest, k, first1, NextFlatBound(m, flatBound, bound), NextBound(m, bound));
      FollowsTwice(less, t, t1, AfterMoves(less, t1, rest), k, first, first1, OrElse(first1, FirstPut(rest, k)), n, multiset(shadowed)[k]);
      LogHead(Shadows(less, t, m), m, shadowed, k);
      FirstAssociates(first, PutBy(m, k), FirstPut(rest, k));
    }
  }

  lemma {:induction false} LogHead<K(!new)>(shadows: bool, m: Move<K>, rest: seq<K>, k: K)
    requires shadows ==> m.Put?
    ensures var log := (if shadows then [m.key] else []) + rest;
      && (k in log <==> (shadows && m.key == k) || k in rest)
      && multiset(log)[k] == multiset(rest)[k] + if shadows && m.key == k then 1 else 0
  {
    if shadows { assert [m.key] + rest == [m.key] + rest; }
  }

  lemma {:induction false} FirstAssociates(a: Option<nat>, b: Option<nat>, c: Option<nat>)
    ensures OrElse(OrElse(a, b), c) == OrElse(a, OrElse(b, c))
  {
  }

  /** From an empty table: a key is found if and only if it was put; it is found with its first offset if and only
      if it was never put while in the flat vector and not in the tree; and it is held once more each time it was. */
  lemma {:induction false} FirstFoundIffNotShadowed<K(!new)>(less: (K, K) -> bool, moves: seq<Move<K>>, k: K)
    requires StrictOrder(less) && Numbered(moves, 0, 0)
    ensures var t, shadowed := AfterMoves(less, Table([], []), moves), Shadowed(less, Table([], []), moves);
      && TableOk(less, t)
      && (Found(less, t, k).Some? <==> FirstPut(moves, k).Some?)
      && (Found(less, t, k) == FirstPut(moves, k) <==> k !in shadowed)
      && CountKey(Merge(less, t.tree, t.flat), k) == Times(FirstPut(moves, k)) + multiset(shadowed)[k]
  {
    AnyMoves(less, Table([], []), moves, k, None, 0, 0);
    var t, shadowed := AfterMoves(less, Table([], []), moves), Shadowed(less, Table([], []), moves);
    assert k in shadowed <==> multiset(shadowed)[k] > 0;
    CountMerge(less, t.tree, t.flat, k);
  }

  lemma {:induction false} AfterMovesAppend<K>(less: (K, K) -> bool, t: Table<K>, a: seq<Move<K>>, b: seq<Move<K>>)
    ensures AfterMoves(less, t, a + b) == AfterMoves(less, AfterMoves(less, t, a), b)
    decreases |a|
  {
    if a == [] {
      assert a + b == b;
    } else {
      assert (a + b)[1..] == a[1..] + b;
      AfterMovesAppend(less, Moved(less, t, a[0]), a[1..], b);
    }
  }

  lemma {:induction false} ShadowedAppend<K>(less: (K, K) -> bool, t: Table<K>, a: seq<Move<K>>, b: seq<Move<K>>)
    ensures Shadowed(less, t, a + b) == Shadowed(less, t, a) + Shadowed(less, AfterMoves(less, t, a), b)
    decreases |a|
  {
    if a == [] {
      assert a + b == b;
    } else {
      assert (a + b)[0] == a[0] && (a + b)[1..] == a[1..] + b;
      ShadowedAppend(less, Moved(less, t, a[0]), a[1..], b);
    }
  }

  lemma {:induction false} FirstPutAppend<K(!new)>(a: seq<Move<K>>, b: seq<Move<K>>, k: K)
    ensures FirstPut(a + b, k) == OrElse(FirstPut(a, k), FirstPut(b, k))
    decreases |a|
  {
    if a == [] {
      assert a + b == b;
    } else {
      assert (a + b)[0] == a[0] && (a + b)[1..] == a[1..] + b;
      FirstPutAppend(a[1..], b, k);
    }
  }
}
