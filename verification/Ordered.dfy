/** Ordered containers: std::map, std::set and the flat sorted vectors, all seen as the
    sequence of their entries in iteration order, searched with a comparator. */
module Ordered {
  import opened Options

  datatype Entry<K, V> = Entry(key: K, value: V)

  /** What the comparator of an ordered container has to be. */
  ghost predicate StrictOrder<K(!new)>(less: (K, K) -> bool) {
    && (forall a :: !less(a, a))
    && (forall a, b, c :: less(a, b) && less(b, c) ==> less(a, c))
    && (forall a, b :: less(a, b) || a == b || less(b, a))
  }

  /** Sorted, equal keys allowed: the flat vectors. */
  ghost predicate Sorted<K, V>(less: (K, K) -> bool, s: seq<Entry<K, V>>) {
    forall i, j | 0 <= i < j < |s| :: !less(s[j].key, s[i].key)
  }

  /** Sorted without repeats: the trees. */
  ghost predicate StrictlySorted<K, V>(less: (K, K) -> bool, s: seq<Entry<K, V>>) {
    forall i, j | 0 <= i < j < |s| :: less(s[i].key, s[j].key)
  }

  /** Index of the first entry greater than `k`. */
  function UpperBound<K, V>(less: (K, K) -> bool, s: seq<Entry<K, V>>, k: K): (i: nat)
    ensures i <= |s|
    ensures forall j | 0 <= j < i :: !less(k, s[j].key)
    ensures i < |s| ==> less(k, s[i].key)
  {
    if s == [] || less(k, s[0].key) then 0 else 1 + UpperBound(less, s[1..], k)
  }

  /** Index of the first entry not less than `k`. */
  function LowerBound<K, V>(less: (K, K) -> bool, s: seq<Entry<K, V>>, k: K): (i: nat)
    ensures i <= |s|
    ensures forall j | 0 <= j < i :: less(s[j].key, k)
    ensures i < |s| ==> !less(s[i].key, k)
  {
    if s == [] || !less(s[0].key, k) then 0 else 1 + LowerBound(less, s[1..], k)
  }

  /** The last entry less than or equal to `k`; but the first entry when all are greater, and
      the end position (0) when there are none. */
  function FindLastLessOrEqual<K, V>(less: (K, K) -> bool, s: seq<Entry<K, V>>, k: K): nat {
    var i := UpperBound(less, s, k);
    if i != 0 then i - 1 else i
  }

  /** Set insertion: nothing happens when an equivalent key is present. */
  function Insert<K, V>(less: (K, K) -> bool, s: seq<Entry<K, V>>, e: Entry<K, V>): seq<Entry<K, V>> {
    var i := UpperBound(less, s, e.key);
    if i != 0 && !less(s[i - 1].key, e.key) then s else s[..i] + [e] + s[i..]
  }

  /** Binary search on a flat vector. */
  predicate Contains<K, V>(less: (K, K) -> bool, s: seq<Entry<K, V>>, k: K) {
    var i := LowerBound(less, s, k);
    i < |s| && !less(k, s[i].key)
  }

  /** Lookup by lower bound followed by an equality test. */
  function Lookup<K(==), V>(less: (K, K) -> bool, s: seq<Entry<K, V>>, k: K): Option<V> {
    var i := LowerBound(less, s, k);
    if i == |s| || s[i].key != k then None else Some(s[i].value)
  }

  /** std::merge: on equivalent keys the first range goes first. */
  function Merge<K, V>(less: (K, K) -> bool, a: seq<Entry<K, V>>, b: seq<Entry<K, V>>): (m: seq<Entry<K, V>>)
    ensures |m| == |a| + |b|
  {
    if a == [] then b
    else if b == [] then a
    else if less(b[0].key, a[0].key) then [b[0]] + Merge(less, a, b[1..])
    else [a[0]] + Merge(less, a[1..], b)
  }

  ghost predicate HasKey<K, V>(s: seq<Entry<K, V>>, k: K) {
    exists i | 0 <= i < |s| :: s[i].key == k
  }

  // ---------- bounds ----------

  /** Everything a strict order says about three points. */
  lemma {:induction false} Compare<K(!new)>(less: (K, K) -> bool, a: K, b: K, c: K)
    requires StrictOrder(less)
    ensures less(a, b) || a == b || less(b, a)
    ensures less(b, c) || b == c || less(c, b)
    ensures less(a, c) || a == c || less(c, a)
    ensures less(a, b) ==> a != b && !less(b, a)
    ensures less(b, c) ==> b != c && !less(c, b)
    ensures less(a, c) ==> a != c && !less(c, a)
    ensures !less(b, a) && !less(c, b) ==> !less(c, a) && (less(a, b) || less(b, c) ==> less(a, c))
  {
  }

  lemma {:induction false} UpperBoundSplits<K(!new), V>(less: (K, K) -> bool, s: seq<Entry<K, V>>, k: K)
    requires StrictOrder(less) && Sorted(less, s)
    ensures forall j | UpperBound(less, s, k) <= j < |s| :: less(k, s[j].key)
  {
  }

  lemma {:induction false} LowerBoundSplits<K(!new), V>(less: (K, K) -> bool, s: seq<Entry<K, V>>, k: K)
    requires StrictOrder(less) && Sorted(less, s)
    ensures forall j | LowerBound(less, s, k) <= j < |s| :: !less(s[j].key, k)
  {
  }

  /** Lookup finds a key exactly when it is there, and returns the first such entry. */
  lemma {:induction false} LookupFinds<K(!new), V>(less: (K, K) -> bool, s: seq<Entry<K, V>>, k: K)
    requires StrictOrder(less) && Sorted(less, s)
    ensures Lookup(less, s, k).Some? <==> HasKey(s, k)
    ensures Contains(less, s, k) <==> HasKey(s, k)
    ensures forall i | 0 <= i < |s| && s[i].key == k && (forall j | 0 <= j < i :: s[j].key != k) ::
      Lookup(less, s, k) == Some(s[i].value)
  {
  }

  lemma {:induction false} StrictlySortedIsSorted<K(!new), V>(less: (K, K) -> bool, s: seq<Entry<K, V>>)
    requires StrictOrder(less) && StrictlySorted(less, s)
    ensures Sorted(less, s)
  {
  }

  // ---------- insertion ----------

  /** Where the insertion point cuts a tree. */
  lemma {:induction false} InsertionPoint<K(!new), V>(less: (K, K) -> bool, s: seq<Entry<K, V>>, k: K)
    requires StrictOrder(less) && StrictlySorted(less, s)
    ensures var i := UpperBound(less, s, k);
      && (forall j | i <= j < |s| :: less(k, s[j].key))
      && (forall j | 0 <= j < i - 1 :: less(s[j].key, k))
      && (i != 0 ==> s[i - 1].key == k || less(s[i - 1].key, k))
      && (HasKey(s, k) <==> i != 0 && s[i - 1].key == k)
  {
    forall i, j | 0 <= i < j < |s| ensures !less(s[j].key, s[i].key) {
      Compare(less, s[i].key, s[j].key, k);
    }
    UpperBoundSplits(less, s, k);
    var i := UpperBound(less, s, k);
    forall j | 0 <= j < i ensures less(s[j].key, k) || (j == i - 1 && s[j].key == k) {
      Compare(less, s[j].key, s[i - 1].key, k);
    }
    forall j | 0 <= j < |s| && s[j].key == k ensures j == i - 1 {
      Compare(less, k, s[j].key, k);
    }
  }

  lemma {:induction false} SpliceKeepsOrder<K(!new), V>(less: (K, K) -> bool, s: seq<Entry<K, V>>, i: nat, e: Entry<K, V>)
    requires StrictlySorted(less, s) && i <= |s|
    requires forall j | 0 <= j < i :: less(s[j].key, e.key)
    requires forall j | i <= j < |s| :: less(e.key, s[j].key)
    ensures StrictlySorted(less, s[..i] + [e] + s[i..])
    ensures multiset(s[..i] + [e] + s[i..]) == multiset(s) + multiset{e}
  {
    var t := s[..i] + [e] + s[i..];
    forall p, q | 0 <= p < q < |t| ensures less(t[p].key, t[q].key) {
      var x := if p < i then p else p - 1;
      var y := if q < i then q else q - 1;
      assert p != i ==> t[p] == s[x];
      assert q != i ==> t[q] == s[y];
    }
    assert s == s[..i] + s[i..];
  }

  lemma {:induction false} InsertKeepsOrder<K(!new), V>(less: (K, K) -> bool, s: seq<Entry<K, V>>, e: Entry<K, V>)
    requires StrictOrder(less) && StrictlySorted(less, s)
    ensures StrictlySorted(less, Insert(less, s, e))
    ensures HasKey(s, e.key) ==> Insert(less, s, e) == s
    ensures !HasKey(s, e.key) ==> multiset(Insert(less, s, e)) == multiset(s) + multiset{e}
  {
    InsertionPoint(less, s, e.key);
    var i := UpperBound(less, s, e.key);
    Compare(less, e.key, e.key, e.key);
    if !HasKey(s, e.key) {
      SpliceKeepsOrder(less, s, i, e);
    }
  }

  lemma {:induction false} InsertedOrOld<K, V>(less: (K, K) -> bool, s: seq<Entry<K, V>>, e: Entry<K, V>, i: nat)
    ensures i < |Insert(less, s, e)| ==> Insert(less, s, e)[i] == e || Insert(less, s, e)[i] in s
  {
  }

  // ---------- merging ----------

  lemma {:induction false} HeadAndTail<T>(s: seq<T>)
    requires s != []
    ensures multiset(s) == multiset{s[0]} + multiset(s[1..])
  {
    assert s == [s[0]] + s[1..];
  }

  lemma {:induction false} MergeConserves<K, V>(less: (K, K) -> bool, a: seq<Entry<K, V>>, b: seq<Entry<K, V>>)
    ensures multiset(Merge(less, a, b)) == multiset(a) + multiset(b)
  {
    if a != [] && b != [] {
      if less(b[0].key, a[0].key) {
        MergeConserves(less, a, b[1..]);
        HeadAndTail(b);
      } else {
        MergeConserves(less, a[1..], b);
        HeadAndTail(a);
      }
    }
  }

  /** An entry is in the merged sequence when it was in one of the two. */
  lemma {:induction false} MergeMember<K, V>(less: (K, K) -> bool, a: seq<Entry<K, V>>, b: seq<Entry<K, V>>, e: Entry<K, V>)
    ensures e in Merge(less, a, b) <==> e in a || e in b
  {
    MergeConserves(less, a, b);
    assert e in Merge(less, a, b) <==> e in multiset(Merge(less, a, b));
    assert e in a <==> e in multiset(a);
    assert e in b <==> e in multiset(b);
  }

  lemma {:induction false} MergeSorts<K(!new), V>(less: (K, K) -> bool, a: seq<Entry<K, V>>, b: seq<Entry<K, V>>)
    requires StrictOrder(less) && Sorted(less, a) && Sorted(less, b)
    ensures Sorted(less, Merge(less, a, b))
  {
    if a != [] && b != [] {
      var fromB := less(b[0].key, a[0].key);
      var x := if fromB then b[0] else a[0];
      var a', b' := if fromB then a else a[1..], if fromB then b[1..] else b;
      MergeSorts(less, a', b');
      var m := Merge(less, a', b');
      forall j | 0 <= j < |m| ensures !less(m[j].key, x.key) {
        MergeMember(less, a', b', m[j]);
        HeadIsLeast(less, a, b, m[j]);
      }
    }
  }

  lemma {:induction false} HeadIsLeast<K(!new), V>(less: (K, K) -> bool, a: seq<Entry<K, V>>, b: seq<Entry<K, V>>, e: Entry<K, V>)
    requires StrictOrder(less) && Sorted(less, a) && Sorted(less, b)
    requires a != [] && b != [] && (e in a || e in b)
    ensures !less(e.key, (if less(b[0].key, a[0].key) then b[0] else a[0]).key)
  {
  }
}
