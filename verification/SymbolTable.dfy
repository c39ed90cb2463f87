/** The sorted table of dotted names behind FindSymbol and AddSymbol: both look only at the
    neighbour of the name asked for. */
module SymbolTable {
  import opened Options
  import opened Names
  import opened Ordered

  type Table<V> = seq<Entry<string, V>>

  lemma {:induction false} NameOrder()
    ensures StrictOrder(Less)
  {
    forall a ensures !Less(a, a) { LessIrreflexive(a); }
    forall a, b ensures Less(a, b) || a == b || Less(b, a) { LessTotal(a, b); }
    forall a, b, c | Less(a, b) && Less(b, c) ensures Less(a, c) { LessTransitive(a, b, c); }
  }

  ghost predicate AllValid<V>(t: Table<V>) {
    forall i | 0 <= i < |t| :: ValidateSymbolName(t[i].key)
  }

  /** No stored name equals another or lies above it at a dot. */
  ghost predicate PrefixFree<V>(t: Table<V>) {
    forall i, j | 0 <= i < j < |t| :: !Conflict(t[i].key, t[j].key)
  }

  /** The entry FindSymbol and AddSymbol start from. */
  function Neighbour<V>(t: Table<V>, name: string): nat {
    FindLastLessOrEqual(Less, t, name)
  }

  function FindSymbol<V>(t: Table<V>, name: string): Option<V> {
    var i := Neighbour(t, name);
    if i < |t| && IsSubSymbol(t[i].key, name) then Some(t[i].value) else None
  }

  /** The two neighbour checks; true when the name may be added. */
  predicate NeighboursAgree<V>(t: Table<V>, name: string) {
    var i := Neighbour(t, name);
    i < |t| ==>
      && !IsSubSymbol(t[i].key, name)
      && (i + 1 < |t| ==> !IsSubSymbol(name, t[i + 1].key))
  }

  /** AddSymbol on the table: the new table and whether the name was accepted. */
  function AddSymbol<V>(t: Table<V>, name: string, value: V): (Table<V>, bool) {
    if !ValidateSymbolName(name) || !NeighboursAgree(t, name) then (t, false)
    else (Insert(Less, t, Entry(name, value)), true)
  }

  /** What a lookup in a plain set of names answers, by looking at every name. */
  ghost predicate Answers<V>(t: Table<V>, name: string, r: Option<V>) {
    match r
    case None => forall i | 0 <= i < |t| :: !IsSubSymbol(t[i].key, name)
    case Some(v) =>
      exists i | 0 <= i < |t| :: IsSubSymbol(t[i].key, name) && t[i].value == v
        && forall j | 0 <= j < |t| && IsSubSymbol(t[j].key, name) :: j == i
  }

  /** What a check against every stored name would say. */
  ghost predicate NoConflict<V>(t: Table<V>, name: string) {
    forall i | 0 <= i < |t| :: !Conflict(t[i].key, name)
  }

  /** The new name precedes every stored name, and exactly one of them lies under it. */
  predicate SmallestKeyCase<V>(t: Table<V>, name: string) {
    && t != []
    && Less(name, t[0].key)
    && IsSubSymbol(name, t[0].key)
    && (|t| > 1 ==> !IsSubSymbol(name, t[1].key))
  }

  // ---------- where a name falls ----------

  /** The table splits at the upper bound: smaller or equal keys before it, greater ones after. */
  lemma {:induction false} Position<V>(t: Table<V>, name: string) returns (u: nat)
    requires StrictlySorted(Less, t)
    ensures u == UpperBound(Less, t, name) && u <= |t|
    ensures Neighbour(t, name) == if u != 0 then u - 1 else 0
    ensures forall j | 0 <= j < u :: LessEq(t[j].key, name) && !Less(name, t[j].key)
    ensures forall j | u <= j < |t| :: Less(name, t[j].key) && !LessEq(t[j].key, name)
    ensures forall j | 0 <= j < |t| && t[j].key == name :: j == u - 1
  {
    NameOrder();
    InsertionPoint(Less, t, name);
    u := UpperBound(Less, t, name);
    LessIrreflexive(name);
    forall j | 0 <= j < |t|
      ensures j < u ==> LessEq(t[j].key, name) && !Less(name, t[j].key)
      ensures u <= j ==> Less(name, t[j].key) && !LessEq(t[j].key, name)
    {
      LessTotal(t[j].key, name);
    }
  }

  lemma {:induction false} Apart<V>(t: Table<V>, i: nat, j: nat)
    requires PrefixFree(t) && i < |t| && j < |t|
    ensures i != j ==> !Conflict(t[i].key, t[j].key)
  {
  }

  lemma {:induction false} SortedLessEq<V>(t: Table<V>, i: nat, j: nat)
    requires StrictlySorted(Less, t) && i <= j < |t|
    ensures LessEq(t[i].key, t[j].key)
    ensures i < j ==> !LessEq(t[j].key, t[i].key)
  {
  }

  // ---------- lookup ----------

  /** If some stored name is the query or an ancestor of it, the neighbour is that name, and it is
      the only one.  The query may be any string at all. */
  lemma {:induction false} NeighbourIsTheMatch<V>(t: Table<V>, name: string, k: nat)
    requires StrictlySorted(Less, t) && AllValid(t) && PrefixFree(t)
    requires k < |t| && IsSubSymbol(t[k].key, name)
    ensures Neighbour(t, name) == k
    ensures forall j | 0 <= j < |t| && IsSubSymbol(t[j].key, name) :: j == k
  {
    var u := Position(t, name);
    SubSymbolLessEq(t[k].key, name);
    var f := u - 1;
    SortedLessEq(t, k, f);
    BetweenIsBelow(t[k].key, t[f].key, name);
    Apart(t, k, f);
    forall j | 0 <= j < |t| && IsSubSymbol(t[j].key, name) ensures j == k {
      AncestorsConflict(t[j].key, t[k].key, name);
      Apart(t, j, k);
    }
  }

  lemma {:induction false} LookupAnswers<V>(t: Table<V>, name: string)
    requires StrictlySorted(Less, t) && AllValid(t) && PrefixFree(t)
    ensures Answers(t, name, FindSymbol(t, name))
  {
    if k: nat :| k < |t| && IsSubSymbol(t[k].key, name) {
      NeighbourIsTheMatch(t, name, k);
    }
  }

  function Zeros(n: nat): (z: string)
    ensures |z| == n && forall i | 0 <= i < n :: z[i] == '0'
  {
    seq(n, i => '0')
  }

  /** Longer than every stored name. */
  function Longest<V>(t: Table<V>): (n: nat)
    ensures forall i | 0 <= i < |t| :: |t[i].key| < n
  {
    if t == [] then 0
    else
      var n, last := Longest(t[..|t| - 1]), |t[|t| - 1].key|;
      assert forall i | 0 <= i < |t| - 1 :: t[i] == t[..|t| - 1][i];
      if n <= last then last + 1 else n
  }

  /** An ancestor of a padded name that does not sort before the unpadded one is the padded name. */
  lemma {:induction false} NoDotInPadding(low: string, n: nat, f: string)
    requires LessEq(low, f) && IsSubSymbol(f, low + Zeros(n))
    ensures f == low + Zeros(n)
  {
  }

  /** When one stored name lies above another, some name below the first is looked up in vain. */
  lemma {:induction false} ConflictHidesAName<V>(t: Table<V>, a: nat, b: nat) returns (name: string)
    requires StrictlySorted(Less, t) && AllValid(t)
    requires a < b < |t| && IsSubSymbol(t[a].key, t[b].key)
    ensures ValidateSymbolName(name) && !Answers(t, name, FindSymbol(t, name))
  {
    var low, n := t[b].key, Longest(t);
    SortedLessEq(t, a, b);
    name := low + Zeros(n);
    PaddedStaysBelow(t[a].key, low, n);
    var u := Position(t, name);
    SortedLessEq(t, b, u - 1);
    NoAnswerFrom(t, a, u - 1, low, n);
  }

  /** The neighbour is not the padded name, which is longer than every key, so it is no ancestor of it. */
  lemma {:induction false} NoAnswerFrom<V>(t: Table<V>, a: nat, f: nat, low: string, n: nat)
    requires a < |t| && f < |t| && n == Longest(t)
    requires IsSubSymbol(t[a].key, low + Zeros(n)) && LessEq(low, t[f].key) && Neighbour(t, low + Zeros(n)) == f
    ensures !Answers(t, low + Zeros(n), FindSymbol(t, low + Zeros(n)))
  {
    if IsSubSymbol(t[f].key, low + Zeros(n)) { NoDotInPadding(low, n, t[f].key); }
  }

  lemma {:induction false} PaddedStaysBelow(high: string, low: string, n: nat)
    requires IsSubSymbol(high, low) && high != low
    ensures IsSubSymbol(high, low + Zeros(n)) && LessEq(low, low + Zeros(n))
    ensures ValidateSymbolName(low) ==> ValidateSymbolName(low + Zeros(n))
  {
  }

  /** Every lookup answers like the plain set exactly when no stored name lies above another. */
  lemma {:induction false} LookupsCorrectIffPrefixFree<V>(t: Table<V>)
    requires StrictlySorted(Less, t) && AllValid(t)
    ensures (forall name :: Answers(t, name, FindSymbol(t, name))) <==> PrefixFree(t)
  {
    if PrefixFree(t) {
      forall name ensures Answers(t, name, FindSymbol(t, name)) { LookupAnswers(t, name); }
    } else {
      var a, b :| 0 <= a < b < |t| && Conflict(t[a].key, t[b].key);
      assert Less(t[a].key, t[b].key);
      LessTotal(t[a].key, t[b].key);
      if IsSubSymbol(t[b].key, t[a].key) {
        SubSymbolLessEq(t[b].key, t[a].key);
      }
      var name := ConflictHidesAName(t, a, b);
    }
  }

  // ---------- adding ----------

  /** The stored names under a new name form a run that starts where the new name would go. */
  lemma {:induction false} DescendantsFollow<V>(t: Table<V>, name: string, u: nat, k: nat)
    requires StrictlySorted(Less, t) && AllValid(t)
    requires u == UpperBound(Less, t, name)
    requires k < |t| && t[k].key != name && IsSubSymbol(name, t[k].key)
    ensures u <= k && forall j | u <= j <= k :: IsSubSymbol(name, t[j].key)
  {
    var p := Position(t, name);
    SubSymbolLessEq(name, t[k].key);
    LessTotal(name, t[k].key);
    forall j | u <= j <= k ensures IsSubSymbol(name, t[j].key) {
      SortedLessEq(t, j, k);
      BetweenIsBelow(name, t[j].key, t[k].key);
    }
  }

  /** The neighbour checks find every conflict, except in the smallest-key case. */
  lemma {:induction false} NeighboursDecide<V>(t: Table<V>, name: string)
    requires StrictlySorted(Less, t) && AllValid(t) && PrefixFree(t)
    ensures NeighboursAgree(t, name) <==> NoConflict(t, name) || SmallestKeyCase(t, name)
    ensures SmallestKeyCase(t, name) ==> !NoConflict(t, name)
  {
    var u := Position(t, name);
    if NeighboursAgree(t, name) && !NoConflict(t, name) {
      var k :| 0 <= k < |t| && Conflict(t[k].key, name);
      if IsSubSymbol(t[k].key, name) {
        NeighbourIsTheMatch(t, name, k);
      }
      DescendantsFollow(t, name, u, k);
      assert IsSubSymbol(name, t[u].key);
    }
    if SmallestKeyCase(t, name) {
      assert u == 0;
      if IsSubSymbol(t[0].key, name) { SubSymbolLessEq(t[0].key, name); }
      assert Conflict(t[0].key, name);
    } else if NoConflict(t, name) {
      assert 0 < |t| ==> !Conflict(t[Neighbour(t, name)].key, name);
      assert Neighbour(t, name) + 1 < |t| ==> !Conflict(t[Neighbour(t, name) + 1].key, name);
    }
  }

  /** AddSymbol accepts exactly the valid names without a conflict, and those in the smallest-key
      case. */
  lemma {:induction false} AddSymbolAccepts<V>(t: Table<V>, name: string, value: V)
    requires StrictlySorted(Less, t) && AllValid(t) && PrefixFree(t)
    ensures AddSymbol(t, name, value).1 <==>
      ValidateSymbolName(name) && (NoConflict(t, name) || SmallestKeyCase(t, name))
  {
    if ValidateSymbolName(name) {
      NeighboursDecide(t, name);
    }
  }

  ghost predicate Adds<V>(t: Table<V>, t': Table<V>, name: string, value: V) {
    multiset(t') == multiset(t) + multiset{Entry(name, value)}
  }

  lemma {:induction false} MemberOfSum<T>(s: seq<T>, t: seq<T>, x: T, y: T)
    requires multiset(t) == multiset(s) + multiset{x}
    ensures y in t <==> y in s || y == x
  {
    assert y in t <==> y in multiset(t);
    assert y in s <==> y in multiset(s);
  }

  /** An accepted name is stored once, everything else stays, the table stays sorted and valid; and
      it stays prefix-free exactly when this was not the smallest-key case. */
  lemma {:induction false} AddSymbolKeeps<V>(t: Table<V>, name: string, value: V)
    requires StrictlySorted(Less, t) && AllValid(t) && PrefixFree(t)
    requires AddSymbol(t, name, value).1
    ensures var t' := AddSymbol(t, name, value).0;
      && StrictlySorted(Less, t') && AllValid(t') && Adds(t, t', name, value)
      && (PrefixFree(t') <==> !SmallestKeyCase(t, name))
  {
    NeighboursDecide(t, name);
    var t' := AddSymbol(t, name, value).0;
    var u := InsertFresh(t, name, value);
    if SmallestKeyCase(t, name) {
      var p := Position(t, name);
      assert t'[0].key == name && t'[1] == t[0];
      assert Conflict(t'[0].key, t'[1].key);
    } else {
      SplicePrefixFree(t, u, Entry(name, value));
    }
    AddSymbolGrows(t, name, value);
  }

  /** On any sorted table of valid names, prefix-free or not: an accepted name is new and is stored,
      order is kept, and a conflict never goes away. */
  lemma {:induction false} AddSymbolGrows<V>(t: Table<V>, name: string, value: V)
    requires StrictlySorted(Less, t) && AllValid(t)
    ensures var (t', ok) := AddSymbol(t, name, value);
      && StrictlySorted(Less, t') && AllValid(t')
      && (ok ==> Adds(t, t', name, value) && !HasKey(t, name))
      && (!PrefixFree(t) ==> !PrefixFree(t'))
  {
    var (t', ok) := AddSymbol(t, name, value);
    if ok {
      var u := InsertFresh(t, name, value);
      SpliceValid(t, u, Entry(name, value));
      if i: nat, j: nat :| i < j < |t| && Conflict(t[i].key, t[j].key) {
        SpliceKeepsConflict(t, u, Entry(name, value), i, j);
      }
    }
  }

  lemma {:induction false} SpliceValid<V>(t: Table<V>, u: nat, e: Entry<string, V>)
    requires u <= |t| && AllValid(t) && ValidateSymbolName(e.key)
    ensures AllValid(t[..u] + [e] + t[u..])
  {
  }

  lemma {:induction false} SpliceKeepsConflict<V>(t: Table<V>, u: nat, e: Entry<string, V>, i: nat, j: nat)
    requires u <= |t| && i < j < |t| && Conflict(t[i].key, t[j].key)
    ensures !PrefixFree(t[..u] + [e] + t[u..])
  {
    var t' := t[..u] + [e] + t[u..];
    var i', j' := if i < u then i else i + 1, if j < u then j else j + 1;
    assert t'[i'] == t[i] && t'[j'] == t[j];
    ConflictSpoils(t', i', j');
  }

  lemma {:induction false} ConflictSpoils<V>(t: Table<V>, i: nat, j: nat)
    requires i < j < |t| && Conflict(t[i].key, t[j].key)
    ensures !PrefixFree(t)
  {
  }

  lemma {:induction false} SplicePrefixFree<V>(t: Table<V>, u: nat, e: Entry<string, V>)
    requires PrefixFree(t) && NoConflict(t, e.key) && u <= |t|
    ensures PrefixFree(t[..u] + [e] + t[u..])
  {
  }

  /** A name whose neighbours agree is not stored yet, so insertion puts it in. */
  lemma {:induction false} InsertFresh<V>(t: Table<V>, name: string, value: V) returns (u: nat)
    requires StrictlySorted(Less, t) && NeighboursAgree(t, name)
    ensures u <= |t| && Insert(Less, t, Entry(name, value)) == t[..u] + [Entry(name, value)] + t[u..]
    ensures StrictlySorted(Less, Insert(Less, t, Entry(name, value)))
    ensures Adds(t, Insert(Less, t, Entry(name, value)), name, value)
    ensures u == UpperBound(Less, t, name) && !HasKey(t, name)
  {
    u := Position(t, name);
    NameOrder();
    InsertKeepsOrder(Less, t, Entry(name, value));
    InsertionPoint(Less, t, name);
  }
}
