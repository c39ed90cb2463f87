/** EncodedDescriptorDatabase's index: each table is a tree that takes insertions, and a flat sorted
    vector into which the tree is merged before a lookup. */
module EncodedIndex {
  import opened Options
  import opened Names
  import opened Ordered
  import opened SymbolTable
  import opened Files
  import opened SymbolKeys

  datatype EncodedEntry<V> = EncodedEntry(value: V, package: string)

  /** Entries hold the offset of their file in `values`. */
  datatype State<V> = State(
    values: seq<EncodedEntry<V>>,
    names: seq<Entry<string, nat>>, namesFlat: seq<Entry<string, nat>>,
    symbols: Entries, symbolsFlat: Entries,
    extensions: seq<Entry<ExtensionKey, nat>>, extensionsFlat: seq<Entry<ExtensionKey, nat>>)

  function Empty<V>(): State<V> { State([], [], [], [], [], [], []) }

  /** CheckForMutualSubsymbols from the position FindLastLessOrEqual gives. */
  predicate NoMutualSubsymbols(t: Entries, k: SymbolKey) {
    var i := FindLastLessOrEqual(SymbolCompare, t, k);
    i < |t| ==>
      && !IsSubSymbol(AsString(t[i].key), AsString(k))
      && (i + 1 < |t| ==> !IsSubSymbol(AsString(k), AsString(t[i + 1].key)))
  }

  /** One item of the file that was pushed last. */
  function Step<V>(s: State<V>, op: Op): (State<V>, bool)
    requires s.values != []
  {
    var offset := |s.values| - 1;
    match op
    case Symbol(symbol) =>
      var key := Joined(s.values[offset].package, symbol);
      if !ValidateSymbolName(symbol) || !NoMutualSubsymbols(s.symbols, key) || !NoMutualSubsymbols(s.symbolsFlat, key)
      then (s, false)
      else (s.(symbols := Insert(SymbolCompare, s.symbols, Entry(key, offset))), true)
    case Extension(extendee, number) =>
      if !Qualified(extendee) then (s, true)
      else
        var key := (extendee[1..], number);
        if Contains(ExtensionLess, s.extensions, key) then (s, false)
        else
          // The insertion comes before the flat vector is consulted.
          (s.(extensions := Insert(ExtensionLess, s.extensions, Entry(key, offset))),
           !Contains(ExtensionLess, s.extensionsFlat, key))
  }

  function Run<V>(s: State<V>, ops: seq<Op>): (State<V>, bool)
    requires s.values != []
    decreases |ops|
  {
    if ops == [] then (s, true)
    else
      var (s1, ok) := Step(s, ops[0]);
      if ok then Run(s1, ops[1..]) else (s1, false)
  }

  function Push<V>(s: State<V>, v: V, package: string): State<V> {
    s.(values := s.values + [EncodedEntry(v, package)])
  }

  function Add<V>(s: State<V>, f: File, v: V): (State<V>, bool) {
    if !ValidateSymbolName(f.package) then (Push(s, v, ""), false)
    else
      var s1 := Push(s, v, f.package);
      if Contains(Less, s1.names, f.name) then (s1, false)
      else
        var s2 := s1.(names := Insert(Less, s1.names, Entry(f.name, |s.values|)));
        if Contains(Less, s2.namesFlat, f.name) then (s2, false) else Run(s2, FileOps(f))
  }

  function EnsureFlat<V>(s: State<V>): State<V> {
    State(s.values,
      [], Merge(Less, s.names, s.namesFlat),
      [], Merge(SymbolCompare, s.symbols, s.symbolsFlat),
      [], Merge(ExtensionLess, s.extensions, s.extensionsFlat))
  }

  function ValueAt<V>(s: State<V>, r: Option<nat>): Option<V> {
    if r.Some? && r.value < |s.values| then Some(s.values[r.value].value) else None
  }

  /** The offset FindSymbolOnlyFlat reads, if it finds an entry. */
  function FindOffset(flat: Entries, name: string): Option<nat> {
    var i := FindLastLessOrEqual(SymbolCompare, flat, Bare(name));
    if i < |flat| && IsSubSymbol(AsString(flat[i].key), name) then Some(flat[i].value) else None
  }

  function FindSymbol<V>(s: State<V>, name: string): Option<V> {
    ValueAt(s, FindOffset(s.symbolsFlat, name))
  }

  function FindFile<V>(s: State<V>, name: string): Option<V> {
    ValueAt(s, Lookup(Less, s.namesFlat, name))
  }

  function FindExtension<V>(s: State<V>, key: ExtensionKey): Option<V> {
    ValueAt(s, Lookup(ExtensionLess, s.extensionsFlat, key))
  }

  // ---------- flattening ----------

  /** Flattening keeps exactly the entries there were, sorts each flat vector, empties each tree, and
      doing it again changes nothing. */
  lemma {:induction false} EnsureFlatConserves<V>(s: State<V>)
    requires StrictlySorted(Less, s.names) && Sorted(Less, s.namesFlat)
    requires StrictlySorted(ExtensionLess, s.extensions) && Sorted(ExtensionLess, s.extensionsFlat)
    requires StrictlySorted(Less, Strings(s.symbols)) && Sorted(Less, Strings(s.symbolsFlat))
    requires AllNamed(s.symbols) && AllNamed(s.symbolsFlat)
    ensures var f := EnsureFlat(s);
      && multiset(f.namesFlat) == multiset(s.names) + multiset(s.namesFlat) && Sorted(Less, f.namesFlat)
      && multiset(f.symbolsFlat) == multiset(s.symbols) + multiset(s.symbolsFlat) && Sorted(Less, Strings(f.symbolsFlat))
      && multiset(f.extensionsFlat) == multiset(s.extensions) + multiset(s.extensionsFlat)
      && Sorted(ExtensionLess, f.extensionsFlat)
      && f.names == [] && f.symbols == [] && f.extensions == [] && f.values == s.values
      && EnsureFlat(f) == f
  {
    NameOrder();
    ExtensionOrder();
    StrictlySortedIsSorted(Less, s.names);
    StrictlySortedIsSorted(Less, Strings(s.symbols));
    StrictlySortedIsSorted(ExtensionLess, s.extensions);
    MergeConserves(Less, s.names, s.namesFlat);
    MergeConserves(SymbolCompare, s.symbols, s.symbolsFlat);
    MergeConserves(ExtensionLess, s.extensions, s.extensionsFlat);
    MergeSorts(Less, s.names, s.namesFlat);
    MergeSorts(ExtensionLess, s.extensions, s.extensionsFlat);
    MergeByName(s.symbols, s.symbolsFlat);
    MergeSorts(Less, Strings(s.symbols), Strings(s.symbolsFlat));
  }

  /** Merging two strictly sorted sequences without a common key gives a strictly sorted one. */
  lemma {:induction false} MergeStrict<K(!new), V>(less: (K, K) -> bool, a: seq<Entry<K, V>>, b: seq<Entry<K, V>>)
    requires StrictOrder(less) && StrictlySorted(less, a) && StrictlySorted(less, b)
    requires forall i, j | 0 <= i < |a| && 0 <= j < |b| :: a[i].key != b[j].key
    ensures StrictlySorted(less, Merge(less, a, b))
  {
    if a != [] && b != [] {
      Compare(less, a[0].key, b[0].key, b[0].key);
      var fromB := less(b[0].key, a[0].key);
      var x := if fromB then b[0] else a[0];
      var a', b' := if fromB then a else a[1..], if fromB then b[1..] else b;
      MergeStrict(less, a', b');
      var m := Merge(less, a', b');
      forall j | 0 <= j < |m| ensures less(x.key, m[j].key) {
        MergeMember(less, a', b', m[j]);
        if m[j] in a' {
          var i :| 0 <= i < |a'| && a'[i] == m[j];
          assert fromB ==> i == 0 || less(a[0].key, a[i].key);
        } else {
          var i :| 0 <= i < |b'| && b'[i] == m[j];
          assert !fromB ==> i == 0 || less(b[0].key, b[i].key);
        }
      }
    }
  }

  // ---------- what every run keeps ----------

  /** An entry's package is the one its file was pushed with. */
  ghost predicate PackagesMatch<V>(values: seq<EncodedEntry<V>>, t: Entries) {
    forall i | 0 <= i < |t| ::
      t[i].value < |values| && t[i].key.Joined? && t[i].key.package == values[t[i].value].package
  }

  ghost predicate OffsetsIn<K, V>(values: seq<EncodedEntry<V>>, t: seq<Entry<K, nat>>) {
    forall i | 0 <= i < |t| :: t[i].value < |values|
  }

  ghost predicate Apart2(a: Table<nat>, b: Table<nat>) {
    forall i, j | 0 <= i < |a| && 0 <= j < |b| :: a[i].key != b[j].key
  }

  ghost predicate SymbolsSound(tree: Entries, flat: Entries) {
    && AllNamed(tree) && AllNamed(flat)
    && StrictlySorted(Less, Strings(tree)) && StrictlySorted(Less, Strings(flat))
    && AllValid(Strings(tree)) && AllValid(Strings(flat))
    && Apart2(Strings(tree), Strings(flat))
  }

  ghost predicate SymbolsKept<V>(values: seq<EncodedEntry<V>>, tree: Entries, flat: Entries) {
    SymbolsSound(tree, flat) && PackagesMatch(values, tree) && PackagesMatch(values, flat)
  }

  /** A tree without repeats and a sorted vector, holding offsets of pushed files. */
  ghost predicate TablesKept<K, V>(less: (K, K) -> bool, values: seq<EncodedEntry<V>>,
      tree: seq<Entry<K, nat>>, flat: seq<Entry<K, nat>>) {
    StrictlySorted(less, tree) && Sorted(less, flat) && OffsetsIn(values, tree) && OffsetsIn(values, flat)
  }

  ghost predicate Sound<V>(s: State<V>) {
    && SymbolsKept(s.values, s.symbols, s.symbolsFlat)
    && TablesKept(Less, s.values, s.names, s.namesFlat)
    && TablesKept(ExtensionLess, s.values, s.extensions, s.extensionsFlat)
  }

  ghost predicate Separate(a: Table<nat>, b: Table<nat>) {
    forall i, j | 0 <= i < |a| && 0 <= j < |b| :: !Conflict(a[i].key, b[j].key)
  }

  /** No name in the tree or the flat vector lies above another in either. */
  ghost predicate JointlyPrefixFree(a: Table<nat>, b: Table<nat>) {
    PrefixFree(a) && PrefixFree(b) && Separate(a, b)
  }

  /** The case the neighbour checks miss, in the tree or in the flat vector. */
  predicate Missed<V>(s: State<V>, op: Op)
    requires s.values != []
  {
    op.Symbol? && Step(s, op).1 &&
    var name := FullName(s.values[|s.values| - 1].package, op.symbol);
    SmallestKeyCase(Strings(s.symbols), name) || SmallestKeyCase(Strings(s.symbolsFlat), name)
  }

  lemma {:induction false} ChecksByName(t: Entries, k: SymbolKey)
    requires AllNamed(t)
    ensures NoMutualSubsymbols(t, k) <==> NeighboursAgree(Strings(t), AsString(k))
  {
    SearchByName(t, k);
  }

  /** Adding one accepted name to the tree. */
  lemma {:induction false} InsertSound(tree: Entries, flat: Entries, k: SymbolKey, offset: nat)
    requires SymbolsSound(tree, flat) && Named(k) && ValidateSymbolName(AsString(k))
    requires NeighboursAgree(Strings(tree), AsString(k)) && NeighboursAgree(Strings(flat), AsString(k))
    ensures var tree' := Insert(SymbolCompare, tree, Entry(k, offset));
      && SymbolsSound(tree', flat)
      && Strings(tree') == AddSymbol(Strings(tree), AsString(k), offset).0
      && Adds(Strings(tree), Strings(tree'), AsString(k), offset)
      && !HasKey(Strings(tree), AsString(k)) && !HasKey(Strings(flat), AsString(k))
  {
    InsertByName(tree, Entry(k, offset));
    AddSymbolGrows(Strings(tree), AsString(k), offset);
    var u := InsertFresh(Strings(flat), AsString(k), offset);
    var tree' := Strings(Insert(SymbolCompare, tree, Entry(k, offset)));
    forall i | 0 <= i < |tree'| ensures tree'[i].key == AsString(k) || tree'[i] in Strings(tree) {
      MemberOfSum(Strings(tree), tree', Entry(AsString(k), offset), tree'[i]);
    }
  }

  /** Whether the joint table stays prefix-free when a name is added to the tree. */
  lemma {:induction false} InsertJoint(a: Table<nat>, b: Table<nat>, name: string, offset: nat)
    requires StrictlySorted(Less, a) && AllValid(a) && StrictlySorted(Less, b) && AllValid(b)
    requires ValidateSymbolName(name) && NeighboursAgree(a, name) && NeighboursAgree(b, name)
    ensures var a' := AddSymbol(a, name, offset).0;
      && (!JointlyPrefixFree(a, b) ==> !JointlyPrefixFree(a', b))
      && (JointlyPrefixFree(a, b) ==>
        (JointlyPrefixFree(a', b) <==> !SmallestKeyCase(a, name) && !SmallestKeyCase(b, name)))
      && (JointlyPrefixFree(a, b) ==>
        (NoConflict(a, name) && NoConflict(b, name) <==> !SmallestKeyCase(a, name) && !SmallestKeyCase(b, name)))
  {
    var a' := AddSymbol(a, name, offset).0;
    AddSymbolGrows(a, name, offset);
    if PrefixFree(a) { AddSymbolKeeps(a, name, offset); NeighboursDecide(a, name); }
    if PrefixFree(b) { NeighboursDecide(b, name); }
    SeparateAfterAdd(a, a', b, Entry(name, offset));
  }

  lemma {:induction false} SeparateAfterAdd(a: Table<nat>, a': Table<nat>, b: Table<nat>, e: Entry<string, nat>)
    requires multiset(a') == multiset(a) + multiset{e}
    ensures Separate(a', b) <==> Separate(a, b) && NoConflict(b, e.key)
  {
    forall x ensures x in a' <==> x in a || x == e { MemberOfSum(a, a', e, x); }
    if Separate(a', b) {
      forall i, j | 0 <= i < |a| && 0 <= j < |b| ensures !Conflict(a[i].key, b[j].key) {
        assert a[i] in a';
      }
      assert e in a';
    }
    if Separate(a, b) && NoConflict(b, e.key) {
      forall i, j | 0 <= i < |a'| && 0 <= j < |b| ensures !Conflict(a'[i].key, b[j].key) {
        assert a'[i] in a || a'[i] == e;
      }
    }
  }

  /** Flattening the symbols: sound, and prefix-free exactly when they jointly were. */
  lemma {:induction false} FlattenSymbols(tree: Entries, flat: Entries)
    requires SymbolsSound(tree, flat)
    ensures var m := Merge(SymbolCompare, tree, flat);
      && SymbolsSound([], m)
      && Strings(m) == Merge(Less, Strings(tree), Strings(flat))
      && (PrefixFree(Strings(m)) <==> JointlyPrefixFree(Strings(tree), Strings(flat)))
  {
    var a, b := Strings(tree), Strings(flat);
    MergeByName(tree, flat);
    NameOrder();
    MergeStrict(Less, a, b);
    var m := Merge(Less, a, b);
    forall e ensures e in m <==> e in a || e in b { MergeMember(Less, a, b, e); }
    forall i | 0 <= i < |m| ensures ValidateSymbolName(m[i].key) { assert m[i] in a || m[i] in b; }
    MergedPrefixFree(a, b, m);
  }

  lemma {:induction false} MergedPrefixFree(a: Table<nat>, b: Table<nat>, m: Table<nat>)
    requires forall e :: e in m <==> e in a || e in b
    requires StrictlySorted(Less, m) && StrictlySorted(Less, a) && StrictlySorted(Less, b) && Apart2(a, b)
    ensures PrefixFree(m) <==> JointlyPrefixFree(a, b)
  {
    if JointlyPrefixFree(a, b) {
      forall i, j | 0 <= i < j < |m| ensures !Conflict(m[i].key, m[j].key) {
        assert Less(m[i].key, m[j].key);
        LessTotal(m[i].key, m[j].key);
        assert m[i] in a || m[i] in b;
        assert m[j] in a || m[j] in b;
        PairApart(a, b, m[i], m[j]);
      }
    }
    if PrefixFree(m) {
      SubTable(a, m);
      SubTable(b, m);
      forall i, j | 0 <= i < |a| && 0 <= j < |b| ensures !Conflict(a[i].key, b[j].key) {
        assert a[i] in m && b[j] in m;
        TwoMembers(m, a[i], b[j]);
      }
    }
  }

  lemma {:induction false} TwoMembers(m: Table<nat>, x: Entry<string, nat>, y: Entry<string, nat>)
    requires PrefixFree(m) && x in m && y in m && x.key != y.key
    ensures !Conflict(x.key, y.key)
  {
  }

  lemma {:induction false} SubTable(a: Table<nat>, m: Table<nat>)
    requires PrefixFree(m) && StrictlySorted(Less, a) && forall e :: e in a ==> e in m
    ensures PrefixFree(a)
  {
    forall i, j | 0 <= i < j < |a| ensures !Conflict(a[i].key, a[j].key) {
      assert Less(a[i].key, a[j].key);
      LessTotal(a[i].key, a[j].key);
      assert a[i] in m && a[j] in m;
      TwoMembers(m, a[i], a[j]);
    }
  }

  lemma {:induction false} PairApart(a: Table<nat>, b: Table<nat>, x: Entry<string, nat>, y: Entry<string, nat>)
    requires JointlyPrefixFree(a, b) && x.key != y.key
    requires (x in a || x in b) && (y in a || y in b)
    ensures !Conflict(x.key, y.key)
  {
  }
}
