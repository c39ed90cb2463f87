/** Runs of the encoded index: any interleaving of adds and lookups, against the plain index. */
module EncodedRuns {
  import opened Options
  import opened Names
  import opened Ordered
  import opened SymbolTable
  import opened Files
  import opened SymbolKeys
  import opened EncodedIndex

  // ---------- two containers standing for one map ----------

  ghost predicate SameKeys<K, V, W>(a: seq<Entry<K, W>>, b: seq<Entry<K, W>>, m: map<K, V>) {
    && (forall i | 0 <= i < |a| :: a[i].key in m)
    && (forall i | 0 <= i < |b| :: b[i].key in m)
    && (forall k | k in m :: HasKey(a, k) || HasKey(b, k))
  }

  ghost predicate RightValues<K, V>(values: seq<EncodedEntry<V>>, t: seq<Entry<K, nat>>, m: map<K, V>) {
    forall i | 0 <= i < |t| ::
      t[i].value < |values| && t[i].key in m && values[t[i].value].value == m[t[i].key]
  }

  lemma {:induction false} HasKeyMember<K, W>(s: seq<Entry<K, W>>, e: Entry<K, W>)
    requires e in s
    ensures HasKey(s, e.key)
  {
  }

  lemma {:induction false} SameKeysInsert<K, V, W>(a: seq<Entry<K, W>>, a': seq<Entry<K, W>>, b: seq<Entry<K, W>>, m: map<K, V>, e: Entry<K, W>, v: V)
    requires SameKeys(a, b, m)
    requires multiset(a') == multiset(a) + multiset{e}
    ensures SameKeys(a', b, m[e.key := v])
    ensures e.key in m ==> SameKeys(a', b, m)
  {
    forall x ensures x in a' <==> x in a || x == e { MemberOfSum(a, a', e, x); }
    forall i | 0 <= i < |a'| ensures a'[i].key in m || a'[i].key == e.key { assert a'[i] in a || a'[i] == e; }
    HasKeyMember(a', e);
    forall k | HasKey(a, k) ensures HasKey(a', k) {
      var i :| 0 <= i < |a| && a[i].key == k;
      HasKeyMember(a', a[i]);
    }
  }

  lemma {:induction false} RightValuesInsert<K, V>(values: seq<EncodedEntry<V>>, a: seq<Entry<K, nat>>, a': seq<Entry<K, nat>>, m: map<K, V>, e: Entry<K, nat>)
    requires RightValues(values, a, m) && e.key !in m && e.value < |values|
    requires multiset(a') == multiset(a) + multiset{e}
    ensures RightValues(values, a', m[e.key := values[e.value].value])
  {
    forall i | 0 <= i < |a'| ensures a'[i] in a || a'[i] == e { MemberOfSum(a, a', e, a'[i]); }
  }

  lemma {:induction false} RightValuesExtend<K, V>(values: seq<EncodedEntry<V>>, a: seq<Entry<K, nat>>, m: map<K, V>, k: K, v: V)
    requires RightValues(values, a, m) && k !in m
    ensures RightValues(values, a, m[k := v])
  {
  }

  lemma {:induction false} MergedKeys<K, V>(less: (K, K) -> bool, a: seq<Entry<K, nat>>, b: seq<Entry<K, nat>>, m: map<K, V>)
    requires SameKeys(a, b, m)
    ensures SameKeys([], Merge(less, a, b), m)
  {
    var f := Merge(less, a, b);
    forall i | 0 <= i < |f| ensures f[i].key in m { MergeMember(less, a, b, f[i]); }
    forall k | k in m ensures HasKey(f, k) {
      if HasKey(a, k) {
        var i :| 0 <= i < |a| && a[i].key == k;
        MergeMember(less, a, b, a[i]);
        HasKeyMember(f, a[i]);
      } else {
        var i :| 0 <= i < |b| && b[i].key == k;
        MergeMember(less, a, b, b[i]);
        HasKeyMember(f, b[i]);
      }
    }
  }

  lemma {:induction false} MergedValues<K, V>(less: (K, K) -> bool, values: seq<EncodedEntry<V>>, a: seq<Entry<K, nat>>, b: seq<Entry<K, nat>>, m: map<K, V>)
    requires RightValues(values, a, m) && RightValues(values, b, m)
    ensures RightValues(values, Merge(less, a, b), m)
  {
    var f := Merge(less, a, b);
    forall i | 0 <= i < |f| ensures f[i] in a || f[i] in b { MergeMember(less, a, b, f[i]); }
  }

  lemma {:induction false} OffsetsMerge<K, V>(less: (K, K) -> bool, values: seq<EncodedEntry<V>>, a: seq<Entry<K, nat>>, b: seq<Entry<K, nat>>)
    requires OffsetsIn(values, a) && OffsetsIn(values, b)
    ensures OffsetsIn(values, Merge(less, a, b))
  {
    var f := Merge(less, a, b);
    forall i | 0 <= i < |f| ensures f[i].value < |values| {
      MergeMember(less, a, b, f[i]);
      if f[i] in a { var j :| 0 <= j < |a| && a[j] == f[i]; } else { var j :| 0 <= j < |b| && b[j] == f[i]; }
    }
  }

  lemma {:induction false} OffsetsInsert<K, V>(values: seq<EncodedEntry<V>>, a: seq<Entry<K, nat>>, a': seq<Entry<K, nat>>, e: Entry<K, nat>)
    requires OffsetsIn(values, a) && e.value < |values| && multiset(a') == multiset(a) + multiset{e}
    ensures OffsetsIn(values, a')
  {
    forall i | 0 <= i < |a'| ensures a'[i].value < |values| {
      MemberOfSum(a, a', e, a'[i]);
      if a'[i] in a { var j :| 0 <= j < |a| && a[j] == a'[i]; }
    }
  }

  /** Lookup in a flat vector that stands for a map with the right values is map lookup. */
  lemma {:induction false} FlatLookup<K(!new), V>(less: (K, K) -> bool, values: seq<EncodedEntry<V>>, f: seq<Entry<K, nat>>, m: map<K, V>, k: K)
    requires StrictOrder(less) && Sorted(less, f) && SameKeys([], f, m) && RightValues(values, f, m)
    ensures var r := Lookup(less, f, k);
      if k in m then r.Some? && r.value < |values| && values[r.value].value == m[k] else r == None
  {
  }

  // ---------- one step ----------

  /** A named op cannot produce a package with an empty symbol. */
  predicate NamedOp(package: string, op: Op) {
    op.Symbol? ==> package == "" || op.symbol != ""
  }

  ghost predicate Joint<V>(s: State<V>) {
    JointlyPrefixFree(Strings(s.symbols), Strings(s.symbolsFlat))
  }

  /** The file being added is the one pushed last. */
  ghost predicate Current<V>(s: State<V>, package: string, v: V) {
    && s.values != [] && s.values[|s.values| - 1] == EncodedEntry(v, package)
    && ValidateSymbolName(package)
  }

  lemma {:induction false} PackagesInsert<V>(values: seq<EncodedEntry<V>>, t: Entries, e: Entry<SymbolKey, nat>)
    requires PackagesMatch(values, t)
    requires e.value < |values| && e.key.Joined? && e.key.package == values[e.value].package
    ensures PackagesMatch(values, Insert(SymbolCompare, t, e))
  {
    var t' := Insert(SymbolCompare, t, e);
    forall j | 0 <= j < |t'| ensures t'[j] == e || t'[j] in t { InsertedOrOld(SymbolCompare, t, e, j); }
  }

  lemma {:induction false} PackagesMerge<V>(values: seq<EncodedEntry<V>>, a: Entries, b: Entries)
    requires PackagesMatch(values, a) && PackagesMatch(values, b)
    ensures PackagesMatch(values, Merge(SymbolCompare, a, b))
  {
    var f := Merge(SymbolCompare, a, b);
    forall i | 0 <= i < |f| ensures f[i] in a || f[i] in b { MergeMember(SymbolCompare, a, b, f[i]); }
  }

  lemma {:induction false} ExtensionInsert<V>(s: State<V>, key: ExtensionKey, offset: nat)
    requires StrictlySorted(ExtensionLess, s.extensions) && Sorted(ExtensionLess, s.extensionsFlat)
    ensures Contains(ExtensionLess, s.extensions, key) <==> HasKey(s.extensions, key)
    ensures Contains(ExtensionLess, s.extensionsFlat, key) <==> HasKey(s.extensionsFlat, key)
    ensures var x := Insert(ExtensionLess, s.extensions, Entry(key, offset));
      && StrictlySorted(ExtensionLess, x)
      && (!HasKey(s.extensions, key) ==> multiset(x) == multiset(s.extensions) + multiset{Entry(key, offset)})
  {
    ExtensionOrder();
    StrictlySortedIsSorted(ExtensionLess, s.extensions);
    LookupFinds(ExtensionLess, s.extensions, key);
    LookupFinds(ExtensionLess, s.extensionsFlat, key);
    InsertKeepsOrder(ExtensionLess, s.extensions, Entry(key, offset));
  }

  lemma {:induction false} NameInsert<V>(s: State<V>, name: string, offset: nat)
    requires StrictlySorted(Less, s.names) && Sorted(Less, s.namesFlat)
    ensures Contains(Less, s.names, name) <==> HasKey(s.names, name)
    ensures Contains(Less, s.namesFlat, name) <==> HasKey(s.namesFlat, name)
    ensures var x := Insert(Less, s.names, Entry(name, offset));
      && StrictlySorted(Less, x)
      && (!HasKey(s.names, name) ==> multiset(x) == multiset(s.names) + multiset{Entry(name, offset)})
  {
    NameOrder();
    StrictlySortedIsSorted(Less, s.names);
    LookupFinds(Less, s.names, name);
    LookupFinds(Less, s.namesFlat, name);
    InsertKeepsOrder(Less, s.names, Entry(name, offset));
  }

  /** A symbol is accepted when it is valid and its neighbours, in both tables, agree. */
  lemma {:induction false} SymbolAccepted<V>(s: State<V>, package: string, symbol: string, v: V)
    requires Sound(s) && Current(s, package, v)
    ensures var name := FullName(package, symbol);
      Step(s, Symbol(symbol)).1 <==>
      ValidateSymbolName(name) && NeighboursAgree(Strings(s.symbols), name) && NeighboursAgree(Strings(s.symbolsFlat), name)
  {
    var key := Joined(package, symbol);
    FullNameValid(package, symbol);
    StepAccepts(s, symbol);
    ChecksByName(s.symbols, key);
    ChecksByName(s.symbolsFlat, key);
  }

  lemma {:induction false} StepAccepts<V>(s: State<V>, symbol: string)
    requires s.values != []
    ensures var key := Joined(s.values[|s.values| - 1].package, symbol);
      Step(s, Symbol(symbol)).1 <==>
      ValidateSymbolName(symbol) && NoMutualSubsymbols(s.symbols, key) && NoMutualSubsymbols(s.symbolsFlat, key)
  {
  }

  /** The tree after an accepted symbol. */
  function Grown<V>(s: State<V>, symbol: string): Entries
    requires s.values != []
  {
    Insert(SymbolCompare, s.symbols, Entry(Joined(s.values[|s.values| - 1].package, symbol), |s.values| - 1))
  }

  lemma {:induction false} StepInserts<V>(s: State<V>, symbol: string)
    requires s.values != [] && Step(s, Symbol(symbol)).1
    ensures Step(s, Symbol(symbol)).0 == s.(symbols := Grown(s, symbol))
  {
  }

  lemma {:induction false} SymbolInserted<V>(s: State<V>, package: string, symbol: string, v: V)
    requires Sound(s) && Current(s, package, v) && NamedOp(package, Symbol(symbol))
    requires Step(s, Symbol(symbol)).1
    ensures var name, offset, tree := FullName(package, symbol), |s.values| - 1, Grown(s, symbol);
      && Step(s, Symbol(symbol)).0 == s.(symbols := tree)
      && Sound(s.(symbols := tree))
      && Strings(tree) == AddSymbol(Strings(s.symbols), name, offset).0
      && Adds(Strings(s.symbols), Strings(tree), name, offset)
      && !HasKey(Strings(s.symbols), name) && !HasKey(Strings(s.symbolsFlat), name)
  {
    SymbolAccepted(s, package, symbol, v);
    StepInserts(s, symbol);
    GrownTree(s.values, s.symbols, s.symbolsFlat, Joined(package, symbol), |s.values| - 1);
  }

  lemma {:induction false} GrownTree<V>(values: seq<EncodedEntry<V>>, tree: Entries, flat: Entries, key: SymbolKey, offset: nat)
    requires SymbolsKept(values, tree, flat) && Named(key) && ValidateSymbolName(AsString(key))
    requires NeighboursAgree(Strings(tree), AsString(key)) && NeighboursAgree(Strings(flat), AsString(key))
    requires offset < |values| && key.Joined? && key.package == values[offset].package
    ensures var tree' := Insert(SymbolCompare, tree, Entry(key, offset));
      && SymbolsKept(values, tree', flat)
      && Strings(tree') == AddSymbol(Strings(tree), AsString(key), offset).0
      && Adds(Strings(tree), Strings(tree'), AsString(key), offset)
      && !HasKey(Strings(tree), AsString(key)) && !HasKey(Strings(flat), AsString(key))
  {
    InsertSound(tree, flat, key, offset);
    PackagesInsert(values, tree, Entry(key, offset));
  }

  lemma {:induction false} StepSound<V>(s: State<V>, package: string, op: Op, v: V)
    requires Sound(s) && Current(s, package, v) && NamedOp(package, op)
    ensures Sound(Step(s, op).0) && Step(s, op).0.values == s.values
    ensures !Joint(s) ==> !Joint(Step(s, op).0)
    ensures Joint(s) ==> (Joint(Step(s, op).0) <==> !Missed(s, op))
  {
    match op
    case Symbol(symbol) => if Step(s, op).1 { SymbolStepSound(s, package, symbol, v); }
    case Extension(extendee, number) => ExtensionStepSound(s, extendee, number);
  }

  lemma {:induction false} SymbolStepSound<V>(s: State<V>, package: string, symbol: string, v: V)
    requires Sound(s) && Current(s, package, v) && NamedOp(package, Symbol(symbol)) && Step(s, Symbol(symbol)).1
    ensures var s1 := Step(s, Symbol(symbol)).0;
      && Sound(s1) && s1.values == s.values
      && (!Joint(s) ==> !Joint(s1))
      && (Joint(s) ==> (Joint(s1) <==> !Missed(s, Symbol(symbol))))
  {
    SymbolAccepted(s, package, symbol, v);
    SymbolInserted(s, package, symbol, v);
    JointStep(s, s.(symbols := Grown(s, symbol)), FullName(package, symbol), |s.values| - 1);
  }

  lemma {:induction false} JointStep<V>(s: State<V>, s1: State<V>, name: string, offset: nat)
    requires Sound(s) && s1.symbolsFlat == s.symbolsFlat
    requires Strings(s1.symbols) == AddSymbol(Strings(s.symbols), name, offset).0
    requires ValidateSymbolName(name) && NeighboursAgree(Strings(s.symbols), name) && NeighboursAgree(Strings(s.symbolsFlat), name)
    ensures !Joint(s) ==> !Joint(s1)
    ensures Joint(s) ==>
      (Joint(s1) <==> !SmallestKeyCase(Strings(s.symbols), name) && !SmallestKeyCase(Strings(s.symbolsFlat), name))
  {
    InsertJoint(Strings(s.symbols), Strings(s.symbolsFlat), name, offset);
  }

  lemma {:induction false} ExtensionStepSound<V>(s: State<V>, extendee: string, number: int)
    requires Sound(s) && s.values != []
    ensures var s1 := Step(s, Extension(extendee, number)).0;
      Sound(s1) && s1.values == s.values && s1.symbols == s.symbols && s1.symbolsFlat == s.symbolsFlat
  {
    if Qualified(extendee) {
      var key, offset := (extendee[1..], number), |s.values| - 1;
      ExtensionInsert(s, key, offset);
      ExtensionTableKept(s.values, s.extensions, s.extensionsFlat, key, offset);
      assert Step(s, Extension(extendee, number)).0 ==
        if HasKey(s.extensions, key) then s else s.(extensions := Insert(ExtensionLess, s.extensions, Entry(key, offset)));
    }
  }

  lemma {:induction false} ExtensionTableKept<V>(values: seq<EncodedEntry<V>>, tree: seq<Entry<ExtensionKey, nat>>,
      flat: seq<Entry<ExtensionKey, nat>>, key: ExtensionKey, offset: nat)
    requires TablesKept(ExtensionLess, values, tree, flat) && offset < |values|
    ensures !HasKey(tree, key) ==> TablesKept(ExtensionLess, values, Insert(ExtensionLess, tree, Entry(key, offset)), flat)
  {
    ExtensionOrder();
    InsertKeepsOrder(ExtensionLess, tree, Entry(key, offset));
    if !HasKey(tree, key) {
      OffsetsInsert(values, tree, Insert(ExtensionLess, tree, Entry(key, offset)), Entry(key, offset));
    }
  }

  // ---------- refinement ----------

  /** Symbols agree in full; for files and extensions the same keys are known. */
  ghost predicate Refines<V(!new)>(s: State<V>, p: Plain<V>) {
    && Sound(s) && Joint(s)
    && SameKeys(Strings(s.symbols), Strings(s.symbolsFlat), p.symbols)
    && RightValues(s.values, Strings(s.symbols), p.symbols) && RightValues(s.values, Strings(s.symbolsFlat), p.symbols)
    && SameKeys(s.names, s.namesFlat, p.files)
    && SameKeys(s.extensions, s.extensionsFlat, p.extensions)
  }

  /** Files and extensions agree in full as well. */
  ghost predicate ValuesAgree<V>(s: State<V>, p: Plain<V>) {
    && RightValues(s.values, s.names, p.files) && RightValues(s.values, s.namesFlat, p.files)
    && RightValues(s.values, s.extensions, p.extensions) && RightValues(s.values, s.extensionsFlat, p.extensions)
  }

  lemma {:induction false} NoConflictInBoth<V>(a: Table<nat>, b: Table<nat>, m: map<string, V>, name: string)
    requires SameKeys(a, b, m)
    ensures NoConflict(a, name) && NoConflict(b, name) <==> forall k | k in m :: !Conflict(k, name)
  {
  }

  lemma {:induction false} SymbolAgreed<V(!new)>(s: State<V>, p: Plain<V>, package: string, symbol: string, v: V)
    requires Refines(s, p) && Current(s, package, v) && !Missed(s, Symbol(symbol))
    ensures Step(s, Symbol(symbol)).1 == PlainStep(p, package, Symbol(symbol), v).1
  {
    var name, a, b := FullName(package, symbol), Strings(s.symbols), Strings(s.symbolsFlat);
    SymbolAccepted(s, package, symbol, v);
    NoConflictInBoth(a, b, p.symbols, name);
    NeighboursDecide(a, name);
    NeighboursDecide(b, name);
  }

  lemma {:induction false} SymbolStepRefines<V(!new)>(s: State<V>, p: Plain<V>, package: string, symbol: string, v: V)
    requires Refines(s, p) && Current(s, package, v) && NamedOp(package, Symbol(symbol))
    requires !Missed(s, Symbol(symbol)) && Step(s, Symbol(symbol)).1
    ensures Refines(s.(symbols := Grown(s, symbol)), p.(symbols := p.symbols[FullName(package, symbol) := v]))
  {
    var name, offset := FullName(package, symbol), |s.values| - 1;
    var a, b, a' := Strings(s.symbols), Strings(s.symbolsFlat), Strings(Grown(s, symbol));
    StepSound(s, package, Symbol(symbol), v);
    SymbolInserted(s, package, symbol, v);
    NotInMap(a, b, p.symbols, name);
    SameKeysInsert(a, a', b, p.symbols, Entry(name, offset), v);
    RightValuesInsert(s.values, a, a', p.symbols, Entry(name, offset));
    RightValuesExtend(s.values, b, p.symbols, name, v);
  }

  lemma {:induction false} NotInMap<K, V, W>(a: seq<Entry<K, W>>, b: seq<Entry<K, W>>, m: map<K, V>, k: K)
    requires SameKeys(a, b, m)
    ensures k in m <==> HasKey(a, k) || HasKey(b, k)
  {
  }

  lemma {:induction false} ExtensionStepRefines<V(!new)>(s: State<V>, p: Plain<V>, package: string, extendee: string, number: int, v: V)
    requires Refines(s, p) && Current(s, package, v) && Qualified(extendee)
    ensures var op := Extension(extendee, number);
      && Step(s, op).1 == PlainStep(p, package, op, v).1
      && Refines(Step(s, op).0, PlainStep(p, package, op, v).0)
      && (ValuesAgree(s, p) && Step(s, op).1 ==> ValuesAgree(Step(s, op).0, PlainStep(p, package, op, v).0))
  {
    var op, key, offset := Extension(extendee, number), (extendee[1..], number), |s.values| - 1;
    StepSound(s, package, op, v);
    ExtensionInsert(s, key, offset);
    NotInMap(s.extensions, s.extensionsFlat, p.extensions, key);
    if !HasKey(s.extensions, key) {
      var x := Insert(ExtensionLess, s.extensions, Entry(key, offset));
      SameKeysInsert(s.extensions, x, s.extensionsFlat, p.extensions, Entry(key, offset), v);
      if ValuesAgree(s, p) && !HasKey(s.extensionsFlat, key) {
        RightValuesInsert(s.values, s.extensions, x, p.extensions, Entry(key, offset));
        RightValuesExtend(s.values, s.extensionsFlat, p.extensions, key, v);
      }
    }
  }

  lemma {:induction false} StepRefines<V(!new)>(s: State<V>, p: Plain<V>, package: string, op: Op, v: V)
    requires Refines(s, p) && Current(s, package, v) && NamedOp(package, op) && !Missed(s, op)
    ensures Step(s, op).1 == PlainStep(p, package, op, v).1
    ensures Refines(Step(s, op).0, PlainStep(p, package, op, v).0)
    ensures ValuesAgree(s, p) && Step(s, op).1 ==> ValuesAgree(Step(s, op).0, PlainStep(p, package, op, v).0)
    ensures Current(Step(s, op).0, package, v)
  {
    StepKeepsValues(s, package, op, v);
    match op
    case Symbol(symbol) => SymbolFullyRefines(s, p, package, symbol, v);
    case Extension(extendee, number) =>
      if Qualified(extendee) {
        ExtensionStepRefines(s, p, package, extendee, number, v);
      } else {
        UnqualifiedIgnored(s, p, package, extendee, number, v);
      }
  }

  lemma {:induction false} UnqualifiedIgnored<V(!new)>(s: State<V>, p: Plain<V>, package: string, extendee: string, number: int, v: V)
    requires s.values != [] && !Qualified(extendee)
    ensures Step(s, Extension(extendee, number)) == (s, true)
    ensures PlainStep(p, package, Extension(extendee, number), v) == (p, true)
  {
  }

  lemma {:induction false} StepKeepsValues<V>(s: State<V>, package: string, op: Op, v: V)
    requires Current(s, package, v)
    ensures Step(s, op).0.values == s.values && Current(Step(s, op).0, package, v)
  {
  }

  lemma {:induction false} SymbolFullyRefines<V(!new)>(s: State<V>, p: Plain<V>, package: string, symbol: string, v: V)
    requires Refines(s, p) && Current(s, package, v) && NamedOp(package, Symbol(symbol)) && !Missed(s, Symbol(symbol))
    ensures var op := Symbol(symbol);
      && Step(s, op).1 == PlainStep(p, package, op, v).1
      && Refines(Step(s, op).0, PlainStep(p, package, op, v).0)
      && (ValuesAgree(s, p) ==> ValuesAgree(Step(s, op).0, PlainStep(p, package, op, v).0))
  {
    SymbolAgreed(s, p, package, symbol, v);
    if Step(s, Symbol(symbol)).1 {
      SymbolStepRefines(s, p, package, symbol, v);
      SymbolInserted(s, package, symbol, v);
    }
  }

  // ---------- one file ----------

  predicate NoneMissed<V>(s: State<V>, ops: seq<Op>)
    requires s.values != []
    decreases |ops|
  {
    ops == [] ||
    (!Missed(s, ops[0]) && var (s1, ok) := Step(s, ops[0]); ok ==> NoneMissed(s1, ops[1..]))
  }

  ghost predicate NamedOps(package: string, ops: seq<Op>) {
    forall i | 0 <= i < |ops| :: NamedOp(package, ops[i])
  }

  lemma {:induction false} RunSound<V>(s: State<V>, package: string, ops: seq<Op>, v: V)
    requires Sound(s) && Current(s, package, v) && NamedOps(package, ops)
    ensures Sound(Run(s, ops).0) && Run(s, ops).0.values == s.values
    ensures !Joint(s) ==> !Joint(Run(s, ops).0)
    ensures Joint(s) ==> (Joint(Run(s, ops).0) <==> NoneMissed(s, ops))
    decreases |ops|
  {
    if ops != [] {
      StepSound(s, package, ops[0], v);
      RunSound(Step(s, ops[0]).0, package, ops[1..], v);
    }
  }

  lemma {:induction false} RunRefines<V(!new)>(s: State<V>, p: Plain<V>, package: string, ops: seq<Op>, v: V)
    requires Refines(s, p) && Current(s, package, v) && NamedOps(package, ops) && NoneMissed(s, ops)
    ensures Run(s, ops).1 == PlainRun(p, package, ops, v).1
    ensures Refines(Run(s, ops).0, PlainRun(p, package, ops, v).0)
    ensures ValuesAgree(s, p) && Run(s, ops).1 ==> ValuesAgree(Run(s, ops).0, PlainRun(p, package, ops, v).0)
    decreases |ops|
  {
    if ops != [] {
      StepRefines(s, p, package, ops[0], v);
      if Step(s, ops[0]).1 {
        RunRefines(Step(s, ops[0]).0, PlainStep(p, package, ops[0], v).0, package, ops[1..], v);
      }
    }
  }

  /** The state in which a file's items are added; None when the file is rejected before. */
  function Opened<V>(s: State<V>, f: File, v: V): Option<State<V>> {
    if !ValidateSymbolName(f.package) || Contains(Less, s.names, f.name) || Contains(Less, s.namesFlat, f.name) then None
    else Some(Push(s, v, f.package).(names := Insert(Less, s.names, Entry(f.name, |s.values|))))
  }

  predicate NoneMissedInFile<V>(s: State<V>, f: File, v: V) {
    var o := Opened(s, f, v);
    o.Some? ==> NoneMissed(o.value, FileOps(f))
  }

  ghost predicate NamedFile(f: File) {
    NamedOps(f.package, FileOps(f))
  }

  /** The plain index, for files whose package has to be valid. */
  function PlainAddEncoded<V>(p: Plain<V>, f: File, v: V): (Plain<V>, bool) {
    if ValidateSymbolName(f.package) then PlainAdd(p, f, v) else (p, false)
  }

  lemma {:induction false} PushKeeps<V(!new)>(s: State<V>, p: Plain<V>, v: V, package: string)
    ensures Sound(s) ==> Sound(Push(s, v, package))
    ensures Refines(s, p) ==> Refines(Push(s, v, package), p)
    ensures ValuesAgree(s, p) ==> ValuesAgree(Push(s, v, package), p)
  {
  }

  lemma {:induction false} OpenedKeeps<V(!new)>(s: State<V>, p: Plain<V>, f: File, v: V)
    requires Sound(s) && !Contains(Less, s.names, f.name)
    ensures var o := Push(s, v, f.package).(names := Insert(Less, s.names, Entry(f.name, |s.values|)));
      && Sound(o) && (Joint(o) <==> Joint(s))
      && (Refines(s, p) ==>
        && (f.name in p.files <==> Contains(Less, s.namesFlat, f.name))
        && (f.name in p.files ==> Refines(o, p))
        && (f.name !in p.files ==> Refines(o, p.(files := p.files[f.name := v])))
        && (f.name !in p.files && ValuesAgree(s, p) ==> ValuesAgree(o, p.(files := p.files[f.name := v]))))
  {
    PushKeeps(s, p, v, f.package);
    NameInsert(s, f.name, |s.values|);
    var s1, e := Push(s, v, f.package), Entry(f.name, |s.values|);
    var x := Insert(Less, s.names, e);
    OffsetsInsert(s1.values, s.names, x, e);
    if Refines(s, p) {
      NotInMap(s.names, s.namesFlat, p.files, f.name);
      SameKeysInsert(s.names, x, s.namesFlat, p.files, e, v);
      if f.name !in p.files && ValuesAgree(s, p) {
        RightValuesInsert(s1.values, s.names, x, p.files, e);
        RightValuesExtend(s1.values, s.namesFlat, p.files, f.name, v);
      }
    }
  }

  lemma {:induction false} AddSound<V(!new)>(s: State<V>, f: File, v: V)
    requires Sound(s) && NamedFile(f)
    ensures Sound(Add(s, f, v).0)
    ensures !Joint(s) ==> !Joint(Add(s, f, v).0)
    ensures Joint(s) ==> (Joint(Add(s, f, v).0) <==> NoneMissedInFile(s, f, v))
  {
    PushKeeps(s, EmptyPlain(), v, "");
    PushKeeps(s, EmptyPlain(), v, f.package);
    if ValidateSymbolName(f.package) && !Contains(Less, s.names, f.name) {
      OpenedKeeps(s, EmptyPlain(), f, v);
      if Opened(s, f, v).Some? {
        RunSound(Opened(s, f, v).value, f.package, FileOps(f), v);
      }
    }
  }

  /** A file is opened exactly when the plain index does not turn it away. */
  lemma {:induction false} OpenedAgreed<V(!new)>(s: State<V>, p: Plain<V>, f: File, v: V)
    requires Refines(s, p)
    ensures Opened(s, f, v).Some? <==> ValidateSymbolName(f.package) && f.name !in p.files
    ensures Opened(s, f, v).Some? ==>
      && Refines(Opened(s, f, v).value, p.(files := p.files[f.name := v]))
      && (ValuesAgree(s, p) ==> ValuesAgree(Opened(s, f, v).value, p.(files := p.files[f.name := v])))
  {
    NameInsert(s, f.name, |s.values|);
    NotInMap(s.names, s.namesFlat, p.files, f.name);
    if !Contains(Less, s.names, f.name) {
      OpenedKeeps(s, p, f, v);
    }
  }

  /** A file turned away leaves symbols and key sets as they were. */
  lemma {:induction false} NotOpened<V(!new)>(s: State<V>, p: Plain<V>, f: File, v: V)
    requires Refines(s, p) && Opened(s, f, v).None?
    ensures !Add(s, f, v).1 && Refines(Add(s, f, v).0, p)
  {
    PushKeeps(s, p, v, "");
    PushKeeps(s, p, v, f.package);
    if !Contains(Less, s.names, f.name) {
      OpenedAgreed(s, p, f, v);
      OpenedKeeps(s, p, f, v);
    }
  }

  lemma {:induction false} AddRefines<V(!new)>(s: State<V>, p: Plain<V>, f: File, v: V)
    requires Refines(s, p) && NamedFile(f) && NoneMissedInFile(s, f, v)
    ensures Add(s, f, v).1 == PlainAddEncoded(p, f, v).1
    ensures Refines(Add(s, f, v).0, PlainAddEncoded(p, f, v).0)
    ensures ValuesAgree(s, p) && Add(s, f, v).1 ==> ValuesAgree(Add(s, f, v).0, PlainAddEncoded(p, f, v).0)
  {
    OpenedAgreed(s, p, f, v);
    if Opened(s, f, v).None? {
      NotOpened(s, p, f, v);
    } else {
      RunRefines(Opened(s, f, v).value, p.(files := p.files[f.name := v]), f.package, FileOps(f), v);
    }
  }

  lemma {:induction false} FlattenSound<V>(s: State<V>)
    requires Sound(s)
    ensures Sound(EnsureFlat(s)) && (Joint(EnsureFlat(s)) <==> Joint(s))
  {
    FlattenSymbols(s.symbols, s.symbolsFlat);
    PackagesMerge(s.values, s.symbols, s.symbolsFlat);
    NameOrder();
    ExtensionOrder();
    StrictlySortedIsSorted(Less, s.names);
    StrictlySortedIsSorted(ExtensionLess, s.extensions);
    MergeSorts(Less, s.names, s.namesFlat);
    MergeSorts(ExtensionLess, s.extensions, s.extensionsFlat);
    OffsetsMerge(Less, s.values, s.names, s.namesFlat);
    OffsetsMerge(ExtensionLess, s.values, s.extensions, s.extensionsFlat);
  }

  lemma {:induction false} FlattenRefines<V(!new)>(s: State<V>, p: Plain<V>)
    requires Refines(s, p)
    ensures Refines(EnsureFlat(s), p)
    ensures ValuesAgree(s, p) ==> ValuesAgree(EnsureFlat(s), p)
  {
    FlattenSound(s);
    FlattenSymbols(s.symbols, s.symbolsFlat);
    MergedKeys(Less, Strings(s.symbols), Strings(s.symbolsFlat), p.symbols);
    MergedValues(Less, s.values, Strings(s.symbols), Strings(s.symbolsFlat), p.symbols);
    MergedKeys(Less, s.names, s.namesFlat, p.files);
    MergedKeys(ExtensionLess, s.extensions, s.extensionsFlat, p.extensions);
    if ValuesAgree(s, p) {
      MergedValues(Less, s.values, s.names, s.namesFlat, p.files);
      MergedValues(ExtensionLess, s.values, s.extensions, s.extensionsFlat, p.extensions);
    }
  }
}
