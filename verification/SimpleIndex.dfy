/** SimpleDescriptorDatabase's index: one tree each for symbols and extensions, a map for files. */
module SimpleIndex {
  import opened Options
  import opened Names
  import opened Ordered
  import opened SymbolTable
  import opened Files

  datatype State<V> = State(
    byName: map<string, V>, bySymbol: Table<V>, byExtension: seq<Entry<ExtensionKey, V>>)

  function Empty<V>(): State<V> { State(map[], [], []) }

  function Step<V>(s: State<V>, package: string, op: Op, v: V): (State<V>, bool) {
    match op
    case Symbol(symbol) =>
      var (t, ok) := AddSymbol(s.bySymbol, FullName(package, symbol), v);
      (s.(bySymbol := t), ok)
    case Extension(extendee, number) =>
      if !Qualified(extendee) then (s, true)
      else if Contains(ExtensionLess, s.byExtension, (extendee[1..], number)) then (s, false)
      else (s.(byExtension := Insert(ExtensionLess, s.byExtension, Entry((extendee[1..], number), v))), true)
  }

  function Run<V>(s: State<V>, package: string, ops: seq<Op>, v: V): (State<V>, bool)
    decreases |ops|
  {
    if ops == [] then (s, true)
    else
      var (s1, ok) := Step(s, package, ops[0], v);
      if ok then Run(s1, package, ops[1..], v) else (s1, false)
  }

  function Add<V>(s: State<V>, f: File, v: V): (State<V>, bool) {
    if f.name in s.byName then (s, false)
    else Run(s.(byName := s.byName[f.name := v]), f.package, FileOps(f), v)
  }

  /** The files added one after the other, whether accepted or not. */
  function AddAll<V>(s: State<V>, history: seq<(File, V)>): State<V>
    decreases |history|
  {
    if history == [] then s else AddAll(Add(s, history[0].0, history[0].1).0, history[1..])
  }

  function PlainAddAll<V>(p: Plain<V>, history: seq<(File, V)>): Plain<V>
    decreases |history|
  {
    if history == [] then p else PlainAddAll(PlainAdd(p, history[0].0, history[0].1).0, history[1..])
  }

  function FindExtension<V>(s: State<V>, key: ExtensionKey): Option<V> {
    Lookup(ExtensionLess, s.byExtension, key)
  }

  lemma {:induction false} RunAppend<V>(s: State<V>, package: string, a: seq<Op>, b: seq<Op>, v: V)
    ensures var (s1, ok) := Run(s, package, a, v);
      Run(s, package, a + b, v) == if ok then Run(s1, package, b, v) else (s1, false)
    decreases |a|
  {
    if a == [] {
      assert a + b == b;
    } else {
      assert (a + b)[1..] == a[1..] + b;
      RunAppend(Step(s, package, a[0], v).0, package, a[1..], b, v);
    }
  }

  // ---------- invariants of every run ----------

  ghost predicate InOrder<V>(s: State<V>) {
    && StrictlySorted(Less, s.bySymbol) && AllValid(s.bySymbol)
    && StrictlySorted(ExtensionLess, s.byExtension)
  }

  /** The op hits the one case the neighbour checks miss. */
  predicate Missed<V>(s: State<V>, package: string, op: Op) {
    op.Symbol? && ValidateSymbolName(FullName(package, op.symbol))
    && SmallestKeyCase(s.bySymbol, FullName(package, op.symbol))
  }

  predicate NoneMissed<V>(s: State<V>, package: string, ops: seq<Op>, v: V)
    decreases |ops|
  {
    ops == [] ||
    (!Missed(s, package, ops[0]) &&
     var (s1, ok) := Step(s, package, ops[0], v);
     ok ==> NoneMissed(s1, package, ops[1..], v))
  }

  predicate NoneMissedInFile<V>(s: State<V>, f: File, v: V) {
    f.name !in s.byName ==> NoneMissed(s.(byName := s.byName[f.name := v]), f.package, FileOps(f), v)
  }

  predicate NoneMissedInRun<V>(s: State<V>, history: seq<(File, V)>)
    decreases |history|
  {
    history == [] ||
    (NoneMissedInFile(s, history[0].0, history[0].1) &&
     NoneMissedInRun(Add(s, history[0].0, history[0].1).0, history[1..]))
  }

  lemma {:induction false} AddExtensionGrows<V>(s: State<V>, key: ExtensionKey, v: V)
    requires StrictlySorted(ExtensionLess, s.byExtension)
    ensures Contains(ExtensionLess, s.byExtension, key) <==> HasKey(s.byExtension, key)
    ensures var x := Insert(ExtensionLess, s.byExtension, Entry(key, v));
      && StrictlySorted(ExtensionLess, x)
      && (!HasKey(s.byExtension, key) ==> multiset(x) == multiset(s.byExtension) + multiset{Entry(key, v)})
  {
    ExtensionOrder();
    StrictlySortedIsSorted(ExtensionLess, s.byExtension);
    LookupFinds(ExtensionLess, s.byExtension, key);
    InsertKeepsOrder(ExtensionLess, s.byExtension, Entry(key, v));
  }

  lemma {:induction false} StepKeepsOrder<V>(s: State<V>, package: string, op: Op, v: V)
    requires InOrder(s)
    ensures InOrder(Step(s, package, op, v).0)
    ensures !PrefixFree(s.bySymbol) ==> !PrefixFree(Step(s, package, op, v).0.bySymbol)
    ensures PrefixFree(s.bySymbol) ==>
      (PrefixFree(Step(s, package, op, v).0.bySymbol) <==> !Missed(s, package, op))
  {
    match op
    case Symbol(symbol) =>
      var name := FullName(package, symbol);
      AddSymbolGrows(s.bySymbol, name, v);
      if PrefixFree(s.bySymbol) {
        AddSymbolAccepts(s.bySymbol, name, v);
        if AddSymbol(s.bySymbol, name, v).1 { AddSymbolKeeps(s.bySymbol, name, v); }
      }
    case Extension(extendee, number) =>
      if Qualified(extendee) { AddExtensionGrows(s, (extendee[1..], number), v); }
  }

  lemma {:induction false} RunKeepsOrder<V>(s: State<V>, package: string, ops: seq<Op>, v: V)
    requires InOrder(s)
    ensures InOrder(Run(s, package, ops, v).0)
    ensures !PrefixFree(s.bySymbol) ==> !PrefixFree(Run(s, package, ops, v).0.bySymbol)
    ensures PrefixFree(s.bySymbol) ==>
      (PrefixFree(Run(s, package, ops, v).0.bySymbol) <==> NoneMissed(s, package, ops, v))
    decreases |ops|
  {
    if ops != [] {
      StepKeepsOrder(s, package, ops[0], v);
      RunKeepsOrder(Step(s, package, ops[0], v).0, package, ops[1..], v);
    }
  }

  lemma {:induction false} AddAllKeepsOrder<V>(s: State<V>, history: seq<(File, V)>)
    requires InOrder(s)
    ensures InOrder(AddAll(s, history))
    ensures !PrefixFree(s.bySymbol) ==> !PrefixFree(AddAll(s, history).bySymbol)
    ensures PrefixFree(s.bySymbol) ==>
      (PrefixFree(AddAll(s, history).bySymbol) <==> NoneMissedInRun(s, history))
    decreases |history|
  {
    if history != [] {
      var (f, v) := history[0];
      if f.name !in s.byName {
        RunKeepsOrder(s.(byName := s.byName[f.name := v]), f.package, FileOps(f), v);
      }
      AddAllKeepsOrder(Add(s, f, v).0, history[1..]);
    }
  }

  /** After any run of adds, accepted or rejected, every symbol lookup answers like the plain set of
      stored names exactly when no add of the run met the smallest-key case. */
  lemma {:induction false} LookupsCorrectIffNoneMissed<V>(history: seq<(File, V)>)
    ensures var s := AddAll(Empty(), history);
      (forall name :: Answers(s.bySymbol, name, FindSymbol(s.bySymbol, name))) <==>
      NoneMissedInRun(Empty<V>(), history)
  {
    AddAllKeepsOrder(Empty(), history);
    LookupsCorrectIffPrefixFree(AddAll(Empty(), history).bySymbol);
  }

  // ---------- refinement of the plain index ----------

  ghost predicate Refines<V(!new)>(s: State<V>, p: Plain<V>) {
    && InOrder(s) && PrefixFree(s.bySymbol)
    && s.byName == p.files
    && Represents(s.bySymbol, p.symbols)
    && Represents(s.byExtension, p.extensions)
  }

  lemma {:induction false} NoConflictInMap<V(!new)>(t: Table<V>, m: map<string, V>, name: string)
    requires Represents(t, m)
    ensures NoConflict(t, name) <==> forall k | k in m :: !Conflict(k, name)
  {
    forall k | k in m ensures exists i | 0 <= i < |t| :: t[i].key == k {
      assert Entry(k, m[k]) in t;
    }
    forall i | 0 <= i < |t| ensures t[i].key in m { assert t[i] in t; }
  }

  lemma {:induction false} StepRefines<V(!new)>(s: State<V>, p: Plain<V>, package: string, op: Op, v: V)
    requires Refines(s, p) && !Missed(s, package, op)
    ensures Step(s, package, op, v).1 == PlainStep(p, package, op, v).1
    ensures Refines(Step(s, package, op, v).0, PlainStep(p, package, op, v).0)
  {
    StepKeepsOrder(s, package, op, v);
    match op
    case Symbol(symbol) =>
      var name := FullName(package, symbol);
      AddSymbolAccepts(s.bySymbol, name, v);
      NoConflictInMap(s.bySymbol, p.symbols, name);
      AddSymbolGrows(s.bySymbol, name, v);
      if Step(s, package, op, v).1 {
        RepresentsInsert(s.bySymbol, p.symbols, AddSymbol(s.bySymbol, name, v).0, Entry(name, v));
      }
    case Extension(extendee, number) =>
      if Qualified(extendee) {
        var key := (extendee[1..], number);
        AddExtensionGrows(s, key, v);
        HasKeyInMap(s.byExtension, p.extensions, key);
        if key !in p.extensions {
          RepresentsInsert(s.byExtension, p.extensions,
            Insert(ExtensionLess, s.byExtension, Entry(key, v)), Entry(key, v));
        }
      }
  }

  lemma {:induction false} RunRefines<V(!new)>(s: State<V>, p: Plain<V>, package: string, ops: seq<Op>, v: V)
    requires Refines(s, p) && NoneMissed(s, package, ops, v)
    ensures Run(s, package, ops, v).1 == PlainRun(p, package, ops, v).1
    ensures Refines(Run(s, package, ops, v).0, PlainRun(p, package, ops, v).0)
    decreases |ops|
  {
    if ops != [] {
      StepRefines(s, p, package, ops[0], v);
      if Step(s, package, ops[0], v).1 {
        RunRefines(Step(s, package, ops[0], v).0, PlainStep(p, package, ops[0], v).0, package, ops[1..], v);
      }
    }
  }

  lemma {:induction false} AddRefines<V(!new)>(s: State<V>, p: Plain<V>, f: File, v: V)
    requires Refines(s, p) && NoneMissedInFile(s, f, v)
    ensures Add(s, f, v).1 == PlainAdd(p, f, v).1
    ensures Refines(Add(s, f, v).0, PlainAdd(p, f, v).0)
  {
    if f.name !in s.byName {
      RunRefines(s.(byName := s.byName[f.name := v]), p.(files := p.files[f.name := v]),
        f.package, FileOps(f), v);
    }
  }

  lemma {:induction false} AddAllRefines<V(!new)>(s: State<V>, p: Plain<V>, history: seq<(File, V)>)
    requires Refines(s, p) && NoneMissedInRun(s, history)
    ensures Refines(AddAll(s, history), PlainAddAll(p, history))
    decreases |history|
  {
    if history != [] {
      AddRefines(s, p, history[0].0, history[0].1);
      AddAllRefines(Add(s, history[0].0, history[0].1).0, PlainAdd(p, history[0].0, history[0].1).0, history[1..]);
    }
  }

  lemma {:induction false} LookupsRefine<V(!new)>(s: State<V>, p: Plain<V>, name: string, key: ExtensionKey)
    requires Refines(s, p)
    ensures PlainAnswers(p, name, FindSymbol(s.bySymbol, name))
    ensures FindExtension(s, key) == PlainFindExtension(p, key)
  {
    ExtensionOrder();
    StrictlySortedIsSorted(ExtensionLess, s.byExtension);
    LookupIsMap(ExtensionLess, s.byExtension, p.extensions, key);
    LookupAnswers(s.bySymbol, name);
    forall k | k in p.symbols ensures exists i | 0 <= i < |s.bySymbol| :: s.bySymbol[i].key == k {
      assert Entry(k, p.symbols[k]) in s.bySymbol;
    }
    forall i | 0 <= i < |s.bySymbol|
      ensures s.bySymbol[i].key in p.symbols && p.symbols[s.bySymbol[i].key] == s.bySymbol[i].value
    {
      assert s.bySymbol[i] in s.bySymbol;
    }
  }

  /** After any run of adds, accepted or rejected, that never met the smallest-key case, the index
      accepted what the plain index accepts and answers every lookup as it does. */
  lemma {:induction false} SimpleRefinesPlain<V(!new)>(history: seq<(File, V)>, name: string, key: ExtensionKey)
    requires NoneMissedInRun(Empty<V>(), history)
    ensures var s, p := AddAll(Empty(), history), PlainAddAll(EmptyPlain(), history);
      && s.byName == p.files
      && PlainAnswers(p, name, FindSymbol(s.bySymbol, name))
      && FindExtension(s, key) == PlainFindExtension(p, key)
  {
    AddAllRefines(Empty(), EmptyPlain(), history);
    LookupsRefine(AddAll(Empty(), history), PlainAddAll(EmptyPlain(), history), name, key);
  }

  // ---------- the smallest-key case, concretely ----------

  /** One stored name, a new name above it, and a query between the two that sorts after the stored
      name: the new name is accepted, and the query then misses it. */
  lemma {:induction false} ParentOfOnlyKey(stored: string, name: string, query: string)
    requires ValidateSymbolName(stored) && ValidateSymbolName(name)
    requires IsSubSymbol(name, stored) && IsSubSymbol(name, query)
    requires Less(stored, query) && !IsSubSymbol(stored, query) && name != stored
    ensures var t := [Entry(stored, 1)];
      && SmallestKeyCase(t, name) && AddSymbol(t, name, 2).1
      && FindSymbol(AddSymbol(t, name, 2).0, query) == None
  {
    var t := [Entry(stored, 1)];
    SubSymbolLessEq(name, stored);
    SubSymbolLessEq(name, query);
    LessTotal(name, stored);
    LessTotal(name, query);
    LessTotal(stored, query);
    assert Neighbour(t, name) == 0;
    assert AddSymbol(t, name, 2).0 == [Entry(name, 2), Entry(stored, 1)];
    assert UpperBound(Less, [Entry(stored, 1)], query) == 1;
    assert [Entry(name, 2), Entry(stored, 1)][1..] == [Entry(stored, 1)];
  }

  /** "foo" is accepted beside "foo.bar"; afterwards "foo.baz", which lies under "foo", is not found. */
  lemma {:induction false} SmallestKeyWitness()
    ensures AddSymbol([Entry("foo.bar", 1)], "foo", 2).1
    ensures IsSubSymbol("foo", "foo.bar") && IsSubSymbol("foo", "foo.baz")
    ensures FindSymbol(AddSymbol([Entry("foo.bar", 1)], "foo", 2).0, "foo.baz") == None
  {
    DivergeIs("foo.bar", "foo.baz", 6);
    ParentOfOnlyKey("foo.bar", "foo", "foo.baz");
  }

  // ---------- every file reachable is the one stored under its name ----------

  ghost predicate Coherent(s: State<File>) {
    && (forall n | n in s.byName :: s.byName[n].name == n)
    && (forall i | 0 <= i < |s.bySymbol| :: Stored(s, s.bySymbol[i].value))
    && (forall i | 0 <= i < |s.byExtension| :: Stored(s, s.byExtension[i].value))
  }

  predicate Stored(s: State<File>, f: File) {
    f.name in s.byName && s.byName[f.name] == f
  }

  lemma {:induction false} StepCoherent(s: State<File>, package: string, op: Op, f: File)
    requires Coherent(s) && Stored(s, f)
    ensures Coherent(Step(s, package, op, f).0) && Stored(Step(s, package, op, f).0, f)
    ensures Step(s, package, op, f).0.byName == s.byName
  {
    var s1 := Step(s, package, op, f).0;
    match op
    case Symbol(symbol) =>
      var e := Entry(FullName(package, symbol), f);
      forall i | 0 <= i < |s1.bySymbol| ensures Stored(s1, s1.bySymbol[i].value) {
        InsertedOrOld(Less, s.bySymbol, e, i);
      }
    case Extension(extendee, number) =>
      if Qualified(extendee) {
        var e := Entry((extendee[1..], number), f);
        forall i | 0 <= i < |s1.byExtension| ensures Stored(s1, s1.byExtension[i].value) {
          InsertedOrOld(ExtensionLess, s.byExtension, e, i);
        }
      }
  }

  lemma {:induction false} RunCoherent(s: State<File>, package: string, ops: seq<Op>, f: File)
    requires Coherent(s) && Stored(s, f)
    ensures Coherent(Run(s, package, ops, f).0)
    decreases |ops|
  {
    if ops != [] {
      StepCoherent(s, package, ops[0], f);
      RunCoherent(Step(s, package, ops[0], f).0, package, ops[1..], f);
    }
  }

  function AsHistory(files: seq<File>): seq<(File, File)> {
    seq(|files|, i requires 0 <= i < |files| => (files[i], files[i]))
  }

  lemma {:induction false} AddAllCoherent(s: State<File>, files: seq<File>)
    requires Coherent(s)
    ensures Coherent(AddAll(s, AsHistory(files)))
    decreases |files|
  {
    if files != [] {
      var f := files[0];
      var s' := s.(byName := s.byName[f.name := f]);
      if f.name !in s.byName {
        assert forall g | Stored(s, g) :: Stored(s', g);
        RunCoherent(s', f.package, FileOps(f), f);
      }
      assert AsHistory(files)[1..] == AsHistory(files[1..]);
      AddAllCoherent(Add(s, f, f).0, files[1..]);
    }
  }

  /** After any run of adds at all, a file found by symbol or by extension is the file that the name
      index holds under that file's own name. */
  lemma {:induction false} FoundFileIsStored(files: seq<File>, name: string, key: ExtensionKey)
    ensures var s := AddAll(Empty(), AsHistory(files));
      && (FindSymbol(s.bySymbol, name).Some? ==> Stored(s, FindSymbol(s.bySymbol, name).value))
      && (FindExtension(s, key).Some? ==> Stored(s, FindExtension(s, key).value))
  {
    AddAllCoherent(Empty(), files);
  }

  // ---------- extension numbers ----------

  /** The numbers listed for a type: those of the entries from (type, 0) on, while the type lasts. */
  function NumbersFrom<V>(s: seq<Entry<ExtensionKey, V>>, i: nat, type_: string): seq<int>
    requires i <= |s|
    decreases |s| - i
  {
    if i == |s| || s[i].key.0 != type_ then [] else [s[i].key.1] + NumbersFrom(s, i + 1, type_)
  }

  function Numbers<V>(s: seq<Entry<ExtensionKey, V>>, type_: string): seq<int> {
    NumbersFrom(s, LowerBound(ExtensionLess, s, (type_, 0)), type_)
  }

  ghost predicate Ascending(n: seq<int>) {
    forall i, j | 0 <= i < j < |n| :: n[i] < n[j]
  }

  lemma {:induction false} NumbersFromExact<V>(s: seq<Entry<ExtensionKey, V>>, i: nat, type_: string)
    requires i <= |s| && StrictlySorted(ExtensionLess, s)
    requires i < |s| ==> type_ == s[i].key.0 || Less(type_, s[i].key.0)
    ensures Ascending(NumbersFrom(s, i, type_))
    ensures forall n :: n in NumbersFrom(s, i, type_) <==> exists j | i <= j < |s| :: s[j].key == (type_, n)
    decreases |s| - i
  {
    if i < |s| {
      forall j | i < j < |s| ensures LaterKey(s[i].key, s[j].key, type_) {
        KeysAscend(s, i, j, type_);
      }
      LessIrreflexive(type_);
      if s[i].key.0 == type_ {
        NumbersFromExact(s, i + 1, type_);
        var rest := NumbersFrom(s, i + 1, type_);
        forall k | 0 <= k < |rest| ensures s[i].key.1 < rest[k] {
          assert rest[k] in rest;
          var j :| i + 1 <= j < |s| && s[j].key == (type_, rest[k]);
          assert LaterKey(s[i].key, s[j].key, type_);
        }
      }
    }
  }

  predicate LaterKey(a: ExtensionKey, b: ExtensionKey, type_: string) {
    if a.0 != type_ then b.0 != type_
    else (b.0 == type_ || Less(type_, b.0)) && (b.0 == type_ ==> a.1 < b.1)
  }

  lemma {:induction false} KeysAscend<V>(s: seq<Entry<ExtensionKey, V>>, i: nat, j: nat, type_: string)
    requires StrictlySorted(ExtensionLess, s) && i < j < |s|
    requires type_ == s[i].key.0 || Less(type_, s[i].key.0)
    ensures LaterKey(s[i].key, s[j].key, type_)
  {
  }

  /** The listed numbers are ascending without repeats, and are exactly the non-negative numbers for
      which an extension of the type is found. */
  lemma {:induction false} NumbersExact<V>(s: seq<Entry<ExtensionKey, V>>, type_: string)
    requires StrictlySorted(ExtensionLess, s)
    ensures Ascending(Numbers(s, type_))
    ensures forall n :: n in Numbers(s, type_) <==> n >= 0 && Lookup(ExtensionLess, s, (type_, n)).Some?
  {
    ExtensionOrder();
    StrictlySortedIsSorted(ExtensionLess, s);
    LowerBoundSplits(ExtensionLess, s, (type_, 0));
    var i := LowerBound(ExtensionLess, s, (type_, 0));
    if i < |s| { LessTotal(type_, s[i].key.0); }
    NumbersFromExact(s, i, type_);
    forall n ensures n in Numbers(s, type_) <==> n >= 0 && Lookup(ExtensionLess, s, (type_, n)).Some? {
      LookupFinds(ExtensionLess, s, (type_, n));
      LessIrreflexive(type_);
      forall j | 0 <= j < |s| && s[j].key == (type_, n) ensures n >= 0 <==> i <= j {}
    }
  }
}
