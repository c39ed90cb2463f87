/** What adding a file does to every lookup, told from what the file declares. */
module AddedFiles {
  import opened Options
  import opened Names
  import opened Ordered
  import opened Files
  import SymbolTable
  import S = SimpleIndex
  import E = EncodedIndex
  import R = EncodedRuns
  import H = EncodedTheorems
  import B = EncodedTables
  import T = TwoLevel

  // ---------- what a file declares ----------

  /** The name of a message, an enum, an extension or a service at top level. */
  ghost predicate DeclaresSymbol(f: File, n: string) {
    || (exists m | m in f.messages :: m.name == n)
    || n in f.enums
    || (exists x | x in f.extensions :: x.name == n)
    || n in f.services
  }

  /** Declared in the message, or in a message nested in it at any depth. */
  ghost predicate Within(m: Message, x: Field) {
    x in m.extensions || exists c | c in m.nested :: Within(c, x)
  }

  ghost predicate DeclaresExtension(f: File, x: Field) {
    x in f.extensions || exists m | m in f.messages :: Within(m, x)
  }

  ghost predicate DeclaresName(f: File, full: string) {
    exists n :: DeclaresSymbol(f, n) && full == if f.package == "" then n else f.package + "." + n
  }

  /** Extensions count when their extendee is written out in full, with a leading dot. */
  ghost predicate DeclaresKey(f: File, key: ExtensionKey) {
    exists x :: DeclaresExtension(f, x) && x.extendee == "." + key.0 && x.number == key.1
  }

  /** A declared name is the query or above it. */
  ghost predicate Covers(f: File, query: string) {
    exists full :: DeclaresName(f, full) && IsSubSymbol(full, query)
  }

  // ---------- the items of a file are what it declares ----------

  lemma {:induction false} InAppend<X>(a: seq<X>, b: seq<X>, x: X)
    ensures x in a + b <==> x in a || x in b
  {
  }

  lemma {:induction false} HeadOrTail<X>(s: seq<X>, x: X)
    requires s != []
    ensures x in s <==> x == s[0] || x in s[1..]
  {
    assert s == [s[0]] + s[1..];
  }

  lemma {:induction false} NamesAreItems(names: seq<string>, op: Op)
    ensures op in NameOps(names) <==> op.Symbol? && op.symbol in names
    decreases |names|
  {
    if names != [] {
      NamesAreItems(names[1..], op);
      InAppend([Symbol(names[0])], NameOps(names[1..]), op);
      if op.Symbol? { HeadOrTail(names, op.symbol); }
    }
  }

  ghost predicate Declared(fields: seq<Field>, op: Op) {
    op.Extension? && exists x | x in fields :: x.extendee == op.extendee && x.number == op.number
  }

  lemma {:induction false} DeclaredHead(fields: seq<Field>, op: Op)
    requires fields != []
    ensures Declared(fields, op) <==> op == Extension(fields[0].extendee, fields[0].number) || Declared(fields[1..], op)
  {
    assert fields == [fields[0]] + fields[1..];
  }

  lemma {:induction false} ExtensionsAreItems(fields: seq<Field>, op: Op)
    ensures op in ExtensionOps(fields) <==> Declared(fields, op)
    decreases |fields|
  {
    if fields != [] {
      ExtensionsAreItems(fields[1..], op);
      InAppend([Extension(fields[0].extendee, fields[0].number)], ExtensionOps(fields[1..]), op);
      DeclaredHead(fields, op);
    }
  }

  lemma {:induction false} TopExtensionsAreItems(fields: seq<Field>, op: Op)
    ensures op in TopExtensionOps(fields) <==>
      Declared(fields, op) || (op.Symbol? && exists x | x in fields :: x.name == op.symbol)
    decreases |fields|
  {
    if fields != [] {
      TopExtensionsAreItems(fields[1..], op);
      InAppend([Symbol(fields[0].name), Extension(fields[0].extendee, fields[0].number)], TopExtensionOps(fields[1..]), op);
      DeclaredHead(fields, op);
      assert fields == [fields[0]] + fields[1..];
    }
  }

  ghost predicate DeclaredWithin(m: Message, op: Op) {
    op.Extension? && exists x :: Within(m, x) && x.extendee == op.extendee && x.number == op.number
  }

  lemma {:induction false} NestedAreItems(m: Message, op: Op)
    ensures op in NestedOps(m) <==> DeclaredWithin(m, op)
    decreases m, 0
  {
    NestedListAreItems(m.nested, op);
    ExtensionsAreItems(m.extensions, op);
    InAppend(NestedListOps(m.nested), ExtensionOps(m.extensions), op);
  }

  lemma {:induction false} NestedListAreItems(ms: seq<Message>, op: Op)
    ensures op in NestedListOps(ms) <==> exists c | c in ms :: DeclaredWithin(c, op)
    decreases ms, 1
  {
    if ms != [] {
      NestedAreItems(ms[0], op);
      NestedListAreItems(ms[1..], op);
      InAppend(NestedOps(ms[0]), NestedListOps(ms[1..]), op);
      assert ms == [ms[0]] + ms[1..];
    }
  }

  lemma {:induction false} MessagesAreItems(ms: seq<Message>, op: Op)
    ensures op in MessageOps(ms) <==>
      (exists c | c in ms :: DeclaredWithin(c, op)) || (op.Symbol? && exists c | c in ms :: c.name == op.symbol)
    decreases |ms|
  {
    if ms != [] {
      NestedAreItems(ms[0], op);
      MessagesAreItems(ms[1..], op);
      InAppend([Symbol(ms[0].name)], NestedOps(ms[0]), op);
      InAppend([Symbol(ms[0].name)] + NestedOps(ms[0]), MessageOps(ms[1..]), op);
      assert ms == [ms[0]] + ms[1..];
    }
  }

  /** The items added are exactly the symbols and extensions the file declares. */
  lemma {:induction false} ItemsAreDeclared(f: File, op: Op)
    ensures op in FileOps(f) <==>
      match op
      case Symbol(n) => DeclaresSymbol(f, n)
      case Extension(extendee, number) =>
        exists x :: DeclaresExtension(f, x) && x.extendee == extendee && x.number == number
  {
    var a, b, c, d := MessageOps(f.messages), NameOps(f.enums), TopExtensionOps(f.extensions), NameOps(f.services);
    InAppend(a + b + c, d, op);
    InAppend(a + b, c, op);
    InAppend(a, b, op);
    MessagesAreItems(f.messages, op);
    NamesAreItems(f.enums, op);
    TopExtensionsAreItems(f.extensions, op);
    NamesAreItems(f.services, op);
  }

  lemma {:induction false} NamesDeclared(f: File, full: string)
    ensures DeclaresName(f, full) <==> exists n :: Symbol(n) in FileOps(f) && full == FullName(f.package, n)
  {
    if DeclaresName(f, full) {
      var n :| DeclaresSymbol(f, n) && full == if f.package == "" then n else f.package + "." + n;
      ItemsAreDeclared(f, Symbol(n));
    }
    if n :| Symbol(n) in FileOps(f) && full == FullName(f.package, n) {
      ItemsAreDeclared(f, Symbol(n));
    }
  }

  lemma {:induction false} KeysDeclared(f: File, key: ExtensionKey)
    ensures DeclaresKey(f, key) <==> Extension("." + key.0, key.1) in FileOps(f)
  {
    ItemsAreDeclared(f, Extension("." + key.0, key.1));
  }

  /** The order in which they are added, which decides what a rejected file leaves behind: each message before the
      extensions inside it, nested ones first; then enums, extensions with their names, services. */
  lemma {:induction false} OrderOfItems()
    ensures FileOps(File("f", "p", [Message("M", [Message("N", [], [Field("x", ".T", 1)])], [Field("y", ".T", 2)])],
        ["E"], [Field("z", "U", 3)], ["S"])) ==
      [Symbol("M"), Extension(".T", 1), Extension(".T", 2), Symbol("E"), Symbol("z"), Extension("U", 3), Symbol("S")]
  {
    var x, y, z := Field("x", ".T", 1), Field("y", ".T", 2), Field("z", "U", 3);
    var n := Message("N", [], [x]);
    var m := Message("M", [n], [y]);
    assert [x][1..] == [] && [y][1..] == [] && [z][1..] == [] && [n][1..] == [] && [m][1..] == [];
    assert ["E"][1..] == [] && ["S"][1..] == [];
    assert ExtensionOps([x]) == [Extension(".T", 1)] && ExtensionOps([y]) == [Extension(".T", 2)];
    assert NestedOps(n) == [Extension(".T", 1)];
    assert NestedListOps([n]) == [Extension(".T", 1)];
    assert NestedOps(m) == [Extension(".T", 1), Extension(".T", 2)];
    assert MessageOps([m]) == [Symbol("M"), Extension(".T", 1), Extension(".T", 2)];
    assert TopExtensionOps([z]) == [Symbol("z"), Extension("U", 3)];
  }

  // ---------- what one add does to one lookup ----------

  /** An accepted file: what it declares finds its value, everything else finds what it did.  A rejected one: any
      lookup finds what it did, or the file's value if the file declares it. */
  predicate Follows<V(==)>(ok: bool, declared: bool, before: Option<V>, after: Option<V>, v: V) {
    if ok then after == if declared then Some(v) else before
    else after == before || (declared && after == Some(v))
  }

  // ---------- the plain index ----------

  ghost predicate NamedIn(package: string, ops: seq<Op>, full: string) {
    exists n :: Symbol(n) in ops && full == FullName(package, n)
  }

  predicate KeyIn(ops: seq<Op>, key: ExtensionKey) {
    Extension("." + key.0, key.1) in ops
  }

  lemma {:induction false} NamedHead(package: string, ops: seq<Op>, full: string)
    requires ops != []
    ensures NamedIn(package, ops, full) <==>
      (ops[0].Symbol? && full == FullName(package, ops[0].symbol)) || NamedIn(package, ops[1..], full)
  {
    assert ops == [ops[0]] + ops[1..];
  }

  lemma {:induction false} KeyHead(ops: seq<Op>, key: ExtensionKey)
    requires ops != []
    ensures KeyIn(ops, key) <==>
      (ops[0].Extension? && Qualified(ops[0].extendee) && (ops[0].extendee[1..], ops[0].number) == key) || KeyIn(ops[1..], key)
  {
    HeadOrTail(ops, Extension("." + key.0, key.1));
    if ops[0].Extension? && Qualified(ops[0].extendee) {
      assert ops[0].extendee == "." + ops[0].extendee[1..];
    }
  }

  /** What a run does to one key of a map: `taken` says whether the run adds it. */
  predicate Changed<K, V(==)>(ok: bool, taken: bool, m: map<K, V>, m1: map<K, V>, k: K, v: V) {
    && (k in m ==> k in m1 && m1[k] == m[k])
    && (k in m1 && k !in m ==> taken && m1[k] == v)
    && (ok && taken ==> k !in m && k in m1)
  }

  lemma {:induction false} PlainStepChanges<V>(p: Plain<V>, package: string, op: Op, v: V, full: string, key: ExtensionKey)
    ensures var (p1, ok) := PlainStep(p, package, op, v);
      && p1.files == p.files
      && Changed(ok, op.Symbol? && full == FullName(package, op.symbol), p.symbols, p1.symbols, full, v)
      && Changed(ok, op.Extension? && Qualified(op.extendee) && (op.extendee[1..], op.number) == key,
           p.extensions, p1.extensions, key, v)
  {
  }

  lemma {:induction false} ChangedTwice<K, V>(
    m: map<K, V>, m1: map<K, V>, m2: map<K, V>, k: K, v: V, first: bool, ok: bool, rest: bool)
    requires Changed(true, first, m, m1, k, v) && Changed(ok, rest, m1, m2, k, v)
    ensures Changed(ok, first || rest, m, m2, k, v)
  {
  }

  lemma {:induction false} PlainRunChanges<V>(p: Plain<V>, package: string, ops: seq<Op>, v: V, full: string, key: ExtensionKey)
    ensures var (p1, ok) := PlainRun(p, package, ops, v);
      && p1.files == p.files
      && Changed(ok, NamedIn(package, ops, full), p.symbols, p1.symbols, full, v)
      && Changed(ok, KeyIn(ops, key), p.extensions, p1.extensions, key, v)
    decreases |ops|
  {
    if ops != [] {
      var (p1, ok) := PlainStep(p, package, ops[0], v);
      PlainStepChanges(p, package, ops[0], v, full, key);
      NamedHead(package, ops, full);
      KeyHead(ops, key);
      if ok {
        var (p2, ok2) := PlainRun(p1, package, ops[1..], v);
        PlainRunChanges(p1, package, ops[1..], v, full, key);
        ChangedTwice(p.symbols, p1.symbols, p2.symbols, full, v,
          ops[0].Symbol? && full == FullName(package, ops[0].symbol), ok2, NamedIn(package, ops[1..], full));
        ChangedTwice(p.extensions, p1.extensions, p2.extensions, key, v,
          ops[0].Extension? && Qualified(ops[0].extendee) && (ops[0].extendee[1..], ops[0].number) == key,
          ok2, KeyIn(ops[1..], key));
      }
    }
  }

  lemma {:induction false} PlainAddChanges<V>(p: Plain<V>, f: File, v: V, full: string, key: ExtensionKey)
    ensures var (p1, ok) := PlainAdd(p, f, v);
      && Changed(ok, DeclaresName(f, full), p.symbols, p1.symbols, full, v)
      && Changed(ok, DeclaresKey(f, key), p.extensions, p1.extensions, key, v)
      && (f.name in p.files ==> p1 == p && !ok)
      && (f.name !in p.files ==> p1.files == p.files[f.name := v])
  {
    NamesDeclared(f, full);
    KeysDeclared(f, key);
    if f.name !in p.files {
      PlainRunChanges(p.(files := p.files[f.name := v]), f.package, FileOps(f), v, full, key);
    }
  }

  lemma {:induction false} AnswersFollow<V>(ok: bool, f: File, m: Plain<V>, m1: Plain<V>, v: V, query: string, r: Option<V>, r1: Option<V>)
    requires forall full :: Changed(ok, DeclaresName(f, full), m.symbols, m1.symbols, full, v)
    requires PlainAnswers(m, query, r) && PlainAnswers(m1, query, r1)
    ensures Follows(ok, Covers(f, query), r, r1, v)
  {
    if full :| full in m1.symbols && full !in m.symbols && IsSubSymbol(full, query) {
      assert Changed(ok, DeclaresName(f, full), m.symbols, m1.symbols, full, v);
      assert r1 == Some(v) && Covers(f, query);
    } else {
      forall k | k in m.symbols ensures k in m1.symbols && m1.symbols[k] == m.symbols[k] {
        assert Changed(ok, DeclaresName(f, k), m.symbols, m1.symbols, k, v);
      }
      assert PlainAnswers(m, query, r1);
      AnswerIsUnique(m, query, r, r1);
    }
  }

  /** What one add does to one symbol lookup of the plain index. */
  lemma {:induction false} PlainSymbolsFollow<V>(p: Plain<V>, f: File, v: V, query: string, r: Option<V>, r1: Option<V>)
    requires PlainAnswers(p, query, r) && PlainAnswers(PlainAdd(p, f, v).0, query, r1)
    ensures Follows(PlainAdd(p, f, v).1, Covers(f, query), r, r1, v)
  {
    forall full ensures Changed(PlainAdd(p, f, v).1, DeclaresName(f, full), p.symbols, PlainAdd(p, f, v).0.symbols, full, v) {
      PlainAddChanges(p, f, v, full, ("", 0));
    }
    AnswersFollow(PlainAdd(p, f, v).1, f, p, PlainAdd(p, f, v).0, v, query, r, r1);
  }

  // ---------- the simple database ----------

  /** Adding a file to a simple database, after any run without a missed case: the lookups of its name, of every
      symbol and of every extension. */
  lemma {:induction false} SimpleAddFollows<V(!new)>(
    history: seq<(File, V)>, f: File, v: V, name: string, query: string, key: ExtensionKey)
    requires S.NoneMissedInRun(S.Empty<V>(), history) && S.NoneMissedInFile(S.AddAll(S.Empty<V>(), history), f, v)
    ensures var s := S.AddAll(S.Empty<V>(), history); var (s1, ok) := S.Add(s, f, v);
      && Follows(ok, name == f.name, InMap(s.byName, name), InMap(s1.byName, name), v)
      && Follows(ok, Covers(f, query), SymbolTable.FindSymbol(s.bySymbol, query), SymbolTable.FindSymbol(s1.bySymbol, query), v)
      && Follows(ok, DeclaresKey(f, key), S.FindExtension(s, key), S.FindExtension(s1, key), v)
  {
    var s, p := S.AddAll(S.Empty<V>(), history), S.PlainAddAll(EmptyPlain<V>(), history);
    S.AddAllRefines(S.Empty<V>(), EmptyPlain<V>(), history);
    S.AddRefines(s, p, f, v);
    S.LookupsRefine(s, p, query, key);
    S.LookupsRefine(S.Add(s, f, v).0, PlainAdd(p, f, v).0, query, key);
    PlainSymbolsFollow(p, f, v, query, SymbolTable.FindSymbol(s.bySymbol, query),
      SymbolTable.FindSymbol(S.Add(s, f, v).0.bySymbol, query));
    PlainAddChanges(p, f, v, "", key);
  }

  function InMap<V>(m: map<string, V>, name: string): Option<V> {
    if name in m then Some(m[name]) else None
  }

  // ---------- the encoded database ----------

  ghost predicate ExtensionsOk<V>(s: E.State<V>) {
    T.TableOk(ExtensionLess, B.ExtensionsOf(s))
  }

  function FoundKey<V>(s: E.State<V>, key: ExtensionKey): Option<nat> {
    T.Found(ExtensionLess, B.ExtensionsOf(s), key)
  }

  lemma {:induction false} StepFound<V>(s: E.State<V>, op: Op, key: ExtensionKey)
    requires s.values != [] && ExtensionsOk(s)
    ensures var (s1, ok) := E.Step(s, op);
      && s1.values == s.values && ExtensionsOk(s1)
      && Follows(ok, KeyIn([op], key), FoundKey(s, key), FoundKey(s1, key), |s.values| - 1)
  {
    KeyHead([op], key);
    match op
    case Symbol(_) =>
    case Extension(extendee, number) =>
      if Qualified(extendee) {
        ExtensionOrder();
        B.ExtensionPut(s, extendee, number);
        T.FoundInEither(ExtensionLess, B.ExtensionsOf(s), (extendee[1..], number));
        T.PutChanges(ExtensionLess, B.ExtensionsOf(s), (extendee[1..], number), |s.values| - 1, key);
      }
  }

  lemma {:induction false} RunFound<V>(s: E.State<V>, ops: seq<Op>, key: ExtensionKey)
    requires s.values != [] && ExtensionsOk(s)
    ensures var (s1, ok) := E.Run(s, ops);
      && s1.values == s.values && ExtensionsOk(s1)
      && Follows(ok, KeyIn(ops, key), FoundKey(s, key), FoundKey(s1, key), |s.values| - 1)
    decreases |ops|
  {
    if ops != [] {
      var (s1, ok) := E.Step(s, ops[0]);
      StepFound(s, ops[0], key);
      FirstKeyOrLater(ops, key);
      if ok {
        RunFound(s1, ops[1..], key);
        var (s2, ok2) := E.Run(s1, ops[1..]);
        FollowsTwice(ok2, KeyIn([ops[0]], key), KeyIn(ops[1..], key), FoundKey(s, key), FoundKey(s1, key), FoundKey(s2, key), |s.values| - 1);
      }
    }
  }

  lemma {:induction false} FirstKeyOrLater(ops: seq<Op>, key: ExtensionKey)
    requires ops != []
    ensures KeyIn(ops, key) <==> KeyIn([ops[0]], key) || KeyIn(ops[1..], key)
  {
    KeyHead(ops, key);
    KeyHead([ops[0]], key);
  }

  lemma {:induction false} FollowsTwice<V>(ok: bool, first: bool, rest: bool, a: Option<V>, b: Option<V>, c: Option<V>, v: V)
    requires Follows(true, first, a, b, v) && Follows(ok, rest, b, c, v)
    ensures Follows(ok, first || rest, a, c, v)
  {
  }

  lemma {:induction false} ValuesOfAdd<V>(s: E.State<V>, f: File, v: V, declared: bool, found: Option<nat>, found1: Option<nat>)
    requires found.Some? ==> found.value < |s.values|
    requires Follows(E.Add(s, f, v).1, declared, found, found1, |s.values|)
    ensures var (s1, ok) := E.Add(s, f, v); Follows(ok, declared, E.ValueAt(s, found), E.ValueAt(s1, found1), v)
  {
    B.AddTables(s, f, v);
    ValuesFollow(s, E.Add(s, f, v).0, v, E.Add(s, f, v).1, declared, found, found1);
  }

  /** From offsets to values: the file pushed last has `v`. */
  lemma {:induction false} ValuesFollow<V>(s: E.State<V>, s1: E.State<V>, v: V, ok: bool, declared: bool, found: Option<nat>, found1: Option<nat>)
    requires |s1.values| == |s.values| + 1 && s1.values[|s.values|].value == v
    requires forall i | 0 <= i < |s.values| :: s1.values[i] == s.values[i]
    requires found.Some? ==> found.value < |s.values|
    requires Follows(ok, declared, found, found1, |s.values|)
    ensures Follows(ok, declared, E.ValueAt(s, found), E.ValueAt(s1, found1), v)
  {
  }

  lemma {:induction false} AddFindsKey<V>(s: E.State<V>, f: File, v: V, key: ExtensionKey)
    requires ExtensionsOk(s)
    ensures var (s1, ok) := E.Add(s, f, v);
      Follows(ok, DeclaresKey(f, key), FoundKey(s, key), FoundKey(s1, key), |s.values|)
  {
    var o := R.Opened(s, f, v);
    KeysDeclared(f, key);
    OpenedOrKept(s, f, v);
    if o.Some? {
      OpenedFinds(s, o.value, key);
      RunFound(o.value, FileOps(f), key);
    } else {
      OpenedFinds(s, E.Add(s, f, v).0, key);
    }
  }

  lemma {:induction false} OpenedFinds<V>(s: E.State<V>, s1: E.State<V>, key: ExtensionKey)
    requires ExtensionsOk(s) && B.ExtensionsOf(s1) == B.ExtensionsOf(s)
    ensures ExtensionsOk(s1) && FoundKey(s1, key) == FoundKey(s, key)
  {
  }

  /** What a lookup finds, by the offset it finds. */
  lemma {:induction false} FindsAtOffset<V>(s: E.State<V>, name: string, key: ExtensionKey)
    ensures E.FindExtension(E.EnsureFlat(s), key) == E.ValueAt(s, FoundKey(s, key))
    ensures E.FindFile(E.EnsureFlat(s), name) == E.ValueAt(s, FoundName(s, name))
  {
  }

  lemma {:induction false} EncodedExtensionFollows<V>(s: E.State<V>, f: File, v: V, key: ExtensionKey)
    requires B.Tabled(s)
    ensures var (s1, ok) := E.Add(s, f, v);
      Follows(ok, DeclaresKey(f, key), E.FindExtension(E.EnsureFlat(s), key), E.FindExtension(E.EnsureFlat(s1), key), v)
  {
    var (s1, ok) := E.Add(s, f, v);
    ExtensionOrder();
    B.FoundInRange(ExtensionLess, B.ExtensionsOf(s), |s.values|, key);
    AddFindsKey(s, f, v, key);
    ValuesOfAdd(s, f, v, DeclaresKey(f, key), FoundKey(s, key), FoundKey(s1, key));
    FindsAtOffset(s, "", key);
    FindsAtOffset(s1, "", key);
  }

  /** A file that gets as far as its items runs them; one that does not leaves the extensions alone. */
  lemma {:induction false} OpenedOrKept<V>(s: E.State<V>, f: File, v: V)
    ensures var o := R.Opened(s, f, v);
      if o.Some? then
        && E.Add(s, f, v) == E.Run(o.value, FileOps(f))
        && |o.value.values| == |s.values| + 1 && B.ExtensionsOf(o.value) == B.ExtensionsOf(s)
      else !E.Add(s, f, v).1 && B.ExtensionsOf(E.Add(s, f, v).0) == B.ExtensionsOf(s)
  {
  }

  function FoundName<V>(s: E.State<V>, name: string): Option<nat> {
    T.Found(Less, B.NamesOf(s), name)
  }

  lemma {:induction false} AddFindsName<V>(s: E.State<V>, f: File, v: V, name: string)
    requires T.TableOk(Less, B.NamesOf(s))
    ensures var (s1, ok) := E.Add(s, f, v);
      Follows(ok, name == f.name, FoundName(s, name), FoundName(s1, name), |s.values|)
  {
    SymbolTable.NameOrder();
    B.AddTables(s, f, v);
    T.FoundInEither(Less, B.NamesOf(s), f.name);
    T.PutChanges(Less, B.NamesOf(s), f.name, |s.values|, name);
    NamePuts(s, f, v);
  }

  /** A file with a valid package puts its name; it is accepted only if that is new. */
  lemma {:induction false} NamePuts<V>(s: E.State<V>, f: File, v: V)
    ensures T.AfterMoves(Less, B.NamesOf(s), B.NamePut(s, f)) ==
      if ValidateSymbolName(f.package) then T.Moved(Less, B.NamesOf(s), T.Put(f.name, |s.values|)) else B.NamesOf(s)
    ensures E.Add(s, f, v).1 ==>
      ValidateSymbolName(f.package) && !Contains(Less, s.names, f.name) && !Contains(Less, s.namesFlat, f.name)
  {
    assert ValidateSymbolName(f.package) ==> B.NamePut(s, f)[1..] == [];
  }

  lemma {:induction false} EncodedFileFollows<V>(s: E.State<V>, f: File, v: V, name: string)
    requires B.Tabled(s)
    ensures var (s1, ok) := E.Add(s, f, v);
      Follows(ok, name == f.name, E.FindFile(E.EnsureFlat(s), name), E.FindFile(E.EnsureFlat(s1), name), v)
  {
    var (s1, ok) := E.Add(s, f, v);
    SymbolTable.NameOrder();
    B.FoundInRange(Less, B.NamesOf(s), |s.values|, name);
    AddFindsName(s, f, v, name);
    ValuesOfAdd(s, f, v, name == f.name, FoundName(s, name), FoundName(s1, name));
    FindsAtOffset(s, name, ("", 0));
    FindsAtOffset(s1, name, ("", 0));
  }

  /** Adding a file to an encoded database: what the next lookups of its name and of every extension find, after any
      run at all, and of every symbol, after any run without a missed case. */
  lemma {:induction false} EncodedAddFollows<V(!new)>(
    events: seq<H.Event<V>>, f: File, v: V, name: string, query: string, key: ExtensionKey)
    ensures var s := H.After(E.Empty<V>(), events); var (s1, ok) := E.Add(s, f, v);
      var t, t1 := E.EnsureFlat(s), E.EnsureFlat(s1);
      && Follows(ok, name == f.name, E.FindFile(t, name), E.FindFile(t1, name), v)
      && Follows(ok, DeclaresKey(f, key), E.FindExtension(t, key), E.FindExtension(t1, key), v)
      && (H.NamedRun(events) && R.NamedFile(f) && H.NoneMissedInRun(E.Empty<V>(), events) && R.NoneMissedInFile(s, f, v) ==>
           Follows(ok, Covers(f, query), E.FindSymbol(t, query), E.FindSymbol(t1, query), v))
  {
    var s := H.After(E.Empty<V>(), events);
    B.EveryRunTabled(events);
    EncodedFileFollows(s, f, v, name);
    EncodedExtensionFollows(s, f, v, key);
    if H.NamedRun(events) && R.NamedFile(f) && H.NoneMissedInRun(E.Empty<V>(), events) && R.NoneMissedInFile(s, f, v) {
      EncodedSymbolFollows(events, f, v, query);
    }
  }

  lemma {:induction false} EncodedSymbolFollows<V(!new)>(events: seq<H.Event<V>>, f: File, v: V, query: string)
    requires H.NamedRun(events) && R.NamedFile(f) && H.NoneMissedInRun(E.Empty<V>(), events)
    requires R.NoneMissedInFile(H.After(E.Empty<V>(), events), f, v)
    ensures var s := H.After(E.Empty<V>(), events); var (s1, ok) := E.Add(s, f, v);
      Follows(ok, Covers(f, query), E.FindSymbol(E.EnsureFlat(s), query), E.FindSymbol(E.EnsureFlat(s1), query), v)
  {
    var s, p := H.After(E.Empty<V>(), events), H.PlainAfter(EmptyPlain<V>(), events);
    H.RunAgrees(E.Empty<V>(), EmptyPlain<V>(), events);
    var s1, p1 := E.Add(s, f, v).0, R.PlainAddEncoded(p, f, v).0;
    R.AddRefines(s, p, f, v);
    R.FlattenRefines(s, p);
    R.FlattenRefines(s1, p1);
    H.FlatAnswers(E.EnsureFlat(s), p, query);
    H.FlatAnswers(E.EnsureFlat(s1), p1, query);
    var r, r1 := E.FindSymbol(E.EnsureFlat(s), query), E.FindSymbol(E.EnsureFlat(s1), query);
    if ValidateSymbolName(f.package) {
      PlainSymbolsFollow(p, f, v, query, r, r1);
    } else {
      AnswerIsUnique(p, query, r, r1);
    }
  }

  // ---------- which files are accepted ----------

  /** The item could be added now. */
  ghost predicate Fits<V>(p: Plain<V>, package: string, op: Op) {
    match op
    case Symbol(n) => ValidateSymbolName(FullName(package, n)) && forall k | k in p.symbols :: !Conflict(k, FullName(package, n))
    case Extension(extendee, number) => Qualified(extendee) ==> (extendee[1..], number) !in p.extensions
  }

  /** Two items of one file do not get in each other's way. */
  predicate Compatible(package: string, a: Op, b: Op) {
    match (a, b)
    case (Symbol(n), Symbol(m)) => !Conflict(FullName(package, n), FullName(package, m))
    case (Extension(_, _), Extension(_, _)) => !Qualified(a.extendee) || a != b
    case _ => true
  }

  ghost predicate AllFit<V>(p: Plain<V>, package: string, ops: seq<Op>) {
    && (forall i | 0 <= i < |ops| :: Fits(p, package, ops[i]))
    && (forall i, j | 0 <= i < j < |ops| :: Compatible(package, ops[i], ops[j]))
  }

  lemma {:induction false} FitsLater<V>(p: Plain<V>, package: string, op: Op, v: V, next: Op)
    requires Fits(p, package, op)
    ensures PlainStep(p, package, op, v).1
    ensures Fits(PlainStep(p, package, op, v).0, package, next) <==> Fits(p, package, next) && Compatible(package, op, next)
  {
    if op.Extension? && next.Extension? && Qualified(op.extendee) && Qualified(next.extendee) {
      assert op.extendee == "." + op.extendee[1..] && next.extendee == "." + next.extendee[1..];
    }
  }

  lemma {:induction false} RunAccepts<V>(p: Plain<V>, package: string, ops: seq<Op>, v: V)
    ensures PlainRun(p, package, ops, v).1 <==> AllFit(p, package, ops)
    decreases |ops|
  {
    if ops != [] {
      var (p1, ok) := PlainStep(p, package, ops[0], v);
      var rest := ops[1..];
      assert ok <==> Fits(p, package, ops[0]);
      if ok {
        RunAccepts(p1, package, rest, v);
        forall next ensures Fits(p1, package, next) <==> Fits(p, package, next) && Compatible(package, ops[0], next) {
          FitsLater(p, package, ops[0], v, next);
        }
        HeadFits(p, p1, package, ops);
      }
    }
  }

  lemma {:induction false} HeadFits<V>(p: Plain<V>, p1: Plain<V>, package: string, ops: seq<Op>)
    requires ops != [] && Fits(p, package, ops[0])
    requires forall next :: Fits(p1, package, next) <==> Fits(p, package, next) && Compatible(package, ops[0], next)
    ensures AllFit(p1, package, ops[1..]) <==> AllFit(p, package, ops)
  {
    var rest := ops[1..];
    if AllFit(p1, package, rest) {
      forall i | 0 <= i < |ops| ensures Fits(p, package, ops[i]) {
        if i > 0 { assert Fits(p1, package, rest[i - 1]); }
      }
      forall i, j | 0 <= i < j < |ops| ensures Compatible(package, ops[i], ops[j]) {
        if i == 0 { assert Fits(p1, package, rest[j - 1]); } else { assert Compatible(package, rest[i - 1], rest[j - 1]); }
      }
    }
    if AllFit(p, package, ops) {
      forall i | 0 <= i < |rest| ensures Fits(p1, package, rest[i]) {
        assert Fits(p, package, ops[i + 1]) && Compatible(package, ops[0], ops[i + 1]);
      }
      forall i, j | 0 <= i < j < |rest| ensures Compatible(package, rest[i], rest[j]) {
        assert Compatible(package, ops[i + 1], ops[j + 1]);
      }
    }
  }

  /** Over every run without a missed case, a file is accepted if and only if its name is new, all its symbols are
      valid and conflict neither with a symbol known nor with one another, and its qualified extensions are all
      new and different. */
  lemma {:induction false} SimpleAcceptsIff<V(!new)>(history: seq<(File, V)>, f: File, v: V)
    requires S.NoneMissedInRun(S.Empty<V>(), history) && S.NoneMissedInFile(S.AddAll(S.Empty<V>(), history), f, v)
    ensures var p := S.PlainAddAll(EmptyPlain<V>(), history);
      S.Add(S.AddAll(S.Empty<V>(), history), f, v).1 <==> f.name !in p.files && AllFit(p, f.package, FileOps(f))
  {
    PlainAccepts(S.PlainAddAll(EmptyPlain<V>(), history), f, v);
    S.AddAllRefines(S.Empty<V>(), EmptyPlain<V>(), history);
    S.AddRefines(S.AddAll(S.Empty<V>(), history), S.PlainAddAll(EmptyPlain<V>(), history), f, v);
  }

  /** The same in the encoded database, where the package has to be valid by itself. */
  lemma {:induction false} EncodedAcceptsIff<V(!new)>(events: seq<H.Event<V>>, f: File, v: V)
    requires H.NamedRun(events) && R.NamedFile(f) && H.NoneMissedInRun(E.Empty<V>(), events)
    requires R.NoneMissedInFile(H.After(E.Empty<V>(), events), f, v)
    ensures var p := H.PlainAfter(EmptyPlain<V>(), events);
      E.Add(H.After(E.Empty<V>(), events), f, v).1 <==>
        ValidateSymbolName(f.package) && f.name !in p.files && AllFit(p, f.package, FileOps(f))
  {
    PlainAccepts(H.PlainAfter(EmptyPlain<V>(), events), f, v);
    VerdictAsPlain(events, f, v);
  }

  lemma {:induction false} VerdictAsPlain<V(!new)>(events: seq<H.Event<V>>, f: File, v: V)
    requires H.NamedRun(events) && R.NamedFile(f) && H.NoneMissedInRun(E.Empty<V>(), events)
    requires R.NoneMissedInFile(H.After(E.Empty<V>(), events), f, v)
    ensures E.Add(H.After(E.Empty<V>(), events), f, v).1 ==
      R.PlainAddEncoded(H.PlainAfter(EmptyPlain<V>(), events), f, v).1
  {
    AfterAgrees(events);
    SameVerdict(H.After(E.Empty<V>(), events), H.PlainAfter(EmptyPlain<V>(), events), f, v);
  }

  lemma {:induction false} AfterAgrees<V(!new)>(events: seq<H.Event<V>>)
    requires H.NamedRun(events) && H.NoneMissedInRun(E.Empty<V>(), events)
    ensures R.Refines(H.After(E.Empty<V>(), events), H.PlainAfter(EmptyPlain<V>(), events))
  {
    H.RunAgrees(E.Empty<V>(), EmptyPlain<V>(), events);
  }

  lemma {:induction false} SameVerdict<V(!new)>(s: E.State<V>, p: Plain<V>, f: File, v: V)
    requires R.Refines(s, p) && R.NamedFile(f) && R.NoneMissedInFile(s, f, v)
    ensures E.Add(s, f, v).1 == R.PlainAddEncoded(p, f, v).1
  {
    R.AddRefines(s, p, f, v);
  }

  lemma {:induction false} PlainAccepts<V>(p: Plain<V>, f: File, v: V)
    ensures PlainAdd(p, f, v).1 <==> f.name !in p.files && AllFit(p, f.package, FileOps(f))
  {
    var p1 := p.(files := p.files[f.name := v]);
    RunAccepts(p1, f.package, FileOps(f), v);
    assert forall op :: Fits(p1, f.package, op) == Fits(p, f.package, op);
  }

  // ---------- what a rejected file leaves behind ----------

  /** A rejected file whose name was new leaves its name and exactly the items before the first one rejected; one
      whose name was known leaves nothing. */
  lemma {:induction false} SimpleLeaves<V>(s: S.State<V>, f: File, v: V) returns (k: nat)
    requires !S.Add(s, f, v).1
    ensures f.name in s.byName ==> S.Add(s, f, v).0 == s
    ensures f.name !in s.byName ==>
      var s0, s1, ops := s.(byName := s.byName[f.name := v]), S.Add(s, f, v).0, FileOps(f);
      k < |ops| && S.Run(s0, f.package, ops[..k], v) == (s1, true) && S.Step(s1, f.package, ops[k], v) == (s1, false)
  {
    k := 0;
    if f.name !in s.byName {
      k := SimpleStopsAt(s.(byName := s.byName[f.name := v]), f.package, FileOps(f), v);
    }
  }

  lemma {:induction false} SimpleStopsAt<V>(s: S.State<V>, package: string, ops: seq<Op>, v: V) returns (k: nat)
    requires !S.Run(s, package, ops, v).1
    ensures var s1 := S.Run(s, package, ops, v).0;
      k < |ops| && S.Run(s, package, ops[..k], v) == (s1, true) && S.Step(s1, package, ops[k], v) == (s1, false)
    decreases |ops|
  {
    var (s1, ok) := S.Step(s, package, ops[0], v);
    k := 0;
    if ok {
      k := SimpleStopsAt(s1, package, ops[1..], v);
      k := k + 1;
      assert ops[..k][0] == ops[0] && ops[..k][1..] == ops[1..][..k - 1];
    } else {
      SimpleStepKeeps(s, package, ops[0], v);
    }
  }

  lemma {:induction false} SimpleStepKeeps<V>(s: S.State<V>, package: string, op: Op, v: V)
    requires !S.Step(s, package, op, v).1
    ensures S.Step(s, package, op, v).0 == s
  {
  }

  /** The encoded database does the same with a file it opens, and the rejected item itself may leave a duplicate
      extension in the tree; one it does not open leaves symbols and extensions alone. */
  lemma {:induction false} EncodedLeaves<V>(s: E.State<V>, f: File, v: V) returns (k: nat)
    requires !E.Add(s, f, v).1
    ensures R.Opened(s, f, v).None? ==> var s1 := E.Add(s, f, v).0;
      s1.symbols == s.symbols && s1.symbolsFlat == s.symbolsFlat
      && s1.extensions == s.extensions && s1.extensionsFlat == s.extensionsFlat
    ensures R.Opened(s, f, v).Some? ==>
      var s0, ops := R.Opened(s, f, v).value, FileOps(f);
      && s0.values != [] && k < |ops| && E.Run(s0, ops[..k]).1 && E.Run(s0, ops[..k]).0.values != []
      && E.Step(E.Run(s0, ops[..k]).0, ops[k]) == (E.Add(s, f, v).0, false)
  {
    k := 0;
    OpenedOrKept(s, f, v);
    if R.Opened(s, f, v).Some? { k := EncodedStopsAt(R.Opened(s, f, v).value, FileOps(f)); }
  }

  lemma {:induction false} EncodedStopsAt<V>(s: E.State<V>, ops: seq<Op>) returns (k: nat)
    requires s.values != [] && !E.Run(s, ops).1
    ensures k < |ops| && E.Run(s, ops[..k]).1 && E.Run(s, ops[..k]).0.values != []
    ensures E.Step(E.Run(s, ops[..k]).0, ops[k]) == (E.Run(s, ops).0, false)
    decreases |ops|
  {
    var (s1, ok) := E.Step(s, ops[0]);
    k := 0;
    if ok {
      assert s1.values == s.values;
      k := EncodedStopsAt(s1, ops[1..]);
      k := k + 1;
      assert ops[..k][0] == ops[0] && ops[..k][1..] == ops[1..][..k - 1];
    }
  }
}
