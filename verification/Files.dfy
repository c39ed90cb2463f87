/** File descriptors as far as an index reads them, and the plain index: three maps searched by
    looking at every key. */
module Files {
  import opened Options
  import opened Names
  import opened Ordered

  datatype Field = Field(name: string, extendee: string, number: int)

  datatype Message = Message(name: string, nested: seq<Message>, extensions: seq<Field>)

  datatype File = File(
    name: string, package: string, messages: seq<Message>, enums: seq<string>,
    extensions: seq<Field>, services: seq<string>)

  /** One thing a file contributes to an index. */
  datatype Op = Symbol(symbol: string) | Extension(extendee: string, number: int)

  function ExtensionOps(fields: seq<Field>): seq<Op> {
    if fields == [] then [] else [Extension(fields[0].extendee, fields[0].number)] + ExtensionOps(fields[1..])
  }

  /** The extensions declared inside a message: those of nested messages first. */
  function NestedOps(m: Message): seq<Op>
    decreases m, 0
  {
    NestedListOps(m.nested) + ExtensionOps(m.extensions)
  }

  function NestedListOps(ms: seq<Message>): seq<Op>
    decreases ms, 1
  {
    if ms == [] then [] else NestedOps(ms[0]) + NestedListOps(ms[1..])
  }

  function MessageOps(ms: seq<Message>): seq<Op> {
    if ms == [] then [] else [Symbol(ms[0].name)] + NestedOps(ms[0]) + MessageOps(ms[1..])
  }

  function NameOps(names: seq<string>): seq<Op> {
    if names == [] then [] else [Symbol(names[0])] + NameOps(names[1..])
  }

  function TopExtensionOps(fields: seq<Field>): seq<Op> {
    if fields == [] then []
    else [Symbol(fields[0].name), Extension(fields[0].extendee, fields[0].number)] + TopExtensionOps(fields[1..])
  }

  /** Everything a file contributes, in the order in which it is added. */
  function FileOps(f: File): seq<Op> {
    MessageOps(f.messages) + NameOps(f.enums) + TopExtensionOps(f.extensions) + NameOps(f.services)
  }

  lemma {:induction false} MessagesHead(ms: seq<Message>, i: nat)
    requires i < |ms|
    ensures MessageOps(ms[i..]) == [Symbol(ms[i].name)] + (NestedOps(ms[i]) + MessageOps(ms[i + 1..]))
  {
  }

  lemma {:induction false} TopExtensionsHead(fields: seq<Field>, i: nat)
    requires i < |fields|
    ensures TopExtensionOps(fields[i..]) == [Symbol(fields[i].name)]
      + ([Extension(fields[i].extendee, fields[i].number)] + TopExtensionOps(fields[i + 1..]))
  {
  }

  function FullName(package: string, symbol: string): string {
    if package == "" then symbol else package + "." + symbol
  }

  lemma {:induction false} FullNameValid(package: string, symbol: string)
    ensures ValidateSymbolName(FullName(package, symbol)) <==>
      ValidateSymbolName(package) && ValidateSymbolName(symbol)
  {
    var n := FullName(package, symbol);
    if package != "" {
      assert forall i | 0 <= i < |package| :: n[i] == package[i];
      assert forall i | 0 <= i < |symbol| :: n[|package| + 1 + i] == symbol[i];
      assert n[|package|] == '.';
    }
  }

  /** Only a fully qualified extendee (leading dot) can be indexed. */
  predicate Qualified(extendee: string) {
    extendee != "" && extendee[0] == '.'
  }

  type ExtensionKey = (string, int)

  predicate ExtensionLess(a: ExtensionKey, b: ExtensionKey) {
    Less(a.0, b.0) || (a.0 == b.0 && a.1 < b.1)
  }

  lemma {:induction false} ExtensionOrder()
    ensures StrictOrder(ExtensionLess)
  {
    forall a ensures !ExtensionLess(a, a) { LessIrreflexive(a.0); }
    forall a, b ensures ExtensionLess(a, b) || a == b || ExtensionLess(b, a) { LessTotal(a.0, b.0); }
    forall a, b, c | ExtensionLess(a, b) && ExtensionLess(b, c) ensures ExtensionLess(a, c) {
      if Less(a.0, b.0) && Less(b.0, c.0) { LessTransitive(a.0, b.0, c.0); }
    }
  }

  // ---------- the plain index ----------

  datatype Plain<V> = Plain(files: map<string, V>, symbols: map<string, V>, extensions: map<ExtensionKey, V>)

  function EmptyPlain<V>(): Plain<V> { Plain(map[], map[], map[]) }

  function PlainStep<V>(p: Plain<V>, package: string, op: Op, v: V): (Plain<V>, bool) {
    match op
    case Symbol(s) =>
      var name := FullName(package, s);
      if ValidateSymbolName(name) && forall k | k in p.symbols :: !Conflict(k, name)
      then (p.(symbols := p.symbols[name := v]), true)
      else (p, false)
    case Extension(extendee, number) =>
      if !Qualified(extendee) then (p, true)
      else if (extendee[1..], number) in p.extensions then (p, false)
      else (p.(extensions := p.extensions[(extendee[1..], number) := v]), true)
  }

  /** Adds until the first rejected item; what was added before it stays. */
  function PlainRun<V>(p: Plain<V>, package: string, ops: seq<Op>, v: V): (Plain<V>, bool)
    decreases |ops|
  {
    if ops == [] then (p, true)
    else
      var (p1, ok) := PlainStep(p, package, ops[0], v);
      if ok then PlainRun(p1, package, ops[1..], v) else (p1, false)
  }

  function PlainAdd<V>(p: Plain<V>, f: File, v: V): (Plain<V>, bool) {
    if f.name in p.files then (p, false)
    else PlainRun(p.(files := p.files[f.name := v]), f.package, FileOps(f), v)
  }

  function PlainFindFile<V>(p: Plain<V>, name: string): Option<V> {
    if name in p.files then Some(p.files[name]) else None
  }

  function PlainFindExtension<V>(p: Plain<V>, key: ExtensionKey): Option<V> {
    if key in p.extensions then Some(p.extensions[key]) else None
  }

  /** The answer for a symbol: the stored name equal to it or above it at a dot, which must be the only
      one; nothing when there is none. */
  ghost predicate PlainAnswers<V>(p: Plain<V>, name: string, r: Option<V>) {
    match r
    case None => forall k | k in p.symbols :: !IsSubSymbol(k, name)
    case Some(v) =>
      exists k | k in p.symbols :: IsSubSymbol(k, name) && p.symbols[k] == v
        && forall j | j in p.symbols && IsSubSymbol(j, name) :: j == k
  }

  lemma {:induction false} AnswerIsUnique<V>(p: Plain<V>, name: string, r: Option<V>, r': Option<V>)
    requires PlainAnswers(p, name, r) && PlainAnswers(p, name, r')
    ensures r == r'
  {
  }

  // ---------- entries standing for a map ----------

  ghost predicate Represents<K(!new), V(!new)>(s: seq<Entry<K, V>>, m: map<K, V>) {
    forall e :: e in s <==> e.key in m && m[e.key] == e.value
  }

  lemma {:induction false} HasKeyInMap<K(!new), V(!new)>(s: seq<Entry<K, V>>, m: map<K, V>, k: K)
    requires Represents(s, m)
    ensures HasKey(s, k) <==> k in m
  {
    if k in m { assert Entry(k, m[k]) in s; }
    if HasKey(s, k) {
      var i :| 0 <= i < |s| && s[i].key == k;
      assert s[i] in s;
    }
  }

  lemma {:induction false} RepresentsInsert<K(!new), V(!new)>(s: seq<Entry<K, V>>, m: map<K, V>, s': seq<Entry<K, V>>, e: Entry<K, V>)
    requires Represents(s, m) && !HasKey(s, e.key)
    requires multiset(s') == multiset(s) + multiset{e}
    ensures Represents(s', m[e.key := e.value])
  {
    HasKeyInMap(s, m, e.key);
    forall x ensures x in s' <==> x in s || x == e {
      assert x in s' <==> x in multiset(s');
      assert x in s <==> x in multiset(s);
    }
  }

  /** In a sorted sequence that stands for a map, lookup is map lookup. */
  lemma {:induction false} LookupIsMap<K(!new), V(!new)>(less: (K, K) -> bool, s: seq<Entry<K, V>>, m: map<K, V>, k: K)
    requires StrictOrder(less) && Sorted(less, s) && Represents(s, m)
    ensures Lookup(less, s, k) == if k in m then Some(m[k]) else None
  {
    LookupFinds(less, s, k);
    HasKeyInMap(s, m, k);
    var i := LowerBound(less, s, k);
    if k in m {
      assert s[i] in s;
    }
  }
}
