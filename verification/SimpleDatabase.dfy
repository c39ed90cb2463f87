/** The mutable index class of SimpleDescriptorDatabase, proved against SimpleIndex. */
module SimpleDatabase {
  import opened Options
  import opened Names
  import opened Ordered
  import SymbolTable
  import opened Files
  import opened SimpleIndex

  /** A run that begins with one op is that op's step, then the rest. */
  lemma {:induction false} RunHead<V>(s: State<V>, package: string, op: Op, rest: seq<Op>, v: V)
    ensures var (s1, ok) := Step(s, package, op, v);
      Run(s, package, [op] + rest, v) == if ok then Run(s1, package, rest, v) else (s1, false)
  {
  }

  function Then<V>(r: (State<V>, bool), package: string, ops: seq<Op>, v: V): (State<V>, bool) {
    if r.1 then Run(r.0, package, ops, v) else r
  }

  /** Running a file's ops is running its four sections, one after the other. */
  lemma {:induction false} FileRun<V>(s: State<V>, f: File, v: V)
    ensures Run(s, f.package, FileOps(f), v) ==
      Then(Then(Then(Run(s, f.package, MessageOps(f.messages), v), f.package, NameOps(f.enums), v),
        f.package, TopExtensionOps(f.extensions), v), f.package, NameOps(f.services), v)
  {
    var a, b, c, d := MessageOps(f.messages), NameOps(f.enums), TopExtensionOps(f.extensions), NameOps(f.services);
    RunAppend(s, f.package, a + b + c, d, v);
    RunAppend(s, f.package, a + b, c, v);
    RunAppend(s, f.package, a, b, v);
  }

  /** A tree holds a key once, so the entry found is the entry stored. */
  lemma {:induction false} StoredIsFound<V>(s: seq<Entry<ExtensionKey, V>>, key: ExtensionKey)
    requires StrictlySorted(ExtensionLess, s)
    ensures Lookup(ExtensionLess, s, key).Some? <==> HasKey(s, key)
    ensures forall e | e in s && e.key == key :: Lookup(ExtensionLess, s, key) == Some(e.value)
  {
    ExtensionOrder();
    StrictlySortedIsSorted(ExtensionLess, s);
    LookupFinds(ExtensionLess, s, key);
    forall i | 0 <= i < |s| && s[i].key == key ensures Lookup(ExtensionLess, s, key) == Some(s[i].value) {
      forall j | 0 <= j < i ensures s[j].key != key { assert ExtensionLess(s[j].key, s[i].key); }
    }
  }

  class DescriptorIndex<V> {
    var byName: map<string, V>
    var bySymbol: SymbolTable.Table<V>
    var byExtension: seq<Entry<ExtensionKey, V>>

    function Contents(): State<V>
      reads this
    {
      State(byName, bySymbol, byExtension)
    }

    constructor ()
      ensures Contents() == Empty()
    {
      byName, bySymbol, byExtension := map[], [], [];
    }

    method AddFile(file: File, value: V) returns (ok: bool)
      modifies this
      ensures (Contents(), ok) == Add(old(Contents()), file, value)
    {
      if file.name in byName {
        return false;
      }
      byName := byName[file.name := value];
      var path := if file.package == "" then "" else file.package + ".";
      FileRun(Contents(), file, value);
      ok := AddMessages(path, file.messages, value, file.package);
      if !ok { return; }
      ok := AddNames(path, file.enums, value, file.package);
      if !ok { return; }
      ok := AddTopExtensions(path, file.extensions, value, file.package);
      if !ok { return; }
      ok := AddNames(path, file.services, value, file.package);
    }

    method AddMessages(path: string, messages: seq<Message>, value: V, ghost package: string) returns (ok: bool)
      requires path == if package == "" then "" else package + "."
      modifies this`bySymbol, this`byExtension
      ensures (Contents(), ok) == Run(old(Contents()), package, MessageOps(messages), value)
    {
      for i := 0 to |messages|
        invariant byName == old(byName)
        invariant Run(old(Contents()), package, MessageOps(messages), value) ==
          Run(Contents(), package, MessageOps(messages[i..]), value)
      {
        var m := messages[i];
        MessagesHead(messages, i);
        ghost var rest := MessageOps(messages[i + 1..]);
        RunHead(Contents(), package, Symbol(m.name), NestedOps(m) + rest, value);
        ok := AddSymbol(path + m.name, value, package, m.name);
        if !ok { return; }
        RunAppend(Contents(), package, NestedOps(m), rest, value);
        ok := AddNestedExtensions(m, value, package);
        if !ok { return; }
      }
      return true;
    }

    /** The enum loop and the service loop. */
    method AddNames(path: string, names: seq<string>, value: V, ghost package: string) returns (ok: bool)
      requires path == if package == "" then "" else package + "."
      modifies this`bySymbol
      ensures (Contents(), ok) == Run(old(Contents()), package, NameOps(names), value)
    {
      for i := 0 to |names|
        invariant byName == old(byName) && byExtension == old(byExtension)
        invariant Run(old(Contents()), package, NameOps(names), value) ==
          Run(Contents(), package, NameOps(names[i..]), value)
      {
        RunHead(Contents(), package, Symbol(names[i]), NameOps(names[i + 1..]), value);
        ok := AddSymbol(path + names[i], value, package, names[i]);
        if !ok { return; }
      }
      return true;
    }

    method AddTopExtensions(path: string, fields: seq<Field>, value: V, ghost package: string) returns (ok: bool)
      requires path == if package == "" then "" else package + "."
      modifies this`bySymbol, this`byExtension
      ensures (Contents(), ok) == Run(old(Contents()), package, TopExtensionOps(fields), value)
    {
      for i := 0 to |fields|
        invariant byName == old(byName)
        invariant Run(old(Contents()), package, TopExtensionOps(fields), value) ==
          Run(Contents(), package, TopExtensionOps(fields[i..]), value)
      {
        var x := fields[i];
        TopExtensionsHead(fields, i);
        ghost var rest := TopExtensionOps(fields[i + 1..]);
        ghost var op := Extension(x.extendee, x.number);
        RunHead(Contents(), package, Symbol(x.name), [op] + rest, value);
        ok := AddSymbol(path + x.name, value, package, x.name);
        if !ok { return; }
        RunHead(Contents(), package, op, rest, value);
        ok := AddExtension(x, value, package);
        if !ok { return; }
      }
      return true;
    }

    method AddSymbol(name: string, value: V, ghost package: string, ghost symbol: string) returns (ok: bool)
      requires name == FullName(package, symbol)
      modifies this`bySymbol
      ensures (Contents(), ok) == Step(old(Contents()), package, Symbol(symbol), value)
    {
      if !ValidateSymbolName(name) {
        return false;
      }
      var iter := FindLastLessOrEqual(Less, bySymbol, name);
      if iter == |bySymbol| {
        // The map is empty.
        bySymbol := Insert(Less, bySymbol, Entry(name, value));
        return true;
      }
      if IsSubSymbol(bySymbol[iter].key, name) {
        return false;
      }
      iter := iter + 1;
      if iter != |bySymbol| && IsSubSymbol(name, bySymbol[iter].key) {
        return false;
      }
      bySymbol := Insert(Less, bySymbol, Entry(name, value));
      return true;
    }

    method AddNestedExtensions(message: Message, value: V, ghost package: string) returns (ok: bool)
      modifies this`byExtension
      ensures (Contents(), ok) == Run(old(Contents()), package, NestedOps(message), value)
      decreases message
    {
      RunAppend(Contents(), package, NestedListOps(message.nested), ExtensionOps(message.extensions), value);
      for i := 0 to |message.nested|
        invariant byName == old(byName) && bySymbol == old(bySymbol)
        invariant Run(old(Contents()), package, NestedListOps(message.nested), value) ==
          Run(Contents(), package, NestedListOps(message.nested[i..]), value)
      {
        var m := message.nested[i];
        RunAppend(Contents(), package, NestedOps(m), NestedListOps(message.nested[i + 1..]), value);
        ok := AddNestedExtensions(m, value, package);
        if !ok { return; }
      }
      ok := AddExtensions(message.extensions, value, package);
    }

    method AddExtensions(fields: seq<Field>, value: V, ghost package: string) returns (ok: bool)
      modifies this`byExtension
      ensures (Contents(), ok) == Run(old(Contents()), package, ExtensionOps(fields), value)
    {
      for i := 0 to |fields|
        invariant byName == old(byName) && bySymbol == old(bySymbol)
        invariant Run(old(Contents()), package, ExtensionOps(fields), value) ==
          Run(Contents(), package, ExtensionOps(fields[i..]), value)
      {
        var x := fields[i];
        RunHead(Contents(), package, Extension(x.extendee, x.number), ExtensionOps(fields[i + 1..]), value);
        ok := AddExtension(x, value, package);
        if !ok { return; }
      }
      return true;
    }

    method AddExtension(field: Field, value: V, ghost package: string) returns (ok: bool)
      modifies this`byExtension
      ensures (Contents(), ok) == Step(old(Contents()), package, Extension(field.extendee, field.number), value)
    {
      if field.extendee != "" && field.extendee[0] == '.' {
        var key := (field.extendee[1..], field.number);
        if Contains(ExtensionLess, byExtension, key) {
          return false;
        }
        byExtension := Insert(ExtensionLess, byExtension, Entry(key, value));
      }
      return true;
    }

    method FindFile(filename: string) returns (r: Option<V>)
      ensures r == if filename in byName then Some(byName[filename]) else None
    {
      if filename in byName {
        return Some(byName[filename]);
      }
      return None;
    }

    /** Answers like the plain set whenever the names stored are valid and none lies above another. */
    method FindSymbol(name: string) returns (r: Option<V>)
      ensures r == SymbolTable.FindSymbol(bySymbol, name)
      ensures InOrder(Contents()) && SymbolTable.PrefixFree(bySymbol) ==> SymbolTable.Answers(bySymbol, name, r)
    {
      var iter := FindLastLessOrEqual(Less, bySymbol, name);
      r := if iter != |bySymbol| && IsSubSymbol(bySymbol[iter].key, name) then Some(bySymbol[iter].value) else None;
      if InOrder(Contents()) && SymbolTable.PrefixFree(bySymbol) {
        SymbolTable.LookupAnswers(bySymbol, name);
      }
    }

    /** Finds the value stored for the type and the number, exactly when there is one. */
    method FindExtension(containingType: string, fieldNumber: int) returns (r: Option<V>)
      ensures r == SimpleIndex.FindExtension(Contents(), (containingType, fieldNumber))
      ensures InOrder(Contents()) ==> (r.Some? <==> HasKey(byExtension, (containingType, fieldNumber)))
      ensures InOrder(Contents()) ==>
        forall e | e in byExtension && e.key == (containingType, fieldNumber) :: r == Some(e.value)
    {
      r := Lookup(ExtensionLess, byExtension, (containingType, fieldNumber));
      if InOrder(Contents()) {
        StoredIsFound(byExtension, (containingType, fieldNumber));
      }
    }

    /** Appends to `output` the numbers of the type's extensions, ascending; true when there are any. */
    method FindAllExtensionNumbers(containingType: string, output: seq<int>) returns (out: seq<int>, success: bool)
      requires InOrder(Contents())
      ensures output <= out
      ensures SimpleIndex.Ascending(out[|output|..])
      ensures forall n :: n in out[|output|..] <==>
        n >= 0 && SimpleIndex.FindExtension(Contents(), (containingType, n)).Some?
      ensures success <==> |out| > |output|
    {
      var added := CollectNumbers(containingType);
      out, success := output + added, added != [];
      assert out[|output|..] == added;
      NumbersExact(byExtension, containingType);
    }

    method CollectNumbers(containingType: string) returns (added: seq<int>)
      ensures added == Numbers(byExtension, containingType)
    {
      var it := LowerBound(ExtensionLess, byExtension, (containingType, 0));
      added := [];
      while it != |byExtension| && byExtension[it].key.0 == containingType
        invariant it <= |byExtension|
        invariant added + SimpleIndex.NumbersFrom(byExtension, it, containingType) == Numbers(byExtension, containingType)
      {
        added := added + [byExtension[it].key.1];
        it := it + 1;
      }
    }
  }
}
