/** The mutable index class of EncodedDescriptorDatabase, proved against EncodedIndex. */
module EncodedDatabase {
  import opened Options
  import opened Names
  import opened Ordered
  import SymbolTable
  import opened Files
  import opened SymbolKeys
  import opened EncodedIndex
  import SimpleIndex

  lemma {:induction false} RunAppend<V>(s: State<V>, a: seq<Op>, b: seq<Op>)
    requires s.values != []
    ensures Run(s, a).0.values == s.values
    ensures var (s1, ok) := Run(s, a); Run(s, a + b) == if ok then Run(s1, b) else (s1, false)
    decreases |a|
  {
    if a == [] {
      assert a + b == b;
    } else {
      assert (a + b)[1..] == a[1..] + b;
      RunAppend(Step(s, a[0]).0, a[1..], b);
    }
  }

  lemma {:induction false} RunHead<V>(s: State<V>, op: Op, rest: seq<Op>)
    requires s.values != []
    ensures var (s1, ok) := Step(s, op); Run(s, [op] + rest) == if ok then Run(s1, rest) else (s1, false)
  {
  }

  /** Empties a tree into its flat vector, in place of both. */
  method MergeIntoFlat<K, V>(less: (K, K) -> bool, s: seq<Entry<K, V>>, flat: seq<Entry<K, V>>)
    returns (s': seq<Entry<K, V>>, flat': seq<Entry<K, V>>)
    ensures s' == [] && flat' == Merge(less, s, flat)
    ensures multiset(flat') == multiset(s) + multiset(flat)
  {
    MergeConserves(less, s, flat);
    if s == [] {
      return s, flat;
    }
    return [], Merge(less, s, flat);
  }

  /** The entry at a position is no ancestor of the name, and the one behind it no descendant. */
  predicate NoneBeside(name: string, t: Entries, i: nat) {
    i < |t| ==>
      !IsSubSymbol(AsString(t[i].key), name) && (i + 1 < |t| ==> !IsSubSymbol(name, AsString(t[i + 1].key)))
  }

  lemma {:induction false} NoneBesideNeighbour(key: SymbolKey, t: Entries, i: nat)
    requires i == FindLastLessOrEqual(SymbolCompare, t, key)
    ensures i <= |t| && (NoneBeside(AsString(key), t, i) <==> NoMutualSubsymbols(t, key))
  {
  }

  function InsertSymbol(t: Entries, key: SymbolKey, offset: nat): Entries {
    Insert(SymbolCompare, t, Entry(key, offset))
  }

  predicate Admitted<V>(s: State<V>, symbol: string, key: SymbolKey) {
    ValidateSymbolName(symbol) && NoMutualSubsymbols(s.symbols, key) && NoMutualSubsymbols(s.symbolsFlat, key)
  }

  lemma {:induction false} SymbolStep<V>(s: State<V>, symbol: string, key: SymbolKey)
    requires s.values != [] && key == Joined(s.values[|s.values| - 1].package, symbol)
    ensures Step(s, Symbol(symbol)) ==
      if Admitted(s, symbol, key) then (s.(symbols := InsertSymbol(s.symbols, key, |s.values| - 1)), true) else (s, false)
  {
  }

  class DescriptorIndex<V> {
    var allValues: seq<EncodedEntry<V>>
    var byName: seq<Entry<string, nat>>
    var byNameFlat: seq<Entry<string, nat>>
    var bySymbol: Entries
    var bySymbolFlat: Entries
    var byExtension: seq<Entry<ExtensionKey, nat>>
    var byExtensionFlat: seq<Entry<ExtensionKey, nat>>

    function Contents(): State<V>
      reads this
    {
      State(allValues, byName, byNameFlat, bySymbol, bySymbolFlat, byExtension, byExtensionFlat)
    }

    constructor ()
      ensures Contents() == Empty()
    {
      allValues, byName, byNameFlat := [], [], [];
      bySymbol, bySymbolFlat, byExtension, byExtensionFlat := [], [], [], [];
    }

    method AddFile(file: File, value: V) returns (ok: bool)
      modifies this
      ensures (Contents(), ok) == Add(old(Contents()), file, value)
    {
      // The value goes in first, because the Add methods expect it there.
      allValues := allValues + [EncodedEntry(value, "")];
      if !ValidateSymbolName(file.package) {
        return false;
      }
      allValues := allValues[|allValues| - 1 := EncodedEntry(value, file.package)];
      assert allValues == old(allValues) + [EncodedEntry(value, file.package)];
      if Contains(Less, byName, file.name) {
        return false;
      }
      byName := Insert(Less, byName, Entry(file.name, |allValues| - 1));
      if Contains(Less, byNameFlat, file.name) {
        return false;
      }
      ghost var a, b := MessageOps(file.messages), NameOps(file.enums);
      ghost var c, d := TopExtensionOps(file.extensions), NameOps(file.services);
      RunAppend(Contents(), a + b + c, d);
      RunAppend(Contents(), a + b, c);
      RunAppend(Contents(), a, b);
      ok := AddMessages(file.messages);
      if !ok { return; }
      ok := AddNames(file.enums);
      if !ok { return; }
      ok := AddTopExtensions(file.extensions);
      if !ok { return; }
      ok := AddNames(file.services);
    }

    method AddMessages(messages: seq<Message>) returns (ok: bool)
      requires allValues != []
      modifies this`bySymbol, this`byExtension
      ensures (Contents(), ok) == Run(old(Contents()), MessageOps(messages))
    {
      for i := 0 to |messages|
        invariant Run(old(Contents()), MessageOps(messages)) == Run(Contents(), MessageOps(messages[i..]))
      {
        MessagesHead(messages, i);
        ghost var rest := MessageOps(messages[i + 1..]);
        RunHead(Contents(), Symbol(messages[i].name), NestedOps(messages[i]) + rest);
        ok := AddSymbol(messages[i].name);
        if !ok { return; }
        RunAppend(Contents(), NestedOps(messages[i]), rest);
        ok := AddNestedExtensions(messages[i]);
        if !ok { return; }
      }
      return true;
    }

    /** The enum loop and the service loop. */
    method AddNames(names: seq<string>) returns (ok: bool)
      requires allValues != []
      modifies this`bySymbol
      ensures (Contents(), ok) == Run(old(Contents()), NameOps(names))
    {
      for i := 0 to |names|
        invariant Run(old(Contents()), NameOps(names)) == Run(Contents(), NameOps(names[i..]))
      {
        RunHead(Contents(), Symbol(names[i]), NameOps(names[i + 1..]));
        ok := AddSymbol(names[i]);
        if !ok { return; }
      }
      return true;
    }

    method AddTopExtensions(fields: seq<Field>) returns (ok: bool)
      requires allValues != []
      modifies this`bySymbol, this`byExtension
      ensures (Contents(), ok) == Run(old(Contents()), TopExtensionOps(fields))
    {
      for i := 0 to |fields|
        invariant Run(old(Contents()), TopExtensionOps(fields)) == Run(Contents(), TopExtensionOps(fields[i..]))
      {
        TopExtensionsHead(fields, i);
        ghost var rest := TopExtensionOps(fields[i + 1..]);
        ghost var op := Extension(fields[i].extendee, fields[i].number);
        RunHead(Contents(), Symbol(fields[i].name), [op] + rest);
        ok := AddSymbol(fields[i].name);
        if !ok { return; }
        RunHead(Contents(), op, rest);
        ok := AddExtension(fields[i]);
        if !ok { return; }
      }
      return true;
    }

    /** The check against one container; the position comes back for the insertion. */
    method CheckForMutualSubsymbols(symbolName: string, t: Entries, iter: nat) returns (ok: bool, iter': nat)
      requires iter <= |t|
      ensures ok <==> NoneBeside(symbolName, t, iter)
      ensures ok ==> iter' == if iter == |t| then iter else iter + 1
    {
      iter' := iter;
      if iter' != |t| {
        if IsSubSymbol(AsString(t[iter'].key), symbolName) {
          return false, iter';
        }
        iter' := iter' + 1;
        if iter' != |t| && IsSubSymbol(symbolName, AsString(t[iter'].key)) {
          return false, iter';
        }
      }
      return true, iter';
    }

    method AddSymbol(symbol: string) returns (ok: bool)
      requires allValues != []
      modifies this`bySymbol
      ensures (Contents(), ok) == Step(old(Contents()), Symbol(symbol))
    {
      var key := Joined(allValues[|allValues| - 1].package, symbol);
      SymbolStep(Contents(), symbol, key);
      if !ValidateSymbolName(symbol) {
        return false;
      }
      ok := Admits(key, bySymbol);
      if !ok {
        return;
      }
      ok := Admits(key, bySymbolFlat);
      if !ok {
        return;
      }
      // The position is only a hint for the set.
      bySymbol := InsertSymbol(bySymbol, key, |allValues| - 1);
      return true;
    }

    /** The search in one container, and the check from the position it gives. */
    method Admits(key: SymbolKey, t: Entries) returns (ok: bool)
      ensures ok <==> NoMutualSubsymbols(t, key)
    {
      var iter := FindLastLessOrEqual(SymbolCompare, t, key);
      NoneBesideNeighbour(key, t, iter);
      ok, iter := CheckForMutualSubsymbols(AsString(key), t, iter);
    }

    method AddNestedExtensions(message: Message) returns (ok: bool)
      requires allValues != []
      modifies this`byExtension
      ensures (Contents(), ok) == Run(old(Contents()), NestedOps(message))
      decreases message
    {
      RunAppend(Contents(), NestedListOps(message.nested), ExtensionOps(message.extensions));
      for i := 0 to |message.nested|
        invariant Run(old(Contents()), NestedListOps(message.nested)) ==
          Run(Contents(), NestedListOps(message.nested[i..]))
      {
        RunAppend(Contents(), NestedOps(message.nested[i]), NestedListOps(message.nested[i + 1..]));
        ok := AddNestedExtensions(message.nested[i]);
        if !ok { return; }
      }
      ok := AddExtensions(message.extensions);
    }

    method AddExtensions(fields: seq<Field>) returns (ok: bool)
      requires allValues != []
      modifies this`byExtension
      ensures (Contents(), ok) == Run(old(Contents()), ExtensionOps(fields))
    {
      for i := 0 to |fields|
        invariant Run(old(Contents()), ExtensionOps(fields)) == Run(Contents(), ExtensionOps(fields[i..]))
      {
        RunHead(Contents(), Extension(fields[i].extendee, fields[i].number), ExtensionOps(fields[i + 1..]));
        ok := AddExtension(fields[i]);
        if !ok { return; }
      }
      return true;
    }

    method AddExtension(field: Field) returns (ok: bool)
      requires allValues != []
      modifies this`byExtension
      ensures (Contents(), ok) == Step(old(Contents()), Extension(field.extendee, field.number))
    {
      if field.extendee != "" && field.extendee[0] == '.' {
        var key := (field.extendee[1..], field.number);
        if Contains(ExtensionLess, byExtension, key) {
          return false;
        }
        byExtension := Insert(ExtensionLess, byExtension, Entry(key, |allValues| - 1));
        if Contains(ExtensionLess, byExtensionFlat, key) {
          return false;
        }
      }
      return true;
    }

    method EnsureFlat()
      modifies this
      ensures Contents() == EncodedIndex.EnsureFlat(old(Contents()))
    {
      byName, byNameFlat := MergeIntoFlat(Less, byName, byNameFlat);
      bySymbol, bySymbolFlat := MergeIntoFlat(SymbolCompare, bySymbol, bySymbolFlat);
      byExtension, byExtensionFlat := MergeIntoFlat(ExtensionLess, byExtension, byExtensionFlat);
    }

    method FindSymbol(name: string) returns (r: Option<V>)
      modifies this
      ensures Contents() == EncodedIndex.EnsureFlat(old(Contents()))
      ensures r == EncodedIndex.FindSymbol(Contents(), name)
    {
      EnsureFlat();
      var iter := FindLastLessOrEqual(SymbolCompare, bySymbolFlat, Bare(name));
      r := if iter != |bySymbolFlat| && IsSubSymbol(AsString(bySymbolFlat[iter].key), name)
        then ValueAt(Contents(), Some(bySymbolFlat[iter].value)) else None;
    }

    method FindFile(filename: string) returns (r: Option<V>)
      modifies this
      ensures Contents() == EncodedIndex.EnsureFlat(old(Contents()))
      ensures r == EncodedIndex.FindFile(Contents(), filename)
    {
      EnsureFlat();
      var it := LowerBound(Less, byNameFlat, filename);
      r := if it == |byNameFlat| || byNameFlat[it].key != filename then None
        else ValueAt(Contents(), Some(byNameFlat[it].value));
    }

    method FindExtension(containingType: string, fieldNumber: int) returns (r: Option<V>)
      modifies this
      ensures Contents() == EncodedIndex.EnsureFlat(old(Contents()))
      ensures r == EncodedIndex.FindExtension(Contents(), (containingType, fieldNumber))
    {
      EnsureFlat();
      var it := LowerBound(ExtensionLess, byExtensionFlat, (containingType, fieldNumber));
      r := if it == |byExtensionFlat| || byExtensionFlat[it].key.0 != containingType
          || byExtensionFlat[it].key.1 != fieldNumber then None
        else ValueAt(Contents(), Some(byExtensionFlat[it].value));
    }

    method FindAllExtensionNumbers(containingType: string, output: seq<int>) returns (out: seq<int>, success: bool)
      modifies this
      ensures Contents() == EncodedIndex.EnsureFlat(old(Contents()))
      ensures out == output + SimpleIndex.Numbers(byExtensionFlat, containingType)
      ensures success <==> |out| > |output|
    {
      EnsureFlat();
      var it := LowerBound(ExtensionLess, byExtensionFlat, (containingType, 0));
      out, success := output, false;
      ghost var added := [];
      while it != |byExtensionFlat| && byExtensionFlat[it].key.0 == containingType
        invariant it <= |byExtensionFlat| && out == output + added
        invariant added + SimpleIndex.NumbersFrom(byExtensionFlat, it, containingType) ==
          SimpleIndex.Numbers(byExtensionFlat, containingType)
        invariant success <==> added != []
      {
        out := out + [byExtensionFlat[it].key.1];
        added := added + [byExtensionFlat[it].key.1];
        success := true;
        it := it + 1;
      }
      assert out == output + SimpleIndex.Numbers(byExtensionFlat, containingType);
    }
  }
}
