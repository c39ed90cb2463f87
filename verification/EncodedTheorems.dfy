/** What holds of the encoded index after any run of adds and lookups. */
module EncodedTheorems {
  import opened Options
  import opened Names
  import opened Ordered
  import opened SymbolTable
  import opened Files
  import opened SymbolKeys
  import opened EncodedIndex
  import opened EncodedRuns
  import SimpleIndex

  /** A lookup flattens every table before it searches. */
  datatype Event<V> = AddFile(file: File, value: V) | Lookup

  function After<V>(s: State<V>, events: seq<Event<V>>): State<V>
    decreases |events|
  {
    if events == [] then s
    else match events[0]
      case AddFile(f, v) => After(Add(s, f, v).0, events[1..])
      case Lookup => After(EnsureFlat(s), events[1..])
  }

  /** Whether each file of the run was accepted. */
  function Verdicts<V>(s: State<V>, events: seq<Event<V>>): seq<bool>
    decreases |events|
  {
    if events == [] then []
    else match events[0]
      case AddFile(f, v) => [Add(s, f, v).1] + Verdicts(Add(s, f, v).0, events[1..])
      case Lookup => Verdicts(EnsureFlat(s), events[1..])
  }

  function PlainAfter<V>(p: Plain<V>, events: seq<Event<V>>): Plain<V>
    decreases |events|
  {
    if events == [] then p
    else match events[0]
      case AddFile(f, v) => PlainAfter(PlainAddEncoded(p, f, v).0, events[1..])
      case Lookup => PlainAfter(p, events[1..])
  }

  function PlainVerdicts<V>(p: Plain<V>, events: seq<Event<V>>): seq<bool>
    decreases |events|
  {
    if events == [] then []
    else match events[0]
      case AddFile(f, v) => [PlainAddEncoded(p, f, v).1] + PlainVerdicts(PlainAddEncoded(p, f, v).0, events[1..])
      case Lookup => PlainVerdicts(p, events[1..])
  }

  predicate NoneMissedInRun<V>(s: State<V>, events: seq<Event<V>>)
    decreases |events|
  {
    events == [] ||
    match events[0]
    case AddFile(f, v) => NoneMissedInFile(s, f, v) && NoneMissedInRun(Add(s, f, v).0, events[1..])
    case Lookup => NoneMissedInRun(EnsureFlat(s), events[1..])
  }

  /** No file puts an empty symbol into a package. */
  ghost predicate NamedRun<V>(events: seq<Event<V>>) {
    forall i | 0 <= i < |events| && events[i].AddFile? :: NamedFile(events[i].file)
  }

  predicate AllAccepted(verdicts: seq<bool>) {
    forall i | 0 <= i < |verdicts| :: verdicts[i]
  }

  // ---------- symbol lookups over every run ----------

  lemma {:induction false} RunKeeps<V(!new)>(s: State<V>, events: seq<Event<V>>)
    requires Sound(s) && NamedRun(events)
    ensures Sound(After(s, events))
    ensures !Joint(s) ==> !Joint(After(s, events))
    ensures Joint(s) ==> (Joint(After(s, events)) <==> NoneMissedInRun(s, events))
    decreases |events|
  {
    if events != [] {
      match events[0] {
        case AddFile(f, v) =>
          AddSound(s, f, v);
          RunKeeps(Add(s, f, v).0, events[1..]);
        case Lookup =>
          FlattenSound(s);
          RunKeeps(EnsureFlat(s), events[1..]);
      }
    }
  }

  lemma {:induction false} FindByName(flat: Entries, name: string)
    requires AllNamed(flat)
    ensures FindOffset(flat, name) == SymbolTable.FindSymbol(Strings(flat), name)
  {
    SearchByName(flat, Bare(name));
  }

  /** After any run of adds, accepted or rejected, and lookups: the next symbol lookups all answer like the
      plain set of the stored names exactly when no accepted name met the smallest-key case, in the tree
      or in the flat vector. */
  lemma {:induction false} LookupsCorrectIffNoneMissed<V(!new)>(events: seq<Event<V>>)
    requires NamedRun(events)
    ensures var flat := EnsureFlat(After(Empty<V>(), events)).symbolsFlat;
      (forall name :: Answers(Strings(flat), name, FindOffset(flat, name))) <==>
      NoneMissedInRun(Empty<V>(), events)
  {
    var s := After(Empty<V>(), events);
    RunKeeps(Empty<V>(), events);
    FlattenSymbols(s.symbols, s.symbolsFlat);
    var flat := EnsureFlat(s).symbolsFlat;
    forall name ensures FindOffset(flat, name) == SymbolTable.FindSymbol(Strings(flat), name) {
      FindByName(flat, name);
    }
    LookupsCorrectIffPrefixFree(Strings(flat));
  }

  // ---------- refinement over every run ----------

  lemma {:induction false} RunAgrees<V(!new)>(s: State<V>, p: Plain<V>, events: seq<Event<V>>)
    requires EncodedRuns.Refines(s, p) && NamedRun(events) && NoneMissedInRun(s, events)
    ensures EncodedRuns.Refines(After(s, events), PlainAfter(p, events))
    ensures Verdicts(s, events) == PlainVerdicts(p, events)
    decreases |events|
  {
    if events != [] {
      match events[0] {
        case AddFile(f, v) =>
          EncodedRuns.AddRefines(s, p, f, v);
          RunAgrees(Add(s, f, v).0, PlainAddEncoded(p, f, v).0, events[1..]);
        case Lookup =>
          FlattenRefines(s, p);
          RunAgrees(EnsureFlat(s), p, events[1..]);
      }
    }
  }

  lemma {:induction false} RunValuesAgree<V(!new)>(s: State<V>, p: Plain<V>, events: seq<Event<V>>)
    requires EncodedRuns.Refines(s, p) && NamedRun(events) && NoneMissedInRun(s, events)
    requires ValuesAgree(s, p) && AllAccepted(Verdicts(s, events))
    ensures ValuesAgree(After(s, events), PlainAfter(p, events))
    decreases |events|
  {
    if events != [] {
      match events[0] {
        case AddFile(f, v) =>
          EncodedRuns.AddRefines(s, p, f, v);
          var rest := Verdicts(Add(s, f, v).0, events[1..]);
          AllAcceptedHead(Add(s, f, v).1, rest);
          RunValuesAgree(Add(s, f, v).0, PlainAddEncoded(p, f, v).0, events[1..]);
        case Lookup =>
          FlattenRefines(s, p);
          RunValuesAgree(EnsureFlat(s), p, events[1..]);
      }
    }
  }

  lemma {:induction false} AllAcceptedHead(b: bool, rest: seq<bool>)
    requires AllAccepted([b] + rest)
    ensures b && AllAccepted(rest)
  {
    assert ([b] + rest)[0] == b;
    assert forall i | 0 <= i < |rest| :: ([b] + rest)[i + 1] == rest[i];
  }

  lemma {:induction false} FlatFind<V(!new)>(s: State<V>, p: Plain<V>, name: string, key: ExtensionKey)
    requires EncodedRuns.Refines(s, p) && ValuesAgree(s, p) && s.names == [] && s.extensions == []
    ensures FindFile(s, name) == PlainFindFile(p, name)
    ensures EncodedIndex.FindExtension(s, key) == PlainFindExtension(p, key)
  {
    NameOrder();
    ExtensionOrder();
    FlatLookup(Less, s.values, s.namesFlat, p.files, name);
    FlatLookup(ExtensionLess, s.values, s.extensionsFlat, p.extensions, key);
  }

  lemma {:induction false} FlatAnswers<V(!new)>(s: State<V>, p: Plain<V>, name: string)
    requires EncodedRuns.Refines(s, p) && s.symbols == []
    ensures PlainAnswers(p, name, EncodedIndex.FindSymbol(s, name))
  {
    var t := Strings(s.symbolsFlat);
    FindByName(s.symbolsFlat, name);
    LookupAnswers(t, name);
    forall k | k in p.symbols ensures HasKey(t, k) {}
    if SymbolTable.FindSymbol(t, name).Some? {
      FoundAnswers(s, p, t, name, SymbolTable.FindSymbol(t, name).value);
    }
  }

  lemma {:induction false} FoundAnswers<V(!new)>(
    s: State<V>, p: Plain<V>, t: SymbolTable.Table<nat>, name: string, offset: nat)
    requires EncodedRuns.Refines(s, p) && s.symbols == [] && t == Strings(s.symbolsFlat)
    requires SymbolTable.Answers(t, name, Some(offset))
    ensures PlainAnswers(p, name, ValueAt(s, Some(offset)))
  {
    var i :| 0 <= i < |t| && IsSubSymbol(t[i].key, name) && t[i].value == offset
      && forall j | 0 <= j < |t| && IsSubSymbol(t[j].key, name) :: j == i;
    assert p.symbols[t[i].key] == s.values[offset].value;
  }

  /** Over any run that never met the smallest-key case, each file is accepted or rejected as by the
      plain index, and a symbol lookup then answers as the plain index does. */
  lemma {:induction false} SymbolsRefinePlain<V(!new)>(events: seq<Event<V>>, name: string)
    requires NamedRun(events) && NoneMissedInRun(Empty<V>(), events)
    ensures Verdicts(Empty<V>(), events) == PlainVerdicts(EmptyPlain<V>(), events)
    ensures PlainAnswers(PlainAfter(EmptyPlain<V>(), events), name,
      EncodedIndex.FindSymbol(EnsureFlat(After(Empty<V>(), events)), name))
  {
    RunAgrees(Empty<V>(), EmptyPlain<V>(), events);
    var s, p := After(Empty<V>(), events), PlainAfter(EmptyPlain<V>(), events);
    FlattenRefines(s, p);
    FlatAnswers(EnsureFlat(s), p, name);
  }

  /** When moreover every file was accepted, file and extension lookups answer as the plain index does. */
  lemma {:induction false} PlainIndexAgrees<V(!new)>(events: seq<Event<V>>, name: string, key: ExtensionKey)
    requires NamedRun(events) && NoneMissedInRun(Empty<V>(), events)
    requires AllAccepted(Verdicts(Empty<V>(), events))
    ensures var s, p := EnsureFlat(After(Empty<V>(), events)), PlainAfter(EmptyPlain<V>(), events);
      && FindFile(s, name) == PlainFindFile(p, name)
      && EncodedIndex.FindExtension(s, key) == PlainFindExtension(p, key)
  {
    RunAgrees(Empty<V>(), EmptyPlain<V>(), events);
    RunValuesAgree(Empty<V>(), EmptyPlain<V>(), events);
    var s, p := After(Empty<V>(), events), PlainAfter(EmptyPlain<V>(), events);
    FlattenRefines(s, p);
    FlatFind(EnsureFlat(s), p, name, key);
  }

  // ---------- the two databases agree ----------

  function FilesOf<V>(events: seq<Event<V>>): seq<(File, V)>
    decreases |events|
  {
    if events == [] then []
    else match events[0]
      case AddFile(f, v) => [(f, v)] + FilesOf(events[1..])
      case Lookup => FilesOf(events[1..])
  }

  lemma {:induction false} SamePlain<V>(p: Plain<V>, events: seq<Event<V>>)
    requires forall i | 0 <= i < |events| && events[i].AddFile? :: ValidateSymbolName(events[i].file.package)
    ensures PlainAfter(p, events) == SimpleIndex.PlainAddAll(p, FilesOf(events))
    decreases |events|
  {
    if events != [] {
      match events[0] {
        case AddFile(f, v) =>
          assert ([(f, v)] + FilesOf(events[1..]))[1..] == FilesOf(events[1..]);
          SamePlain(PlainAdd(p, f, v).0, events[1..]);
        case Lookup => SamePlain(p, events[1..]);
      }
    }
  }

  /** The encoded and the simple database, given the same files, find the same value for every symbol, unless
      one of them met the smallest-key case or a package name is invalid. */
  lemma {:induction false} EncodedAgreesWithSimple<V(!new)>(events: seq<Event<V>>, name: string)
    requires NamedRun(events) && NoneMissedInRun(Empty<V>(), events)
    requires SimpleIndex.NoneMissedInRun(SimpleIndex.Empty<V>(), FilesOf(events))
    requires forall i | 0 <= i < |events| && events[i].AddFile? :: ValidateSymbolName(events[i].file.package)
    ensures EncodedIndex.FindSymbol(EnsureFlat(After(Empty<V>(), events)), name) ==
      SymbolTable.FindSymbol(SimpleIndex.AddAll(SimpleIndex.Empty<V>(), FilesOf(events)).bySymbol, name)
  {
    SymbolsRefinePlain(events, name);
    SamePlain(EmptyPlain<V>(), events);
    SimpleIndex.SimpleRefinesPlain(FilesOf(events), name, ("", 0));
    AnswerIsUnique(PlainAfter(EmptyPlain<V>(), events), name,
      EncodedIndex.FindSymbol(EnsureFlat(After(Empty<V>(), events)), name),
      SymbolTable.FindSymbol(SimpleIndex.AddAll(SimpleIndex.Empty<V>(), FilesOf(events)).bySymbol, name));
  }
}
