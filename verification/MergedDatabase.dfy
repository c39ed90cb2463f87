/** MergedDescriptorDatabase: several databases searched in order. */
module MergedDatabase {
  import opened Options
  import opened Ordered
  import opened Files
  import SymbolTable
  import SimpleIndex

  /** What a database answers.  The last one gives the listed numbers and whether there are any. */
  datatype Source = Source(
    byName: string -> Option<File>,
    bySymbol: string -> Option<File>,
    byExtension: ExtensionKey -> Option<File>,
    extensionNumbers: string -> (seq<int>, bool))

  /** A database whose files can be found under their own names. */
  ghost predicate Coherent(s: Source) {
    && (forall n :: s.byName(n).Some? ==> s.byName(n).value.name == n)
    && (forall q :: s.bySymbol(q).Some? ==> s.byName(s.bySymbol(q).value.name) == s.bySymbol(q))
    && (forall k :: s.byExtension(k).Some? ==> s.byName(s.byExtension(k).value.name) == s.byExtension(k))
  }

  function OfSimple(s: SimpleIndex.State<File>): Source {
    Source(
      n => if n in s.byName then Some(s.byName[n]) else None,
      q => SymbolTable.FindSymbol(s.bySymbol, q),
      k => SimpleIndex.FindExtension(s, k),
      t => (SimpleIndex.Numbers(s.byExtension, t), SimpleIndex.Numbers(s.byExtension, t) != []))
  }

  /** Any simple database, whatever was added to it, is coherent. */
  lemma {:induction false} SimpleIsCoherent(files: seq<File>)
    ensures Coherent(OfSimple(SimpleIndex.AddAll(SimpleIndex.Empty(), SimpleIndex.AsHistory(files))))
  {
    SimpleIndex.AddAllCoherent(SimpleIndex.Empty(), files);
    var s := SimpleIndex.AddAll(SimpleIndex.Empty(), SimpleIndex.AsHistory(files));
    forall q, k
      ensures OfSimple(s).bySymbol(q).Some? ==> SimpleIndex.Stored(s, OfSimple(s).bySymbol(q).value)
      ensures OfSimple(s).byExtension(k).Some? ==> SimpleIndex.Stored(s, OfSimple(s).byExtension(k).value)
    {
    }
  }

  /** Source `i` is the first to know what `find` asks for. */
  ghost predicate FirstKnowing(sources: seq<Source>, find: Source -> Option<File>, i: nat) {
    i < |sources| && find(sources[i]).Some? && forall j | 0 <= j < i :: find(sources[j]).None?
  }

  /** An earlier source has a file of this name. */
  ghost predicate Hidden(sources: seq<Source>, i: nat, name: string) {
    exists j | 0 <= j < i && j < |sources| :: sources[j].byName(name).Some?
  }

  /** A file found in the first source that knows the key, unless an earlier source hides its name. */
  ghost predicate Finds(sources: seq<Source>, find: Source -> Option<File>, r: Option<File>) {
    match r
    case Some(f) => exists i: nat :: FirstKnowing(sources, find, i) && find(sources[i]) == Some(f) && !Hidden(sources, i, f.name)
    case None => forall i: nat :: FirstKnowing(sources, find, i) ==> Hidden(sources, i, find(sources[i]).value.name)
  }

  /** The first source that has a file of this name supplies it. */
  ghost predicate FindsByName(sources: seq<Source>, name: string, r: Option<File>) {
    match r
    case Some(f) => exists i: nat :: FirstKnowing(sources, (s: Source) => s.byName(name), i) && sources[i].byName(name) == r
    case None => forall i | 0 <= i < |sources| :: sources[i].byName(name).None?
  }

  lemma {:induction false} FindsIsUnique(sources: seq<Source>, find: Source -> Option<File>, r: Option<File>, r': Option<File>)
    requires Finds(sources, find, r) && Finds(sources, find, r')
    ensures r == r'
  {
  }

  lemma {:induction false} FoundIsVisible(sources: seq<Source>, find: Source -> Option<File>, f: File, byName: Option<File>)
    requires forall i | 0 <= i < |sources| && find(sources[i]).Some? ::
      sources[i].byName(find(sources[i]).value.name) == find(sources[i])
    requires Finds(sources, find, Some(f)) && FindsByName(sources, f.name, byName)
    ensures byName == Some(f)
  {
  }

  /** Over coherent sources, the file answered for a symbol or an extension is the file that the merged
      database answers for that file's own name. */
  lemma {:induction false} MergedIsCoherent(sources: seq<Source>, q: string, k: ExtensionKey, f: File, byName: Option<File>)
    requires forall i | 0 <= i < |sources| :: Coherent(sources[i])
    requires Finds(sources, (s: Source) => s.bySymbol(q), Some(f)) || Finds(sources, (s: Source) => s.byExtension(k), Some(f))
    requires FindsByName(sources, f.name, byName)
    ensures byName == Some(f)
  {
    if Finds(sources, (s: Source) => s.bySymbol(q), Some(f)) {
      FoundIsVisible(sources, (s: Source) => s.bySymbol(q), f, byName);
    } else {
      FoundIsVisible(sources, (s: Source) => s.byExtension(k), f, byName);
    }
  }

  // ---------- merged databases of merged databases ----------

  function ByName(sources: seq<Source>, name: string): Option<File> {
    if sources == [] then None
    else if sources[0].byName(name).Some? then sources[0].byName(name) else ByName(sources[1..], name)
  }

  function Found(sources: seq<Source>, find: Source -> Option<File>, i: nat): Option<File>
    requires i <= |sources|
    decreases |sources| - i
  {
    if i == |sources| then None
    else
      match find(sources[i])
      case None => Found(sources, find, i + 1)
      case Some(f) => if ByName(sources[..i], f.name).Some? then None else Some(f)
  }

  function InsertNumbers(s: seq<int>, ns: seq<int>): (r: seq<int>)
    requires SimpleIndex.Ascending(s)
    ensures SimpleIndex.Ascending(r)
    decreases |ns|
  {
    if ns == [] then s else InsertNumbers(InsertNumber(s, ns[0]), ns[1..])
  }

  function Numbers(sources: seq<Source>, extendee: string): (r: (seq<int>, bool))
    ensures SimpleIndex.Ascending(r.0)
  {
    if sources == [] then ([], false)
    else
      var (rest, found) := Numbers(sources[1..], extendee);
      var (mine, any) := sources[0].extensionNumbers(extendee);
      if any then (InsertNumbers(rest, mine), true) else (rest, found)
  }

  lemma {:induction false} InsertNumbersExact(s: seq<int>, ns: seq<int>, n: int)
    requires SimpleIndex.Ascending(s)
    ensures n in InsertNumbers(s, ns) <==> n in s || n in ns
    decreases |ns|
  {
    if ns != [] {
      InsertNumbersExact(InsertNumber(s, ns[0]), ns[1..], n);
      assert ns == [ns[0]] + ns[1..];
    }
  }

  ghost predicate Lists(sources: seq<Source>, extendee: string, n: int) {
    exists i | 0 <= i < |sources| :: sources[i].extensionNumbers(extendee).1 && n in sources[i].extensionNumbers(extendee).0
  }

  lemma {:induction false} NumbersExact(sources: seq<Source>, extendee: string, n: int)
    ensures n in Numbers(sources, extendee).0 <==> Lists(sources, extendee, n)
    ensures Numbers(sources, extendee).1 <==> exists i | 0 <= i < |sources| :: sources[i].extensionNumbers(extendee).1
    decreases |sources|
  {
    if sources != [] {
      var rest := sources[1..];
      var (mine, any) := sources[0].extensionNumbers(extendee);
      NumbersExact(rest, extendee, n);
      InsertNumbersExact(Numbers(rest, extendee).0, mine, n);
      assert forall i | 0 <= i < |rest| :: rest[i] == sources[i + 1];
      assert forall i | 0 < i < |sources| :: sources[i] == rest[i - 1];
    }
  }

  lemma {:induction false} AscendingSame(a: seq<int>, b: seq<int>)
    requires SimpleIndex.Ascending(a) && SimpleIndex.Ascending(b) && forall n :: n in a <==> n in b
    ensures a == b
    decreases |a|
  {
    assert (a == [] || a[0] in a) && (b == [] || b[0] in b);
    if a != [] {
      assert a == [a[0]] + a[1..] && b == [b[0]] + b[1..];
      forall n ensures n in a[1..] <==> n in b[1..] {
        assert n in a <==> n in b;
      }
      AscendingSame(a[1..], b[1..]);
    }
  }

  /** A merged database is a database again, and may be merged with others. */
  function OfMerged(sources: seq<Source>): Source {
    Source(
      n => ByName(sources, n),
      q => Found(sources, (s: Source) => s.bySymbol(q), 0),
      k => Found(sources, (s: Source) => s.byExtension(k), 0),
      t => Numbers(sources, t))
  }

  lemma {:induction false} ByNameFinds(sources: seq<Source>, name: string)
    ensures FindsByName(sources, name, ByName(sources, name))
    ensures ByName(sources, name).None? <==> forall j | 0 <= j < |sources| :: sources[j].byName(name).None?
    decreases |sources|
  {
    if sources != [] && sources[0].byName(name).None? {
      ByNameFinds(sources[1..], name);
      var rest, find := sources[1..], (s: Source) => s.byName(name);
      if ByName(rest, name).Some? {
        var i: nat :| FirstKnowing(rest, find, i) && rest[i].byName(name) == ByName(rest, name);
        assert FirstKnowing(sources, find, i + 1);
      } else {
        forall j | 0 <= j < |sources| ensures sources[j].byName(name).None? {
          if j > 0 { assert sources[j] == rest[j - 1]; }
        }
      }
    } else if sources != [] {
      assert FirstKnowing(sources, (s: Source) => s.byName(name), 0);
    }
  }

  lemma {:induction false} FoundFinds(sources: seq<Source>, find: Source -> Option<File>, i: nat)
    requires i <= |sources| && forall j | 0 <= j < i :: find(sources[j]).None?
    ensures Finds(sources, find, Found(sources, find, i))
    decreases |sources| - i
  {
    if i < |sources| {
      if find(sources[i]).None? {
        FoundFinds(sources, find, i + 1);
      } else {
        assert FirstKnowing(sources, find, i);
        ByNameFinds(sources[..i], find(sources[i]).value.name);
      }
    }
  }

  lemma {:induction false} OfMergedIsCoherent(sources: seq<Source>)
    requires forall i | 0 <= i < |sources| :: Coherent(sources[i])
    ensures Coherent(OfMerged(sources))
  {
    var m := OfMerged(sources);
    forall n | m.byName(n).Some? ensures m.byName(n).value.name == n {
      ByNameFinds(sources, n);
      var i: nat :| FirstKnowing(sources, (s: Source) => s.byName(n), i) && sources[i].byName(n) == m.byName(n);
      assert Coherent(sources[i]);
    }
    forall q | m.bySymbol(q).Some? ensures m.byName(m.bySymbol(q).value.name) == m.bySymbol(q) {
      FoundFinds(sources, (s: Source) => s.bySymbol(q), 0);
      ByNameFinds(sources, m.bySymbol(q).value.name);
      MergedIsCoherent(sources, q, ("", 0), m.bySymbol(q).value, m.byName(m.bySymbol(q).value.name));
    }
    forall k | m.byExtension(k).Some? ensures m.byName(m.byExtension(k).value.name) == m.byExtension(k) {
      FoundFinds(sources, (s: Source) => s.byExtension(k), 0);
      ByNameFinds(sources, m.byExtension(k).value.name);
      MergedIsCoherent(sources, "", k, m.byExtension(k).value, m.byName(m.byExtension(k).value.name));
    }
  }

  /** Simple databases, each with the files added to it, merged in any nesting. */
  datatype Nesting = Simple(files: seq<File>) | Merged(parts: seq<Nesting>)

  function SourceOf(t: Nesting): Source {
    match t
    case Simple(files) => OfSimple(SimpleIndex.AddAll(SimpleIndex.Empty(), SimpleIndex.AsHistory(files)))
    case Merged(parts) => OfMerged(seq(|parts|, i requires 0 <= i < |parts| => SourceOf(parts[i])))
  }

  /** Whatever was added to them and however they are merged: a file found by symbol or extension is the file
      found under its own name. */
  lemma {:induction false} NestingIsCoherent(t: Nesting)
    ensures Coherent(SourceOf(t))
  {
    match t
    case Simple(files) => SimpleIsCoherent(files);
    case Merged(parts) =>
      var sources := seq(|parts|, i requires 0 <= i < |parts| => SourceOf(parts[i]));
      forall i | 0 <= i < |sources| ensures Coherent(sources[i]) { NestingIsCoherent(parts[i]); }
      OfMergedIsCoherent(sources);
  }

  /** Insertion into a std::set of numbers. */
  function InsertNumber(s: seq<int>, n: int): (r: seq<int>)
    requires SimpleIndex.Ascending(s)
    ensures SimpleIndex.Ascending(r)
    ensures forall x :: x in r <==> x in s || x == n
  {
    if s == [] || n < s[0] then [n] + s
    else if n == s[0] then s
    else
      var rest := InsertNumber(s[1..], n);
      assert forall i | 0 <= i < |rest| :: rest[i] in rest;
      assert s == [s[0]] + s[1..];
      [s[0]] + rest
  }

  class MergedDescriptorDatabase {
    const sources: seq<Source>

    constructor (sources: seq<Source>)
      ensures this.sources == sources
    {
      this.sources := sources;
    }

    method FindFileByName(filename: string) returns (r: Option<File>)
      ensures FindsByName(sources, filename, r)
    {
      for i := 0 to |sources|
        invariant forall j | 0 <= j < i :: sources[j].byName(filename).None?
      {
        r := sources[i].byName(filename);
        if r.Some? {
          assert FirstKnowing(sources, (s: Source) => s.byName(filename), i);
          return;
        }
      }
      return None;
    }

    method FindFileContainingSymbol(symbolName: string) returns (r: Option<File>)
      ensures Finds(sources, (s: Source) => s.bySymbol(symbolName), r)
    {
      ghost var find := (s: Source) => s.bySymbol(symbolName);
      for i := 0 to |sources|
        invariant forall j | 0 <= j < i :: find(sources[j]).None?
      {
        r := sources[i].bySymbol(symbolName);
        if r.Some? {
          assert FirstKnowing(sources, find, i);
          for j := 0 to i
            invariant forall k | 0 <= k < j :: sources[k].byName(r.value.name).None?
          {
            if sources[j].byName(r.value.name).Some? {
              HiddenAnswer(sources, find, i, j);
              return None;
            }
          }
          return r;
        }
      }
      return None;
    }

    method FindFileContainingExtension(containingType: string, fieldNumber: int) returns (r: Option<File>)
      ensures Finds(sources, (s: Source) => s.byExtension((containingType, fieldNumber)), r)
    {
      ghost var find := (s: Source) => s.byExtension((containingType, fieldNumber));
      for i := 0 to |sources|
        invariant forall j | 0 <= j < i :: find(sources[j]).None?
      {
        r := sources[i].byExtension((containingType, fieldNumber));
        if r.Some? {
          assert FirstKnowing(sources, find, i);
          for j := 0 to i
            invariant forall k | 0 <= k < j :: sources[k].byName(r.value.name).None?
          {
            if sources[j].byName(r.value.name).Some? {
              HiddenAnswer(sources, find, i, j);
              return None;
            }
          }
          return r;
        }
      }
      return None;
    }

    /** Appends the numbers any source lists, each once and ascending. */
    method FindAllExtensionNumbers(extendeeType: string, output: seq<int>) returns (out: seq<int>, success: bool)
      ensures output <= out && SimpleIndex.Ascending(out[|output|..])
      ensures forall n :: n in out[|output|..] <==>
        exists i | 0 <= i < |sources| :: sources[i].extensionNumbers(extendeeType).1 && n in sources[i].extensionNumbers(extendeeType).0
      ensures success <==> exists i | 0 <= i < |sources| :: sources[i].extensionNumbers(extendeeType).1
      ensures (out, success) == (output + Numbers(sources, extendeeType).0, Numbers(sources, extendeeType).1)
    {
      var mergedResults: seq<int> := [];
      success := false;
      for i := 0 to |sources|
        invariant SimpleIndex.Ascending(mergedResults)
        invariant forall n :: n in mergedResults <==>
          exists k | 0 <= k < i :: sources[k].extensionNumbers(extendeeType).1 && n in sources[k].extensionNumbers(extendeeType).0
        invariant success <==> exists k | 0 <= k < i :: sources[k].extensionNumbers(extendeeType).1
      {
        var (results, found) := sources[i].extensionNumbers(extendeeType);
        if found {
          ghost var before := mergedResults;
          for j := 0 to |results|
            invariant SimpleIndex.Ascending(mergedResults)
            invariant forall n :: n in mergedResults <==> n in before || n in results[..j]
          {
            mergedResults := InsertNumber(mergedResults, results[j]);
          }
          assert results[..|results|] == results;
          success := true;
        }
      }
      forall n ensures n in mergedResults <==> n in Numbers(sources, extendeeType).0 {
        NumbersExact(sources, extendeeType, n);
      }
      NumbersExact(sources, extendeeType, 0);
      AscendingSame(mergedResults, Numbers(sources, extendeeType).0);
      out := output + mergedResults;
      assert out[|output|..] == mergedResults;
    }
  }

  lemma {:induction false} HiddenAnswer(sources: seq<Source>, find: Source -> Option<File>, i: nat, j: nat)
    requires FirstKnowing(sources, find, i) && j < i
    requires sources[j].byName(find(sources[i]).value.name).Some?
    ensures Finds(sources, find, None)
  {
  }
}
