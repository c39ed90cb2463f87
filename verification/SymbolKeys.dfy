/** The comparator of the encoded index: symbols are kept apart from their package, and compared
    without joining the two whenever possible. */
module SymbolKeys {
  import opened Names
  import opened Ordered
  import opened SymbolTable
  import opened Files

  /** An entry's package and symbol, or the plain string a lookup asks for. */
  datatype SymbolKey = Joined(package: string, symbol: string) | Bare(str: string)

  function AsString(k: SymbolKey): string {
    match k
    case Joined(p, s) => FullName(p, s)
    case Bare(str) => str
  }

  function GetParts(k: SymbolKey): (string, string) {
    match k
    case Joined(p, s) => if p == "" then (s, "") else (p, s)
    case Bare(str) => (str, "")
  }

  function Take(s: string, n: nat): string {
    if n < |s| then s[..n] else s
  }

  predicate SymbolCompare(lhs: SymbolKey, rhs: SymbolKey) {
    var l, r := GetParts(lhs), GetParts(rhs);
    var lHead, rHead := Take(l.0, |r.0|), Take(r.0, |l.0|);
    if lHead != rHead then Less(lHead, rHead)
    else if |l.0| == |r.0| then Less(l.1, r.1)
    else Less(AsString(lhs), AsString(rhs))
  }

  /** The full name is the first part, or the two parts with a dot between. */
  predicate Split(k: SymbolKey) {
    k.Joined? && k.package != ""
  }

  /** Same first part, but only the right one is a package, and its symbol is empty. */
  predicate Confused(lhs: SymbolKey, rhs: SymbolKey) {
    GetParts(lhs).0 == GetParts(rhs).0 && !Split(lhs) && Split(rhs) && rhs.symbol == ""
  }

  lemma {:induction false} StringFromParts(k: SymbolKey)
    ensures AsString(k) == GetParts(k).0 + Tail(Split(k), GetParts(k).1)
    ensures !Split(k) ==> GetParts(k).1 == ""
  {
  }

  /** The fast comparison agrees with the order of the full names, unless it confuses a package
      followed by nothing with the package itself. */
  lemma {:induction false} CompareIsOrder(lhs: SymbolKey, rhs: SymbolKey)
    ensures SymbolCompare(lhs, rhs) == Less(AsString(lhs), AsString(rhs)) <==> !Confused(lhs, rhs)
  {
    var l, r := GetParts(lhs), GetParts(rhs);
    StringFromParts(lhs);
    StringFromParts(rhs);
    if Take(l.0, |r.0|) != Take(r.0, |l.0|) {
      HeadsDecide(l.0, r.0, Tail(Split(lhs), l.1), Tail(Split(rhs), r.1));
    } else if |l.0| == |r.0| {
      SameHead(l.0, l.1, r.1, Split(lhs), Split(rhs));
    }
  }

  /** What follows the first part in the full name. */
  function Tail(split: bool, symbol: string): string {
    if split then "." + symbol else ""
  }

  lemma {:induction false} SameHead(h: string, a: string, b: string, aSplit: bool, bSplit: bool)
    requires (!aSplit ==> a == "") && (!bSplit ==> b == "")
    ensures Less(a, b) == Less(h + Tail(aSplit, a), h + Tail(bSplit, b)) <==> !(!aSplit && bSplit && b == "")
  {
    LessSameHead(h, Tail(aSplit, a), Tail(bSplit, b));
    LessSameHead(".", a, b);
    EmptyFirst(a);
    EmptyFirst(b);
    EmptyFirst(Tail(aSplit, a));
    EmptyFirst(Tail(bSplit, b));
  }

  lemma {:induction false} HeadsDecide(l: string, r: string, x: string, y: string)
    requires Take(l, |r|) != Take(r, |l|)
    ensures Less(Take(l, |r|), Take(r, |l|)) == Less(l + x, r + y)
  {
    HeadsDiffer(l, r);
    LessByHeads(l, r, x, y);
    var a, b := Take(l, |r|), Take(r, |l|);
    assert l == a + l[|a|..] && r == b + r[|b|..];
    LessByHeads(a, b, l[|a|..], r[|b|..]);
  }

  lemma {:induction false} EmptyFirst(s: string)
    ensures Less("", s) <==> s != ""
    ensures !Less(s, "")
  {
  }

  lemma {:induction false} HeadsDiffer(l: string, r: string)
    requires Take(l, |r|) != Take(r, |l|)
    ensures var a, b := Take(l, |r|), Take(r, |l|);
      && Diverge(a, b) < |a| && Diverge(a, b) < |b|
      && Diverge(l, r) < |l| && Diverge(l, r) < |r|
  {
  }

  /** Entry "p" with symbol "" has the full name "p.", yet compares like "p". */
  lemma {:induction false} CompareWitness()
    ensures !SymbolCompare(Bare("p"), Joined("p", "")) && Less("p", "p.")
    ensures AsString(Bare("p")) == "p" && AsString(Joined("p", "")) == "p."
  {
  }

  // ---------- searching by the comparator is searching by the full name ----------

  type Entries = seq<Entry<SymbolKey, nat>>

  /** Not a package with an empty symbol. */
  predicate Named(k: SymbolKey) {
    Split(k) ==> k.symbol != ""
  }

  ghost predicate AllNamed(t: Entries) {
    forall i | 0 <= i < |t| :: Named(t[i].key)
  }

  function Strings(t: Entries): (s: Table<nat>)
    ensures |s| == |t|
    ensures forall i | 0 <= i < |t| :: s[i] == Entry(AsString(t[i].key), t[i].value)
  {
    seq(|t|, i requires 0 <= i < |t| => Entry(AsString(t[i].key), t[i].value))
  }

  lemma {:induction false} NamedCompare(a: SymbolKey, b: SymbolKey)
    requires Named(b)
    ensures SymbolCompare(a, b) == Less(AsString(a), AsString(b))
  {
    CompareIsOrder(a, b);
  }

  lemma {:induction false} SearchByName(t: Entries, k: SymbolKey)
    requires AllNamed(t)
    ensures UpperBound(SymbolCompare, t, k) == UpperBound(Less, Strings(t), AsString(k))
    ensures FindLastLessOrEqual(SymbolCompare, t, k) == Neighbour(Strings(t), AsString(k))
  {
    if t != [] {
      NamedCompare(k, t[0].key);
      assert Strings(t)[1..] == Strings(t[1..]);
      SearchByName(t[1..], k);
    }
  }

  lemma {:induction false} InsertByName(t: Entries, e: Entry<SymbolKey, nat>)
    requires AllNamed(t) && Named(e.key)
    ensures Strings(Insert(SymbolCompare, t, e)) == Insert(Less, Strings(t), Entry(AsString(e.key), e.value))
    ensures AllNamed(Insert(SymbolCompare, t, e))
  {
    SearchByName(t, e.key);
    var i := UpperBound(SymbolCompare, t, e.key);
    if i != 0 { NamedCompare(t[i - 1].key, e.key); }
    if i == 0 || SymbolCompare(t[i - 1].key, e.key) {
      SpliceByName(t, i, e);
    }
  }

  lemma {:induction false} SpliceByName(t: Entries, i: nat, e: Entry<SymbolKey, nat>)
    requires i <= |t| && AllNamed(t) && Named(e.key)
    ensures Strings(t[..i] + [e] + t[i..]) == Strings(t)[..i] + [Entry(AsString(e.key), e.value)] + Strings(t)[i..]
    ensures AllNamed(t[..i] + [e] + t[i..])
  {
  }

  lemma {:induction false} MergeByName(a: Entries, b: Entries)
    requires AllNamed(a) && AllNamed(b)
    ensures Strings(Merge(SymbolCompare, a, b)) == Merge(Less, Strings(a), Strings(b))
    ensures AllNamed(Merge(SymbolCompare, a, b))
  {
    if a != [] && b != [] {
      var x, y := a[0], b[0];
      var least, rest := x, Merge(SymbolCompare, a[1..], b);
      NamedCompare(y.key, x.key);
      TailStrings(a);
      TailStrings(b);
      if SymbolCompare(y.key, x.key) {
        MergeByName(a, b[1..]);
        least, rest := y, Merge(SymbolCompare, a, b[1..]);
      } else {
        MergeByName(a[1..], b);
      }
      HeadStrings(least, rest);
    }
  }

  lemma {:induction false} TailStrings(t: Entries)
    requires t != []
    ensures Strings(t)[1..] == Strings(t[1..])
  {
  }

  lemma {:induction false} HeadStrings(e: Entry<SymbolKey, nat>, rest: Entries)
    ensures Strings([e] + rest) == [Entry(AsString(e.key), e.value)] + Strings(rest)
    ensures Named(e.key) && AllNamed(rest) ==> AllNamed([e] + rest)
  {
  }
}
