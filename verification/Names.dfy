/** Dotted symbol names: their byte order, which characters are legal, and when one name
    lies above another at a dot. */
module Names {

  /** Length of the longest common prefix. */
  function Diverge(a: string, b: string): (i: nat)
    ensures i <= |a| && i <= |b| && a[..i] == b[..i]
    ensures i < |a| && i < |b| ==> a[i] != b[i]
  {
    if a == [] || b == [] || a[0] != b[0] then 0
    else
      var i := Diverge(a[1..], b[1..]);
      assert a[..i + 1] == [a[0]] + a[1..][..i];
      assert b[..i + 1] == [b[0]] + b[1..][..i];
      i + 1
  }

  /** The order of std::string and StringPiece: the first difference decides, and a proper
      prefix comes first. */
  predicate Less(a: string, b: string) {
    var i := Diverge(a, b);
    i < |b| && (i == |a| || a[i] < b[i])
  }

  predicate LessEq(a: string, b: string) {
    a == b || Less(a, b)
  }

  predicate LegalChar(c: char) {
    c == '.' || c == '_' || '0' <= c <= '9' || 'A' <= c <= 'Z' || 'a' <= c <= 'z'
  }

  predicate ValidateSymbolName(name: string) {
    forall i | 0 <= i < |name| :: LegalChar(name[i])
  }

  /** `parent` is `child` or one of its dotted ancestors. */
  predicate IsSubSymbol(parent: string, child: string) {
    parent == child || (|parent| < |child| && child[..|parent|] == parent && child[|parent|] == '.')
  }

  /** Two names that may not both be stored. */
  predicate Conflict(a: string, b: string) {
    IsSubSymbol(a, b) || IsSubSymbol(b, a)
  }

  // ---------- the alphabet and the ancestors, spelled out ----------

  const LOWER := "abcdefghijklmnopqrstuvwxyz"
  const UPPER := "ABCDEFGHIJKLMNOPQRSTUVWXYZ"
  const OTHER := "0123456789_."

  lemma {:induction false} IsLower(c: char)
    ensures 'a' <= c <= 'z' <==> c in LOWER
  {
    assert |LOWER| == 26 && forall i | 0 <= i < 26 :: LOWER[i] == 'a' + i as char;
    if 'a' <= c <= 'z' { assert LOWER[c as int - 97] == c; }
  }

  lemma {:induction false} IsUpper(c: char)
    ensures 'A' <= c <= 'Z' <==> c in UPPER
  {
    assert |UPPER| == 26 && forall i | 0 <= i < 26 :: UPPER[i] == 'A' + i as char;
    if 'A' <= c <= 'Z' { assert UPPER[c as int - 65] == c; }
  }

  lemma {:induction false} IsOther(c: char)
    ensures '0' <= c <= '9' || c == '_' || c == '.' <==> c in OTHER
  {
    assert |OTHER| == 12 && forall i | 0 <= i < 10 :: OTHER[i] == '0' + i as char;
    assert OTHER[10] == '_' && OTHER[11] == '.';
    if '0' <= c <= '9' { assert OTHER[c as int - 48] == c; }
  }

  /** A name is valid if and only if it is written with letters, digits, underscores and dots. */
  lemma {:induction false} ValidIffInAlphabet(name: string)
    ensures ValidateSymbolName(name) <==>
      forall c | c in name ::
        c in "abcdefghijklmnopqrstuvwxyz" || c in "ABCDEFGHIJKLMNOPQRSTUVWXYZ" || c in "0123456789_."
  {
    forall c ensures LegalChar(c) <==> c in LOWER || c in UPPER || c in OTHER {
      IsLower(c);
      IsUpper(c);
      IsOther(c);
    }
  }

  /** The ancestors of a name are what remains when it is cut before a dot. */
  lemma {:induction false} SubSymbolIsCut(parent: string, child: string)
    ensures IsSubSymbol(parent, child) <==> parent == child || exists rest :: child == parent + "." + rest
  {
    if IsSubSymbol(parent, child) && parent != child {
      assert child == parent + "." + child[|parent| + 1..];
    }
  }

  // ---------- the order is a strict total order ----------

  /** Where two strings diverge is determined by the two defining facts. */
  lemma {:induction false} DivergeIs(a: string, b: string, i: nat)
    requires i <= |a| && i <= |b| && a[..i] == b[..i]
    requires i < |a| && i < |b| ==> a[i] != b[i]
    requires i == |a| || i == |b| || a[i] != b[i]
    ensures Diverge(a, b) == i
  {
  }

  lemma {:induction false} LessIrreflexive(a: string)
    ensures !Less(a, a)
  {
  }

  lemma {:induction false} LessTotal(a: string, b: string)
    ensures Less(a, b) || a == b || Less(b, a)
    ensures !(Less(a, b) && Less(b, a))
    ensures Less(a, b) ==> a != b
  {
  }

  lemma {:induction false} LessTransitive(a: string, b: string, c: string)
    requires Less(a, b) && Less(b, c)
    ensures Less(a, c)
  {
  }

  /** Comparing after a shared head is comparing the tails. */
  lemma {:induction false} LessSameHead(h: string, a: string, b: string)
    ensures Less(h + a, h + b) == Less(a, b)
  {
    var i := Diverge(a, b);
    var n := |h| + i;
    assert (h + a)[..n] == h + a[..i];
    assert (h + b)[..n] == h + b[..i];
    DivergeIs(h + a, h + b, n);
  }

  /** If two strings differ inside both, whatever follows does not matter. */
  lemma {:induction false} LessByHeads(a: string, b: string, x: string, y: string)
    requires Diverge(a, b) < |a| && Diverge(a, b) < |b|
    ensures Less(a + x, b + y) == Less(a, b)
  {
    var i := Diverge(a, b);
    assert (a + x)[..i] == a[..i] && (b + y)[..i] == b[..i];
    DivergeIs(a + x, b + y, i);
  }

  // ---------- '.' sorts first ----------

  lemma {:induction false} SubSymbolLessEq(parent: string, child: string)
    requires IsSubSymbol(parent, child)
    ensures LessEq(parent, child)
  {
  }

  /** A valid name between an ancestor and its descendant is itself below the ancestor.  Only
      the name in the middle has to be valid. */
  lemma {:induction false} BetweenIsBelow(parent: string, middle: string, child: string)
    requires IsSubSymbol(parent, child)
    requires LessEq(parent, middle) && LessEq(middle, child)
    requires ValidateSymbolName(middle)
    ensures IsSubSymbol(parent, middle)
  {
  }

  /** The ancestors of one name form a chain. */
  lemma {:induction false} AncestorsConflict(a: string, b: string, child: string)
    requires IsSubSymbol(a, child) && IsSubSymbol(b, child)
    ensures Conflict(a, b)
  {
  }
}
