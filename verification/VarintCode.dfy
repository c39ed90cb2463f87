/** The loops that read and write varints. */
module VarintCode {
  import opened Sequences
  import opened Options
  import opened Varint

  // ---------- groups of seven bits ----------

  /** `x` shifted left by `k` groups. */
  function Scale(x: int, k: nat): int {
    if k == 0 then x else 128 * Scale(x, k - 1)
  }

  /** What the first `i` bytes carry, without their top bits. */
  function Low(s: seq<Byte>, i: nat): int
    requires i <= |s|
  {
    if i == 0 then 0 else s[0] - 128 + 128 * Low(s[1..], i - 1)
  }

  predicate Continues(s: seq<Byte>, i: nat) {
    i <= |s| && forall j | 0 <= j < i :: s[j] >= 128
  }

  lemma {:induction false} ScaleAdds(x: int, y: int, k: nat)
    ensures Scale(x + y, k) == Scale(x, k) + Scale(y, k)
  {
    if k > 0 { ScaleAdds(x, y, k - 1); }
  }

  lemma {:induction false} ScaleOfOne(k: nat)
    ensures Scale(1, k) == Power(k)
    ensures Scale(128, k) == Power(k + 1)
  {
    if k > 0 { ScaleOfOne(k - 1); }
  }

  lemma {:induction false} LowNext(s: seq<Byte>, i: nat)
    requires i < |s|
    ensures Low(s, i + 1) == Low(s, i) + Scale(s[i] as int - 128, i)
  {
    if i > 0 { LowNext(s[1..], i - 1); }
  }

  lemma {:induction false} LowWithin(s: seq<Byte>, i: nat)
    requires Continues(s, i)
    ensures 0 <= Low(s, i) < Power(i)
  {
    if i > 0 { LowWithin(s[1..], i - 1); }
  }

  lemma {:induction false} ScaleSign(x: nat, k: nat)
    ensures Scale(x, k) >= 0
  {
    if k > 0 { ScaleSign(x, k - 1); }
  }

  /** The first byte without its top bit ends the varint. */
  lemma {:induction false} DecodedAt(s: seq<Byte>, i: nat)
    requires Continues(s, i) && i < |s| && s[i] < 128
    ensures Low(s, i) >= 0 && Scale(s[i], i) >= 0
    ensures Decode(s).Some? && Decode(s).value == (Low(s, i) + Scale(s[i], i), i + 1)
  {
    if i > 0 { DecodedAt(s[1..], i - 1); }
  }

  lemma {:induction false} NotDecodedYet(s: seq<Byte>, i: nat)
    requires Continues(s, i)
    ensures Decode(s).Some? ==> Decode(s).value.1 > i && i < |s|
  {
    if i > 0 { NotDecodedYet(s[1..], i - 1); } else { DecodeShape(s); }
  }

  /** Adding `(byte - 1) << 7 i` to a sum that holds the last byte's top bit takes that bit away. */
  lemma {:induction false} TopBitCancels(s: seq<Byte>, i: nat, byte: int)
    requires i <= |s|
    ensures Low(s, i) + Power(i) + Scale(byte as int - 1, i) == Low(s, i) + Scale(byte, i)
  {
    ScaleAdds(byte as int - 1, 1, i);
    ScaleOfOne(i);
  }

  lemma {:induction false} TopBitCarries(s: seq<Byte>, i: nat)
    requires i < |s|
    ensures Low(s, i) + Scale(s[i], i) == Low(s, i + 1) + Power(i + 1)
  {
    LowNext(s, i);
    ScaleAdds(s[i] as int - 128, 128, i);
    ScaleOfOne(i);
  }

  /** One more byte, in unbounded arithmetic. */
  lemma {:induction false} AddByte(s: seq<Byte>, i: nat)
    requires Continues(s, i) && i < |s|
    ensures var sum := Low(s, i) + Power(i) + Scale(s[i] as int - 1, i);
      && (s[i] < 128 ==> sum >= 0 && Decode(s) == Some((sum, i + 1)))
      && (s[i] >= 128 ==> Continues(s, i + 1) && sum == Low(s, i + 1) + Power(i + 1) && 0 <= sum < Power(i + 1) + Power(i + 1))
  {
    TopBitCancels(s, i, s[i]);
    LowWithin(s, i);
    ScaleSign(s[i], i);
    if s[i] < 128 {
      DecodedAt(s, i);
    } else {
      TopBitCarries(s, i);
      LowWithin(s, i + 1);
    }
  }

  lemma {:induction false} TwoPowers(i: nat)
    ensures i <= 4 ==> Power(i) + Power(i) <= 0x2000_0000
    ensures i <= 9 ==> Power(i) + Power(i) <= 0x1_0000_0000_0000_0000
  {
    Powers();
    if i <= 9 { PowerGrows(i, 9); }
    if i <= 4 {
      PowerGrows(i, 4);
      assert Power(5) == 128 * Power(4);
    }
  }

  lemma {:induction false} PowerGrows(i: nat, j: nat)
    requires i <= j
    ensures Power(i) <= Power(j)
    decreases j
  {
    if i < j { PowerGrows(i, j - 1); }
  }

  // ---------- readers ----------

  /** Bytes past the end of the input read as no varint at all. */
  method VarintParse(p: seq<Byte>) returns (r: Option<(nat, nat)>)
    ensures r == Read64(p)
  {
    NotDecodedYet(p, 0);
    if |p| == 0 { return None; }
    var res: nat := p[0];
    if res < 128 { return Some((res, 1)); }
    NotDecodedYet(p, 1);
    if |p| == 1 { return None; }
    var byte := p[1];
    AddByte(p, 1);
    SecondByte(p);
    res := res + Scale(byte as int - 1, 1);
    if byte < 128 { return Some((res, 2)); }
    r := VarintParseSlow64(p, res);
  }

  lemma {:induction false} SecondByte(p: seq<Byte>)
    requires |p| >= 2 && p[0] >= 128
    ensures Low(p, 1) + Power(1) == p[0]
    ensures 0 <= p[0] + Scale(p[1] as int - 1, 1) < 0x1_0000_0000
  {
  }

  method VarintParseSlow64(p: seq<Byte>, res32: nat) returns (r: Option<(nat, nat)>)
    requires Continues(p, 2) && res32 == Low(p, 2) + Power(2)
    ensures r == Read64(p)
  {
    var res: nat := res32;
    var i := 2;
    while i < 10
      invariant 2 <= i <= 10 && Continues(p, i)
      invariant i < 10 ==> res == Low(p, i) + Power(i)
    {
      NotDecodedYet(p, i);
      if i == |p| { return None; }
      var byte := p[i];
      AddByte(p, i);
      TwoPowers(i + 1);
      res := (res + Scale(byte as int - 1, i)) % 0x1_0000_0000_0000_0000;
      if byte < 128 { return Some((res, i + 1)); }
      i := i + 1;
    }
    NotDecodedYet(p, 10);
    return None;
  }

  method ReadTag(p: seq<Byte>) returns (r: Option<(nat, nat)>)
    ensures r == ReadTag32(p)
  {
    NotDecodedYet(p, 0);
    if |p| == 0 { return None; }
    var res: nat := p[0];
    if res < 128 { return Some((res, 1)); }
    NotDecodedYet(p, 1);
    if |p| == 1 { return None; }
    var second := p[1];
    AddByte(p, 1);
    SecondByte(p);
    res := res + Scale(second as int - 1, 1);
    if second < 128 { return Some((res, 2)); }
    r := ReadTagFallback(p, res);
  }

  method ReadTagFallback(p: seq<Byte>, res0: nat) returns (r: Option<(nat, nat)>)
    requires Continues(p, 2) && res0 == Low(p, 2) + Power(2)
    ensures r == ReadTag32(p)
  {
    var res := res0;
    var i := 2;
    while i < 5
      invariant 2 <= i <= 5 && Continues(p, i)
      invariant i < 5 ==> res == Low(p, i) + Power(i)
    {
      NotDecodedYet(p, i);
      if i == |p| { return None; }
      var byte := p[i];
      AddByte(p, i);
      TwoPowers(i + 1);
      res := (res + Scale(byte as int - 1, i)) % 0x1_0000_0000;
      if byte < 128 { return Some((res, i + 1)); }
      i := i + 1;
    }
    NotDecodedYet(p, 5);
    return None;
  }

  method ReadSize(p: seq<Byte>) returns (r: Option<(nat, nat)>)
    ensures r == ReadSize31(p)
  {
    NotDecodedYet(p, 0);
    if |p| == 0 { return None; }
    var res := p[0];
    if res < 128 { return Some((res, 1)); }
    r := ReadSizeFallback(p, res);
  }

  method ReadSizeFallback(p: seq<Byte>, res0: nat) returns (r: Option<(nat, nat)>)
    requires Continues(p, 1) && res0 == p[0]
    ensures r == ReadSize31(p)
  {
    var res := res0;
    OneByte(p);
    var i := 1;
    while i < 4
      invariant 1 <= i <= 4 && Continues(p, i)
      invariant res == Low(p, i) + Power(i)
    {
      NotDecodedYet(p, i);
      if i == |p| { return None; }
      var byte := p[i];
      AddByte(p, i);
      SmallSize(p, i);
      TwoPowers(i + 1);
      res := (res + Scale(byte as int - 1, i)) % 0x1_0000_0000;
      if byte < 128 { return Some((res, i + 1)); }
      i := i + 1;
    }
    r := LastOfSize(p, res);
  }

  /** The fifth byte, and the limit. */
  method LastOfSize(p: seq<Byte>, res: int) returns (r: Option<(nat, nat)>)
    requires Continues(p, 4) && res == Low(p, 4) + Power(4)
    ensures r == ReadSize31(p)
  {
    NotDecodedYet(p, 4);
    if |p| == 4 { return None; }
    var byte := p[4];
    LastSizeByte(p);
    if byte >= 8 { return None; }
    var sum := (res + Scale(byte as int - 1, 4)) % 0x1_0000_0000;
    if sum > INT_MAX - SLOP { return None; }
    return Some((sum, 5));
  }

  lemma {:induction false} OneByte(p: seq<Byte>)
    requires |p| > 0 && p[0] >= 128
    ensures p[0] == Low(p, 1) + Power(1)
  {
  }

  /** A size of at most four bytes is never too large. */
  lemma {:induction false} SmallSize(s: seq<Byte>, i: nat)
    requires Continues(s, i) && i < 4 && i < |s|
    ensures s[i] < 128 ==> Decode(s).Some? && 0 <= Decode(s).value.0 < Power(i + 1)
    ensures Power(i + 1) <= 0x1000_0000
  {
    LowWithin(s, i);
    TwoPowers(i + 1);
    if s[i] < 128 {
      DecodedAt(s, i);
      ScaleWithin(s[i], i);
    }
  }

  lemma {:induction false} ScaleWithin(x: nat, k: nat)
    requires x < 128
    ensures 0 <= Scale(x, k) <= Power(k + 1) - Power(k)
  {
    if k > 0 { ScaleWithin(x, k - 1); }
  }

  /** The fifth byte of a size: eight and above means two gigabytes or more, or a sixth byte. */
  lemma {:induction false} LastSizeByte(s: seq<Byte>)
    requires Continues(s, 4) && |s| > 4
    ensures s[4] >= 8 ==> ReadSize31(s) == None
    ensures s[4] < 8 ==> 0 <= Low(s, 4) + Power(4) + Scale(s[4] as int - 1, 4) < 0x1_0000_0000
    ensures s[4] < 8 ==> Decode(s).Some? && Decode(s).value == (Low(s, 4) + Power(4) + Scale(s[4] as int - 1, 4), 5)
  {
    AddByte(s, 4);
    LowWithin(s, 4);
    FourGroups(s[4]);
    TopBitCancels(s, 4, s[4]);
    if s[4] >= 128 { NotDecodedYet(s, 5); }
  }

  lemma {:induction false} FourGroups(x: int)
    ensures Scale(x, 4) == 0x1000_0000 * x && Power(4) == 0x1000_0000
  {
    assert Scale(x, 1) == 128 * x;
    assert Scale(x, 2) == 0x4000 * x;
    assert Scale(x, 3) == 0x20_0000 * x;
    assert Power(1) == 128;
    assert Power(2) == 0x4000;
    assert Power(3) == 0x20_0000;
  }

  // ---------- the writer ----------

  /** A byte with its top bit set. */
  function OrTop(b: Byte): Byte {
    if b < 128 then b + 128 else b
  }

  /** Writes `v` at `target[at..]` and nothing else. */
  method UnsafeVarint(v: nat, target: array<Byte>, at: nat) returns (ptr: nat)
    requires at + |Encode(v)| <= target.Length
    modifies target
    ensures ptr == at + |Encode(v)| && target[at..ptr] == Encode(v)
    ensures target[..at] == old(target[..at]) && target[ptr..] == old(target[ptr..])
  {
    var value := v;
    EncodeStep(value);
    target[at] := value % 256;
    if value < 0x80 { return at + 1; }
    target[at] := OrTop(target[at]);
    value := value / 128;
    EncodeStep(value);
    target[at + 1] := value % 256;
    if value < 0x80 { return at + 2; }
    ptr := WriteRest(value, target, at + 2);
    assert target[at..ptr] == [target[at]] + target[at + 1..ptr];
  }

  /** The loop: the last byte written still lacks its top bit. */
  method WriteRest(v: nat, target: array<Byte>, next: nat) returns (ptr: nat)
    requires next > 0 && v >= 0x80 && next - 1 + |Encode(v)| <= target.Length && target[next - 1] == LowByte(v)
    modifies target
    ensures ptr == next - 1 + |Encode(v)| && target[next - 1..ptr] == Encode(v)
    ensures target[..next - 1] == old(target[..next - 1]) && target[ptr..] == old(target[ptr..])
  {
    ghost var b, t0, start := Encode(v), target[..], next - 1;
    var value := v;
    ptr := next;
    while value >= 0x80
      invariant next <= ptr && Out(target[..], t0, start, b, ptr - next, value)
      decreases value
    {
      NextOut(target[..], t0, start, b, ptr - next, value);
      WriteNext(target, ptr, value);
      value := Shift7(value);
      ptr := ptr + 1;
    }
    WrittenWhole(target[..], t0, start, b, ptr - next, value);
  }

  method WriteNext(target: array<Byte>, ptr: nat, value: nat)
    requires 0 < ptr < target.Length && target[ptr - 1] == LowByte(value)
    modifies target
    ensures target[..] == old(target[..])[ptr - 1 := OrTop(LowByte(value))][ptr := LowByte(Shift7(value))]
  {
    target[ptr - 1] := OrTop(target[ptr - 1]);
    target[ptr] := LowByte(Shift7(value));
  }

  /** `n` bytes of `b` are written, then one that still lacks its top bit; `value` is what is left. */
  ghost predicate Out(t: seq<Byte>, t0: seq<Byte>, start: nat, b: seq<Byte>, n: nat, value: nat) {
    && |t| == |t0| && start + |b| <= |t| && n < |b| && b[n..] == Encode(value)
    && (forall k | 0 <= k < start :: t[k] == t0[k])
    && (forall k | 0 <= k < n :: t[start + k] == b[k])
    && t[start + n] == LowByte(value)
    && (forall k | start + n < k < |t| :: t[k] == t0[k])
  }

  /** One turn of the loop on the whole buffer. */
  lemma {:induction false} NextOut(t: seq<Byte>, t0: seq<Byte>, start: nat, b: seq<Byte>, n: nat, value: nat)
    requires Out(t, t0, start, b, n, value) && value >= 128
    ensures var p := start + n;
      && p + 1 < |t| && t[p] == LowByte(value) && Shift7(value) < value
      && Out(t[p := OrTop(LowByte(value))][p + 1 := LowByte(Shift7(value))], t0, start, b, n + 1, Shift7(value))
  {
    NextByte(b, n, value);
  }

  lemma {:induction false} WrittenWhole(t: seq<Byte>, t0: seq<Byte>, start: nat, b: seq<Byte>, n: nat, value: nat)
    requires Out(t, t0, start, b, n, value) && value < 128
    ensures |t| == |t0| && n + 1 == |b| && t[start..start + |b|] == b
    ensures t[..start] == t0[..start] && t[start + |b|..] == t0[start + |b|..]
  {
    LastByte(b, n, value);
  }

  function LowByte(v: nat): Byte { v % 256 }

  function Shift7(v: nat): nat { v / 128 }

  lemma {:induction false} NextByte(b: seq<Byte>, i: nat, v: nat)
    requires i <= |b| && b[i..] == Encode(v) && v >= 128
    ensures i + 1 < |b| && b[i] == OrTop(LowByte(v)) && b[i + 1..] == Encode(Shift7(v))
    ensures Shift7(v) < v
  {
  }

  lemma {:induction false} LastByte(b: seq<Byte>, i: nat, v: nat)
    requires i <= |b| && b[i..] == Encode(v) && v < 128
    ensures i + 1 == |b| && b[i] == LowByte(v)
  {
  }

  lemma {:induction false} TopOfLow(v: nat)
    ensures OrTop(v % 256) == 128 + v % 128
  {
    LowOfLow(v / 256, v % 256);
  }

  lemma {:induction false} LowOfLow(q: nat, m: nat)
    requires m < 256
    ensures (256 * q + m) % 128 == m % 128
  {
  }

  lemma {:induction false} EncodeStep(v: nat)
    ensures |Encode(v)| >= 1
    ensures v >= 128 ==> Encode(v) == [128 + v % 128] + Encode(v / 128) && OrTop(v % 256) == 128 + v % 128
    ensures v < 128 ==> Encode(v) == [v] && v % 256 == v
  {
    TopOfLow(v);
  }
}
