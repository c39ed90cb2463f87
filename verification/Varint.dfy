/** Base 128 varints: the bytes the serializers write, the bytes the parsers accept, and the size formula. */
module Varint {
  import opened Options

  type Byte = b: int | 0 <= b < 256

  type Uint64 = v: int | 0 <= v < 0x1_0000_0000_0000_0000

  type Int32 = v: int | -0x8000_0000 <= v < 0x8000_0000

  const TWO_32 := 0x1_0000_0000
  const TWO_64 := 0x1_0000_0000_0000_0000
  const INT_MAX := 0x7FFF_FFFF
  const SLOP := 16

  // ---------- the format ----------

  /** Low group of seven bits first; every byte but the last has its top bit set. */
  function Encode(v: nat): (b: seq<Byte>) {
    if v < 128 then [v] else [128 + v % 128] + Encode(v / 128)
  }

  /** The varint at the front of `s`, of any length: its value and how many bytes it takes. */
  function Decode(s: seq<Byte>): Option<(nat, nat)> {
    if s == [] then None
    else if s[0] < 128 then Some((s[0], 1))
    else
      match Decode(s[1..])
      case None => None
      case Some((v, n)) => Some((s[0] - 128 + 128 * v, n + 1))
  }

  /** What a reader that takes at most ten bytes and keeps 64 bits makes of it. */
  function Read64(s: seq<Byte>): Option<(nat, nat)> {
    match Decode(s)
    case Some((v, n)) => if n <= 10 then Some((v % 0x1_0000_0000_0000_0000, n)) else None
    case None => None
  }

  /** Tags: at most five bytes, 32 bits. */
  function ReadTag32(s: seq<Byte>): Option<(nat, nat)> {
    match Decode(s)
    case Some((v, n)) => if n <= 5 then Some((v % 0x1_0000_0000, n)) else None
    case None => None
  }

  /** Sizes: at most five bytes, and not close to the largest int. */
  function ReadSize31(s: seq<Byte>): Option<(nat, nat)> {
    match Decode(s)
    case Some((v, n)) => if n <= 5 && v <= INT_MAX - SLOP then Some((v, n)) else None
    case None => None
  }

  lemma {:induction false} DecodeShape(s: seq<Byte>)
    ensures Decode(s).Some? ==> 1 <= Decode(s).value.1 <= |s|
  {
    if s != [] && s[0] >= 128 { DecodeShape(s[1..]); }
  }

  /** Whatever follows, decoding what was encoded gives the value back and stops right behind it. */
  lemma {:induction false} EncodeThenDecode(v: nat, rest: seq<Byte>)
    ensures Decode(Encode(v) + rest) == Some((v, |Encode(v)|))
    decreases v
  {
    var s := Encode(v) + rest;
    if v >= 128 {
      EncodeThenDecode(v / 128, rest);
      assert s[1..] == Encode(v / 128) + rest;
    }
  }

  /** Only the bytes of the varint matter. */
  lemma {:induction false} DecodeFront(s: seq<Byte>, rest: seq<Byte>)
    requires Decode(s).Some?
    ensures Decode(s + rest) == Decode(s)
  {
    if s[0] >= 128 {
      DecodeFront(s[1..], rest);
      assert (s + rest)[1..] == s[1..] + rest;
    }
  }

  // ---------- lengths ----------

  /** 128 to the power k. */
  function Power(k: nat): (p: nat)
    ensures p > 0
  {
    if k == 0 then 1 else 128 * Power(k - 1)
  }

  lemma {:induction false} EncodedWithin(v: nat, k: nat)
    requires v < Power(k) && k > 0
    ensures 1 <= |Encode(v)| <= k
    decreases v
  {
    if v >= 128 {
      assert Power(k) == 128 * Power(k - 1);
      assert Power(0) == 1;
      EncodedWithin(v / 128, k - 1);
    }
  }

  lemma {:induction false} Powers()
    ensures Power(5) == 0x8_0000_0000 && Power(9) == 0x8000_0000_0000_0000 && Power(10) == 0x40_0000_0000_0000_0000
  {
  }

  /** Every 64-bit value survives, in at most ten bytes. */
  lemma {:induction false} RoundTrip64(v: nat, rest: seq<Byte>)
    requires v < TWO_64
    ensures Read64(Encode(v) + rest) == Some((v, |Encode(v)|))
    ensures 1 <= |Encode(v)| <= 10
  {
    EncodeThenDecode(v, rest);
    Powers();
    EncodedWithin(v, 10);
  }

  lemma {:induction false} RoundTripTag(v: nat, rest: seq<Byte>)
    requires v < TWO_32
    ensures ReadTag32(Encode(v) + rest) == Some((v, |Encode(v)|))
    ensures 1 <= |Encode(v)| <= 5
  {
    EncodeThenDecode(v, rest);
    Powers();
    EncodedWithin(v, 5);
  }

  /** A written size is read back exactly when the reader takes sizes so large. */
  lemma {:induction false} RoundTripSize(v: nat, rest: seq<Byte>)
    ensures v <= INT_MAX - SLOP ==> ReadSize31(Encode(v) + rest) == Some((v, |Encode(v)|))
    ensures v > INT_MAX - SLOP ==> ReadSize31(Encode(v) + rest) == None
  {
    EncodeThenDecode(v, rest);
    if v <= INT_MAX - SLOP {
      Powers();
      EncodedWithin(v, 5);
    }
  }

  // ---------- the size formula ----------

  function Log2Floor(v: nat): nat
    requires v > 0
  {
    if v == 1 then 0 else 1 + Log2Floor(v / 2)
  }

  /** `v` with its lowest bit set. */
  function OrOne(v: nat): (w: nat)
    ensures w > 0
  {
    if v % 2 == 0 then v + 1 else v
  }

  /** A multiplication and a shift in place of a division by seven. */
  function VarintSize(v: nat): nat {
    (Log2Floor(OrOne(v)) * 9 + 73) / 64
  }

  lemma {:induction false} LogOfOrOne(v: nat)
    ensures Log2Floor(OrOne(v)) == if v == 0 then 0 else Log2Floor(v)
  {
  }

  lemma {:induction false} LogOfShift(v: nat)
    requires v >= 128
    ensures Log2Floor(v) == 7 + Log2Floor(v / 128)
  {
    assert Log2Floor(v) == 1 + Log2Floor(v / 2);
    assert Log2Floor(v / 2) == 1 + Log2Floor(v / 4) by { assert v / 2 / 2 == v / 4; }
    assert Log2Floor(v / 4) == 1 + Log2Floor(v / 8) by { assert v / 4 / 2 == v / 8; }
    assert Log2Floor(v / 8) == 1 + Log2Floor(v / 16) by { assert v / 8 / 2 == v / 16; }
    assert Log2Floor(v / 16) == 1 + Log2Floor(v / 32) by { assert v / 16 / 2 == v / 32; }
    assert Log2Floor(v / 32) == 1 + Log2Floor(v / 64) by { assert v / 32 / 2 == v / 64; }
    assert Log2Floor(v / 64) == 1 + Log2Floor(v / 128) by { assert v / 64 / 2 == v / 128; }
  }

  lemma {:induction false} SmallLog(v: nat)
    requires 0 < v < 128
    ensures Log2Floor(v) < 7
  {
    if v >= 2 { SmallerLog(v / 2, 6); }
  }

  lemma {:induction false} SmallerLog(v: nat, k: nat)
    requires 0 < v && 0 < k <= 6
    requires k == 6 ==> v < 64
    requires k == 5 ==> v < 32
    requires k == 4 ==> v < 16
    requires k == 3 ==> v < 8
    requires k == 2 ==> v < 4
    requires k == 1 ==> v < 2
    ensures Log2Floor(v) < k
  {
    if v >= 2 { SmallerLog(v / 2, k - 1); }
  }

  lemma {:induction false} LengthByLog(v: nat)
    requires v > 0
    ensures |Encode(v)| == Log2Floor(v) / 7 + 1
    decreases v
  {
    if v < 128 {
      SmallLog(v);
    } else {
      LogOfShift(v);
      LengthByLog(v / 128);
    }
  }

  lemma {:induction false} LogWithin(v: nat, n: nat)
    requires 0 < v
    requires |Encode(v)| <= n
    ensures Log2Floor(v) < 7 * n
  {
    LengthByLog(v);
  }

  lemma {:induction false} NineOverSixtyFour(l: nat)
    requires l < 70
    ensures (l * 9 + 73) / 64 == l / 7 + 1
  {
  }

  lemma {:induction false} AtLeastOne(l: nat)
    ensures (l * 9 + 73) / 64 >= 1
  {
  }

  /** The formula counts the bytes written, for every 64-bit value. */
  lemma {:induction false} VarintSizeIsLength(v: nat)
    requires v < TWO_64
    ensures VarintSize(v) == |Encode(v)|
  {
    LogOfOrOne(v);
    if v > 0 {
      RoundTrip64(v, []);
      LogWithin(v, 10);
      LengthByLog(v);
      NineOverSixtyFour(Log2Floor(v));
    }
  }
}
