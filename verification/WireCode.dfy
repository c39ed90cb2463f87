/** What the generated parse and serialize methods share: single steps of the parse loop, and the array
    writers. */
module WireCode {
  import opened Options
  import opened Varint
  import opened VarintCode
  import opened Wire

  /** How a parse method returns: with a pointer, with a null pointer, or into code outside this model. */
  datatype End = Success | Failure | Elsewhere

  /** It returned as `spec` says, leaving `value` behind. */
  ghost predicate Ends<M>(end: End, value: M, spec: Outcome<M>) {
    match spec
    case Done(m) => end.Success? && value == m
    case Failed => end.Failure?
    case Unknown => end.Elsewhere?
  }

  // ---------- one turn of the parse loop ----------

  /** One turn starts with the tag. */
  lemma {:induction false} TagTurn<M>(tags: set<nat>, take: (M, Field) -> Outcome<M>, m: M, s: seq<Byte>)
    requires s != []
    ensures match ReadTag32(s)
      case None => Parse(tags, take, m, s) == Failed
      case Some((tag, n)) => 0 < n <= |s| && Parse(tags, take, m, s) == AfterTag(tags, take, m, tag, s[n..])
  {
    DecodeShape(s);
  }

  /** A number follows the tag. */
  lemma {:induction false} NumberTurn<M>(tags: set<nat>, take: (M, Field) -> Outcome<M>, m: M, tag: nat, s: seq<Byte>)
    requires tag in tags && !LengthDelimited(tag)
    ensures match Read64(s)
      case None => AfterTag(tags, take, m, tag, s) == Failed
      case Some((v, k)) =>
        && 0 < k <= |s| && v < TWO_64
        && AfterTag(tags, take, m, tag, s) == Then(tags, take, take(m, Field(tag, Number(v))), s[k..])
  {
    DecodeShape(s);
  }

  /** A size and that many bytes follow the tag. */
  lemma {:induction false} ContentTurn<M>(tags: set<nat>, take: (M, Field) -> Outcome<M>, m: M, tag: nat, s: seq<Byte>)
    requires tag in tags && LengthDelimited(tag)
    ensures match ReadSize31(s)
      case None => AfterTag(tags, take, m, tag, s) == Failed
      case Some((size, k)) =>
        && 0 < k <= |s|
        && AfterTag(tags, take, m, tag, s) ==
          if size > |s[k..]| then Failed
          else Then(tags, take, take(m, Field(tag, Content(s[k..][..size]))), s[k..][size..])
  {
    DecodeShape(s);
  }

  // ---------- array writers ----------

  /** `target` holds `b` at `at` up to `end`, and is elsewhere as `before`. */
  ghost predicate Wrote(target: seq<Byte>, before: seq<Byte>, at: nat, end: nat, b: seq<Byte>) {
    && |target| == |before| && at + |b| == end <= |target|
    && target[at..end] == b && target[..at] == before[..at] && target[end..] == before[end..]
  }

  lemma {:induction false} WroteMore(t0: seq<Byte>, t1: seq<Byte>, t2: seq<Byte>, at: nat, mid: nat, end: nat, a: seq<Byte>, b: seq<Byte>)
    requires Wrote(t1, t0, at, mid, a) && Wrote(t2, t1, mid, end, b)
    ensures Wrote(t2, t0, at, end, a + b)
  {
  }

  method WriteVarintToArray(v: nat, target: array<Byte>, at: nat) returns (end: nat)
    requires at + |Encode(v)| <= target.Length
    modifies target
    ensures Wrote(target[..], old(target[..]), at, end, Encode(v))
  {
    ghost var before := target[..];
    end := UnsafeVarint(v, target, at);
    assert target[..][at..end] == target[at..end];
    assert target[..][..at] == target[..at] == before[..at];
    assert target[..][end..] == target[end..] == before[end..];
  }

  method WriteBytes(b: seq<Byte>, target: array<Byte>, at: nat) returns (end: nat)
    requires at + |b| <= target.Length
    modifies target
    ensures Wrote(target[..], old(target[..]), at, end, b)
  {
    end := at + |b|;
    forall i | 0 <= i < |b| { target[at + i] := b[i]; }
  }

  method WriteNumberToArray(tag: nat, v: Uint64, target: array<Byte>, at: nat) returns (end: nat)
    requires at + |Write(Field(tag, Number(v)))| <= target.Length
    modifies target
    ensures Wrote(target[..], old(target[..]), at, end, Write(Field(tag, Number(v))))
  {
    ghost var t0 := target[..];
    var mid := WriteVarintToArray(tag, target, at);
    ghost var t1 := target[..];
    end := WriteVarintToArray(v, target, mid);
    WroteMore(t0, t1, target[..], at, mid, end, Encode(tag), Encode(v));
  }

  method WriteStringToArray(tag: nat, s: seq<Byte>, target: array<Byte>, at: nat) returns (end: nat)
    requires at + |Write(Field(tag, Content(s)))| <= target.Length
    modifies target
    ensures Wrote(target[..], old(target[..]), at, end, Write(Field(tag, Content(s))))
  {
    ghost var t0 := target[..];
    var mid := WriteVarintToArray(tag, target, at);
    ghost var t1 := target[..];
    var body := WriteVarintToArray(|s|, target, mid);
    ghost var t2 := target[..];
    end := WriteBytes(s, target, body);
    WroteMore(t1, t2, target[..], mid, body, end, Encode(|s|), s);
    WroteMore(t0, t1, target[..], at, mid, end, Encode(tag), Encode(|s|) + s);
  }
}
