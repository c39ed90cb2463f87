/** Fields on the wire and the parse loop every generated message shares: read a tag, read what it announces,
    let the message take it, go on.  Section "Message Structure" of the Protocol Buffers encoding. */
module Wire {
  import opened Sequences
  import opened Options
  import opened Varint

  datatype Payload = Number(value: Uint64) | Content(bytes: seq<Byte>)

  datatype Field = Field(tag: nat, payload: Payload)

  /** How a parse ends.  `Unknown`: it met a field the message does not declare, which is kept aside by code
      that is not part of this model. */
  datatype Outcome<M> = Done(message: M) | Failed | Unknown

  /** A field and what follows it. */
  datatype Step = Read(field: Field, rest: seq<Byte>) | Bad

  // ---------- one field ----------

  predicate LengthDelimited(tag: nat) {
    tag % 8 == 2
  }

  /** Zero, or the end of a group: no field starts here. */
  predicate Stops(tag: nat) {
    tag == 0 || tag % 8 == 4
  }

  function ReadNumber(tag: nat, s: seq<Byte>): Step {
    match Read64(s)
    case None => Bad
    case Some((v, k)) =>
      DecodeShape(s);
      Read(Field(tag, Number(v)), s[k..])
  }

  function ReadContent(tag: nat, s: seq<Byte>): Step {
    match ReadSize31(s)
    case None => Bad
    case Some((size, k)) =>
      DecodeShape(s);
      var body := s[k..];
      if size <= |body| then Read(Field(tag, Content(body[..size])), body[size..]) else Bad
  }

  /** What follows the tag. */
  function ReadPayload(tag: nat, s: seq<Byte>): Step {
    if LengthDelimited(tag) then ReadContent(tag, s) else ReadNumber(tag, s)
  }

  lemma {:induction false} PayloadTakesBytes(tag: nat, s: seq<Byte>)
    ensures ReadPayload(tag, s).Read? ==> |ReadPayload(tag, s).rest| < |s|
  {
    DecodeShape(s);
  }

  // ---------- the loop ----------

  /** Parses all of `s` into `m`, a message that declares `tags`; `take` is what it does with one field. */
  function Parse<M>(tags: set<nat>, take: (M, Field) -> Outcome<M>, m: M, s: seq<Byte>): Outcome<M>
    decreases |s|, 0
  {
    if s == [] then Done(m)
    else
      match ReadTag32(s)
      case None => Failed
      case Some((tag, n)) =>
        DecodeShape(s);
        AfterTag(tags, take, m, tag, s[n..])
  }

  /** What is left to do after a tag has been read. */
  function AfterTag<M>(tags: set<nat>, take: (M, Field) -> Outcome<M>, m: M, tag: nat, s: seq<Byte>): Outcome<M>
    decreases |s|, 0
  {
    if tag in tags then
      PayloadTakesBytes(tag, s);
      match ReadPayload(tag, s)
      case Read(field, rest) => Then(tags, take, take(m, field), rest)
      case Bad => Failed
    else if Stops(tag) then Failed
    else Unknown
  }

  /** What is left to do after a field has been offered. */
  function Then<M>(tags: set<nat>, take: (M, Field) -> Outcome<M>, taken: Outcome<M>, s: seq<Byte>): Outcome<M>
    decreases |s|, 1
  {
    match taken
    case Done(m) => Parse(tags, take, m, s)
    case Failed => Failed
    case Unknown => Unknown
  }

  /** The same over a list of fields already separated. */
  function Absorb<M>(take: (M, Field) -> Outcome<M>, m: M, fields: seq<Field>): Outcome<M> {
    if fields == [] then Done(m)
    else if !Fits(fields[0]) then Failed
    else
      match take(m, fields[0])
      case Failed => Failed
      case Unknown => Unknown
      case Done(m') => Absorb(take, m', fields[1..])
  }

  /** Short enough for the size reader. */
  predicate Fits(f: Field) {
    f.payload.Content? ==> |f.payload.bytes| <= INT_MAX - SLOP
  }

  // ---------- writing ----------

  function Write(f: Field): seq<Byte> {
    Encode(f.tag) +
    match f.payload
    case Number(v) => Encode(v)
    case Content(b) => Encode(|b|) + b
  }

  function WriteAll(fields: seq<Field>): seq<Byte> {
    if fields == [] then [] else Write(fields[0]) + WriteAll(fields[1..])
  }

  /** A field a message that declares `tags` may write. */
  predicate Declared(tags: set<nat>, f: Field) {
    && f.tag in tags && f.tag < TWO_32
    && (LengthDelimited(f.tag) <==> f.payload.Content?)
  }

  predicate AllDeclared(tags: set<nat>, fields: seq<Field>) {
    forall i | 0 <= i < |fields| :: Declared(tags, fields[i])
  }

  /** A written field is read back whole, whatever follows, exactly when it fits. */
  lemma {:induction false} WriteThenRead(tags: set<nat>, f: Field, rest: seq<Byte>)
    requires Declared(tags, f)
    ensures var s := Write(f) + rest;
      && s != [] && ReadTag32(s) == Some((f.tag, |Encode(f.tag)|)) && |Encode(f.tag)| <= |s|
      && ReadPayload(f.tag, s[|Encode(f.tag)|..]) == if Fits(f) then Read(f, rest) else Bad
  {
    var s := Write(f) + rest;
    match f.payload
    case Number(v) =>
      assert s == Encode(f.tag) + (Encode(v) + rest);
      RoundTripTag(f.tag, Encode(v) + rest);
      assert s[|Encode(f.tag)|..] == Encode(v) + rest;
      RoundTrip64(v, rest);
      assert (Encode(v) + rest)[|Encode(v)|..] == rest;
    case Content(b) =>
      var inner := Encode(|b|) + (b + rest);
      assert s == Encode(f.tag) + inner;
      RoundTripTag(f.tag, inner);
      assert s[|Encode(f.tag)|..] == inner;
      RoundTripSize(|b|, b + rest);
      var body := inner[|Encode(|b|)|..];
      assert body == b + rest && body[..|b|] == b && body[|b|..] == rest;
  }

  /** Parsing a written field offers it to the message and goes on behind it. */
  lemma {:induction false} ParseField<M>(tags: set<nat>, take: (M, Field) -> Outcome<M>, m: M, f: Field, rest: seq<Byte>)
    requires Declared(tags, f)
    ensures Parse(tags, take, m, Write(f) + rest) == if Fits(f) then Then(tags, take, take(m, f), rest) else Failed
  {
    WriteThenRead(tags, f, rest);
  }

  /** Parsing what a list of fields was written as is taking them in one by one. */
  lemma {:induction false} ParseOfWritten<M>(tags: set<nat>, take: (M, Field) -> Outcome<M>, m: M, fields: seq<Field>)
    requires AllDeclared(tags, fields)
    ensures Parse(tags, take, m, WriteAll(fields)) == Absorb(take, m, fields)
    decreases |fields|
  {
    if fields != [] {
      ParseField(tags, take, m, fields[0], WriteAll(fields[1..]));
      var taken := take(m, fields[0]);
      if Fits(fields[0]) && taken.Done? { ParseOfWritten(tags, take, taken.message, fields[1..]); }
    }
  }

  lemma {:induction false} WriteFirst(fields: seq<Field>, w: seq<Byte>, rest: seq<Field>)
    requires fields != [] && w == Write(fields[0]) && rest == fields[1..]
    ensures WriteAll(fields) == w + WriteAll(rest)
  {
  }

  lemma {:induction false} WriteAllAppends(a: seq<Field>, b: seq<Field>)
    ensures WriteAll(a + b) == WriteAll(a) + WriteAll(b)
    decreases |a|
  {
    if a == [] {
      assert a + b == b;
    } else {
      var w, rest, sum := Write(a[0]), a[1..], a + b;
      assert sum[0] == a[0] && sum[1..] == rest + b;
      WriteFirst(a, w, rest);
      WriteFirst(sum, w, rest + b);
      WriteAllAppends(rest, b);
      Associative(w, WriteAll(rest), WriteAll(b));
    }
  }

  /** Taking in two lists in a row. */
  lemma {:induction false} AbsorbAppends<M>(take: (M, Field) -> Outcome<M>, m: M, a: seq<Field>, b: seq<Field>)
    ensures Absorb(take, m, a + b) ==
      if Absorb(take, m, a).Done? then Absorb(take, Absorb(take, m, a).message, b) else Absorb(take, m, a)
    decreases |a|
  {
    if a == [] {
      assert a + b == b;
    } else {
      assert (a + b)[1..] == a[1..] + b;
      if Fits(a[0]) && take(m, a[0]).Done? { AbsorbAppends(take, take(m, a[0]).message, a[1..], b); }
    }
  }

  /** Two messages written one after the other parse as the first, then the second on top of it. */
  lemma {:induction false} ParseOfTwo<M>(tags: set<nat>, take: (M, Field) -> Outcome<M>, m: M, a: seq<Field>, b: seq<Field>)
    requires AllDeclared(tags, a) && AllDeclared(tags, b)
    ensures Parse(tags, take, m, WriteAll(a) + WriteAll(b)) ==
      if Absorb(take, m, a).Done? then Absorb(take, Absorb(take, m, a).message, b) else Absorb(take, m, a)
  {
    WriteAllAppends(a, b);
    ParseOfWritten(tags, take, m, a + b);
    AbsorbAppends(take, m, a, b);
  }

  // ---------- sizes ----------

  /** LengthDelimitedSize: the length is cut to 32 bits before its own size is taken. */
  function LengthDelimitedSize(length: nat): nat {
    length + VarintSize(length % 0x1_0000_0000)
  }

  /** For anything shorter than four gigabytes, the size of the length prefix and of what it announces. */
  lemma {:induction false} LengthDelimitedSizeIs(length: nat)
    ensures LengthDelimitedSize(length) > length
    ensures length < TWO_32 ==> LengthDelimitedSize(length) == |Encode(length)| + length
  {
    AtLeastOne(Log2Floor(OrOne(length % 0x1_0000_0000)));
    if length < TWO_32 {
      assert length % 0x1_0000_0000 == length;
      VarintSizeIsLength(length);
    }
  }
}
