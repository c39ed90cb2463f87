/** How a session cuts the bytes it has received into packets. */
module Framing {
  import opened Sequences
  import opened Varint
  import opened Dispatch

  // ---------- the intended packets ----------

  datatype Cut = Cut(packets: seq<seq<Byte>>, rest: seq<Byte>)

  function SizeField(data: seq<Byte>): nat
    requires |data| >= HEADER
  {
    Number16(data[0], data[1])
  }

  /** A whole packet is there. */
  predicate Complete(data: seq<Byte>) {
    |data| >= HEADER && 0 < SizeField(data) <= |data|
  }

  /** A size of zero: OnRecv never gets past it. */
  predicate Stuck(data: seq<Byte>) {
    |data| >= HEADER && SizeField(data) == 0
  }

  function FirstOf(data: seq<Byte>): seq<Byte>
    requires Complete(data)
  {
    data[..SizeField(data)]
  }

  function RestOf(data: seq<Byte>): seq<Byte>
    requires Complete(data)
  {
    data[SizeField(data)..]
  }

  /** All whole packets at the front, and what is left. */
  function CutUp(data: seq<Byte>): Cut
    decreases |data|
  {
    if Complete(data) then
      var c := CutUp(RestOf(data));
      Cut([FirstOf(data)] + c.packets, c.rest)
    else Cut([], data)
  }

  function Concat(parts: seq<seq<Byte>>): seq<Byte> {
    if parts == [] then [] else parts[0] + Concat(parts[1..])
  }

  // ---------- what is handed over ----------

  /** The buffer is handed over from its start each time, at the length of the packet reached. */
  function HandedOver(buffer: seq<Byte>): seq<seq<Byte>> {
    var packets := CutUp(buffer).packets;
    CutShape(buffer);
    seq(|packets|, i requires 0 <= i < |packets| => buffer[..|packets[i]|])
  }

  lemma {:induction false} CutShape(data: seq<Byte>)
    ensures var c := CutUp(data);
      && Concat(c.packets) + c.rest == data && |c.rest| <= |data|
      && forall i | 0 <= i < |c.packets| :: 0 < |c.packets[i]| <= |data|
    decreases |data|
  {
    if Complete(data) {
      CutShape(RestOf(data));
      var c := CutUp(RestOf(data));
      assert CutUp(data).packets[1..] == c.packets;
      assert data == FirstOf(data) + RestOf(data);
      Associative(FirstOf(data), Concat(c.packets), c.rest);
    } else {
      assert Concat([]) + data == data;
    }
  }

  /** Returns when no whole packet is left, or stays in its loop for ever on a size of zero. */
  method OnRecv(buffer: seq<Byte>) returns (handed: seq<seq<Byte>>, processLen: nat, stuck: bool)
    ensures handed == HandedOver(buffer)
    ensures processLen <= |buffer| && buffer[processLen..] == CutUp(buffer).rest
    ensures stuck <==> Stuck(CutUp(buffer).rest)
  {
    ghost var packets, rest, over := CutUp(buffer).packets, CutUp(buffer).rest, HandedOver(buffer);
    handed, processLen := [], 0;
    while true
      invariant processLen <= |buffer| && |handed| <= |packets| == |over|
      invariant CutUp(buffer[processLen..]) == Cut(packets[|handed|..], rest)
      invariant handed == over[..|handed|]
      decreases |buffer| - processLen
    {
      var data := buffer[processLen..];
      NoPacketLeft(data, packets, |handed|, rest);
      if |data| < HEADER { break; }
      var size := SizeField(data);
      if |data| < size { break; }
      if size == 0 { return handed, processLen, true; }
      NextPacket(data, packets, |handed|, rest);
      NextHandedOver(buffer, |handed|);
      assert buffer[processLen + size..] == RestOf(data);
      handed := handed + [buffer[..size]];
      processLen := processLen + size;
    }
    stuck := false;
  }

  lemma {:induction false} NoPacketLeft(data: seq<Byte>, packets: seq<seq<Byte>>, k: nat, rest: seq<Byte>)
    requires k <= |packets| && CutUp(data) == Cut(packets[k..], rest)
    ensures !Complete(data) ==> k == |packets| && packets[..k] == packets && rest == data
  {
  }

  lemma {:induction false} NextHandedOver(buffer: seq<Byte>, k: nat)
    requires k < |CutUp(buffer).packets|
    ensures |CutUp(buffer).packets[k]| <= |buffer| && k < |HandedOver(buffer)|
    ensures HandedOver(buffer)[..k + 1] == HandedOver(buffer)[..k] + [buffer[..|CutUp(buffer).packets[k]|]]
  {
    CutShape(buffer);
  }

  lemma {:induction false} NextPacket(data: seq<Byte>, packets: seq<seq<Byte>>, k: nat, rest: seq<Byte>)
    requires Complete(data) && k <= |packets| && CutUp(data) == Cut(packets[k..], rest)
    ensures k < |packets| && packets[k] == FirstOf(data) && CutUp(RestOf(data)) == Cut(packets[k + 1..], rest)
  {
  }

  // ---------- when that is right ----------

  /** Sizes that count their own header. */
  predicate WellSized(packets: seq<seq<Byte>>) {
    forall i | 0 <= i < |packets| :: |packets[i]| >= HEADER
  }

  predicate AllAlike(packets: seq<seq<Byte>>) {
    forall i | 0 <= i < |packets| :: packets[i] == packets[0]
  }

  lemma {:induction false} PacketSizes(data: seq<Byte>, i: nat)
    requires i < |CutUp(data).packets| && |CutUp(data).packets[i]| >= HEADER
    ensures SizeField(CutUp(data).packets[i]) == |CutUp(data).packets[i]|
    decreases |data|
  {
    if i > 0 { PacketSizes(RestOf(data), i - 1); }
  }

  /** One call hands over the packets it reached if and only if they are all the same as the first. */
  lemma {:induction false} RightIffAlike(buffer: seq<Byte>)
    requires WellSized(CutUp(buffer).packets)
    ensures HandedOver(buffer) == CutUp(buffer).packets <==> AllAlike(CutUp(buffer).packets)
  {
    var packets := CutUp(buffer).packets;
    CutShape(buffer);
    if packets != [] {
      assert packets[0] == buffer[..|packets[0]|];
      if HandedOver(buffer) == packets {
        forall i | 0 <= i < |packets| ensures packets[i] == packets[0] {
          assert packets[i] == HandedOver(buffer)[i] == buffer[..|packets[i]|];
          PacketSizes(buffer, i);
          PacketSizes(buffer, 0);
        }
      }
    }
  }

  // ---------- over a whole connection ----------

  /** The calls of OnRecv: each sees what the last one left and the next bytes to arrive. */
  function Calls(pending: seq<Byte>, chunks: seq<seq<Byte>>): seq<seq<Byte>>
    decreases |chunks|
  {
    if chunks == [] then []
    else [pending + chunks[0]] + Calls(CutUp(pending + chunks[0]).rest, chunks[1..])
  }

  function Flatten(lists: seq<seq<seq<Byte>>>): seq<seq<Byte>> {
    if lists == [] then [] else lists[0] + Flatten(lists[1..])
  }

  function Reached(calls: seq<seq<Byte>>): seq<seq<seq<Byte>>> {
    seq(|calls|, i requires 0 <= i < |calls| => CutUp(calls[i]).packets)
  }

  function Handed(calls: seq<seq<Byte>>): seq<seq<seq<Byte>>> {
    seq(|calls|, i requires 0 <= i < |calls| => HandedOver(calls[i]))
  }

  lemma {:induction false} FirstStays(a: seq<Byte>, b: seq<Byte>)
    requires Complete(a)
    ensures Complete(a + b) && FirstOf(a + b) == FirstOf(a) && RestOf(a + b) == RestOf(a) + b
  {
  }

  /** Cutting can be interrupted anywhere and taken up again. */
  lemma {:induction false} CutResumes(a: seq<Byte>, b: seq<Byte>)
    ensures CutUp(a + b) == Cut(CutUp(a).packets + CutUp(CutUp(a).rest + b).packets, CutUp(CutUp(a).rest + b).rest)
    decreases |a|
  {
    if Complete(a) {
      FirstStays(a, b);
      CutResumes(RestOf(a), b);
      Associative([FirstOf(a)], CutUp(RestOf(a)).packets, CutUp(CutUp(a).rest + b).packets);
    } else {
      assert [] + CutUp(a + b).packets == CutUp(a + b).packets;
    }
  }

  /** The packets reached do not depend on how the stream is chopped into chunks. */
  lemma {:induction false} ChunkingIsInvisible(pending: seq<Byte>, chunks: seq<seq<Byte>>)
    requires CutUp(pending).packets == []
    ensures Flatten(Reached(Calls(pending, chunks))) == CutUp(pending + Concat(chunks)).packets
    decreases |chunks|
  {
    if chunks == [] {
      assert pending + Concat(chunks) == pending;
    } else {
      var first := pending + chunks[0];
      var rest := CutUp(first).rest;
      CutRestIsCut(first);
      ChunkingIsInvisible(rest, chunks[1..]);
      CutResumes(first, Concat(chunks[1..]));
      Associative(pending, chunks[0], Concat(chunks[1..]));
      var calls := Calls(pending, chunks);
      assert Reached(calls)[1..] == Reached(calls[1..]);
    }
  }

  lemma {:induction false} CutRestIsCut(data: seq<Byte>)
    ensures CutUp(CutUp(data).rest).packets == []
    decreases |data|
  {
    if Complete(data) { CutRestIsCut(RestOf(data)); }
  }

  /** A stream of packets whose size fields are right is cut back into those packets. */
  lemma {:induction false} StreamIsCutBack(packets: seq<seq<Byte>>)
    requires forall i | 0 <= i < |packets| :: |packets[i]| >= HEADER && SizeField(packets[i]) == |packets[i]|
    ensures CutUp(Concat(packets)) == Cut(packets, [])
    decreases |packets|
  {
    if packets != [] {
      var stream := Concat(packets);
      assert FirstOf(stream) == packets[0] && RestOf(stream) == Concat(packets[1..]);
      StreamIsCutBack(packets[1..]);
    }
  }

  lemma {:induction false} FlattenEqual(a: seq<seq<seq<Byte>>>, b: seq<seq<seq<Byte>>>)
    requires |a| == |b| && forall i | 0 <= i < |a| :: |a[i]| == |b[i]|
    ensures Flatten(a) == Flatten(b) <==> a == b
    decreases |a|
  {
    if a != [] {
      FlattenEqual(a[1..], b[1..]);
      var n := |a[0]|;
      assert Flatten(a)[..n] == a[0] && Flatten(b)[..n] == b[0];
      assert Flatten(a)[n..] == Flatten(a[1..]) && Flatten(b)[n..] == Flatten(b[1..]);
      assert a == [a[0]] + a[1..] && b == [b[0]] + b[1..];
    }
  }

  lemma {:induction false} FlattenMember(lists: seq<seq<seq<Byte>>>, i: nat, p: seq<Byte>)
    requires i < |lists| && p in lists[i]
    ensures p in Flatten(lists)
  {
    if i > 0 { FlattenMember(lists[1..], i - 1, p); }
  }

  /** No call reached two packets that differ. */
  predicate AlikePerCall(calls: seq<seq<Byte>>) {
    forall i | 0 <= i < |calls| :: AllAlike(CutUp(calls[i]).packets)
  }

  /** Over any connection and any chopping of a stream of well-formed packets, the packets handed to the handlers
      are the packets sent, in order, if and only if no single call reached two packets that differ. */
  lemma {:induction false} DeliveredIffAlikePerCall(packets: seq<seq<Byte>>, chunks: seq<seq<Byte>>)
    requires forall i | 0 <= i < |packets| :: |packets[i]| >= HEADER && SizeField(packets[i]) == |packets[i]|
    requires Concat(chunks) == Concat(packets)
    ensures Flatten(Handed(Calls([], chunks))) == packets <==> AlikePerCall(Calls([], chunks))
  {
    var calls := Calls([], chunks);
    StreamIsCutBack(packets);
    ChunkingIsInvisible([], chunks);
    assert [] + Concat(chunks) == Concat(chunks);
    assert Flatten(Reached(calls)) == packets;
    HandedRightIffAlike(calls);
  }

  lemma {:induction false} HandedRightIffAlike(calls: seq<seq<Byte>>)
    requires WellSized(Flatten(Reached(calls)))
    ensures Flatten(Handed(calls)) == Flatten(Reached(calls)) <==> AlikePerCall(calls)
  {
    var handed, reached := Handed(calls), Reached(calls);
    forall i | 0 <= i < |calls|
      ensures |handed[i]| == |reached[i]| && (handed[i] == reached[i] <==> AllAlike(CutUp(calls[i]).packets))
    {
      ReachedWellSized(calls, i);
      RightIffAlike(calls[i]);
    }
    FlattenEqual(handed, reached);
  }

  lemma {:induction false} ReachedWellSized(calls: seq<seq<Byte>>, i: nat)
    requires WellSized(Flatten(Reached(calls))) && i < |calls|
    ensures WellSized(CutUp(calls[i]).packets)
  {
    var packets, all := CutUp(calls[i]).packets, Flatten(Reached(calls));
    forall k | 0 <= k < |packets| ensures |packets[k]| >= HEADER {
      FlattenMember(Reached(calls), i, packets[k]);
      var m :| 0 <= m < |all| && all[m] == packets[k];
    }
  }

  /** Four bytes of header, of which the first two are the size, low byte first: a packet of that many bytes is cut
      off if they are all there and the size is not zero, and then the next; otherwise nothing. */
  lemma {:induction false} CutOne(data: seq<Byte>)
    ensures var c := CutUp(data);
      var n := if |data| >= 4 then data[0] as int + 256 * data[1] as int else 0;
      if 0 < n <= |data| then
        c.packets != [] && c.packets[0] == data[..n] && Cut(c.packets[1..], c.rest) == CutUp(data[n..])
      else c == Cut([], data)
    ensures Stuck(data) <==> |data| >= 4 && data[0] == 0 && data[1] == 0
  {
  }

  /** Two different packets arriving together: the first is handed over twice, the second never. */
  lemma {:induction false} SecondPacketLost()
    ensures var p: seq<Byte>, q: seq<Byte> := Header(4, 1000), Header(4, 1002);
      p != q && CutUp(p + q).packets == [p, q] && HandedOver(p + q) == [p, p]
  {
    var p: seq<Byte>, q: seq<Byte> := Header(4, 1000), Header(4, 1002);
    assert p == [4, 0, 232, 3] && q == [4, 0, 234, 3];
    assert (p + q)[..4] == p && (p + q)[4..] == q;
    assert q[..4] == q && q[4..] == [];
    assert CutUp(q).packets == [q];
    assert CutUp(p + q).packets == [p, q];
  }
}
