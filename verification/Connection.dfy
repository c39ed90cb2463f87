/** One direction of a connection, end to end: messages made into packets, the bytes chopped up on the way, cut
    into packets by the receiving session, and handled. */
module Connection {
  import opened Varint
  import opened Wire
  import opened Messages
  import opened PacketIds
  import opened Dispatch
  import opened Framing

  /** What the two generated sides are made from; the prefixes are the sender's. */
  datatype Sides = Sides(recvPrefix: string, sendPrefix: string, startId: nat, names: seq<string>)

  function Sendable(g: Sides): seq<Packet> {
    Assign(g.recvPrefix, g.sendPrefix, g.startId, g.names).send
  }

  function Receivable(g: Sides): seq<Packet> {
    Assign(g.sendPrefix, g.recvPrefix, g.startId, g.names).recv
  }

  /** No name has both prefixes, and all ids have a place in the table. */
  ghost predicate Matched(g: Sides) {
    && (forall name | name in g.names :: !Ambiguous(name, g.recvPrefix, g.sendPrefix))
    && g.startId + |Assign(g.recvPrefix, g.sendPrefix, g.startId, g.names).total| <= 65535
  }

  datatype Sent = Sent(packet: Packet, message: Message)

  ghost predicate Proper(g: Sides, x: Sent) {
    && x.packet in Sendable(g) && x.packet.name == NameOf(x.message) && x.packet.id < 65535
    && |Serialize(x.message)| <= 65531
  }

  ghost predicate AllProper(g: Sides, sent: seq<Sent>) {
    forall i | 0 <= i < |sent| :: Proper(g, sent[i])
  }

  /** What MakeSendBuffer makes of each message. */
  ghost function PacketsOf(g: Sides, sent: seq<Sent>): seq<seq<Byte>>
    requires AllProper(g, sent)
  {
    seq(|sent|, i requires 0 <= i < |sent| => PacketOf(sent[i].message, sent[i].packet.id))
  }

  function HandleAll(utf8: Utf8, recv: seq<Packet>, buffers: seq<seq<Byte>>): seq<Handled> {
    seq(|buffers|, i requires 0 <= i < |buffers| => Handle(utf8, recv, buffers[i]))
  }

  ghost function Wanted(utf8: Utf8, x: Sent): Handled {
    if Travels(utf8, x.message) then Invoked(x.packet.name, x.message) else Rejected
  }

  /** Each message that travels at its own handler, in the order sent. */
  ghost function AllWanted(utf8: Utf8, sent: seq<Sent>): seq<Handled> {
    seq(|sent|, i requires 0 <= i < |sent| => Wanted(utf8, sent[i]))
  }

  /** What the receiving side does, call after call, with the bytes as they arrive. */
  function Outcomes(utf8: Utf8, g: Sides, chunks: seq<seq<Byte>>): seq<Handled> {
    HandleAll(utf8, Receivable(g), Flatten(Handed(Calls([], chunks))))
  }

  /** A packet says its own length, and its id where the dispatch looks for it. */
  lemma {:induction false} PacketShape(m: Message, id: nat)
    requires |Serialize(m)| <= 65531 && id < 65535
    ensures var p := PacketOf(m, id);
      |p| == |Serialize(m)| + HEADER && SizeField(p) == |p| && IdField(p) == id
  {
    Low16Survives(|Serialize(m)| + HEADER);
    Low16Survives(id);
  }

  lemma {:induction false} PacketsAreWellFormed(g: Sides, sent: seq<Sent>)
    requires AllProper(g, sent)
    ensures var packets := PacketsOf(g, sent);
      forall i | 0 <= i < |packets| :: |packets[i]| >= HEADER && SizeField(packets[i]) == |packets[i]|
  {
    forall i | 0 <= i < |sent|
      ensures var p := PacketsOf(g, sent)[i]; |p| >= HEADER && SizeField(p) == |p|
    {
      PacketShape(sent[i].message, sent[i].packet.id);
    }
  }

  lemma {:induction false} EachIsHandled(utf8: Utf8, g: Sides, sent: seq<Sent>)
    requires Matched(g) && AllProper(g, sent)
    ensures HandleAll(utf8, Receivable(g), PacketsOf(g, sent)) == AllWanted(utf8, sent)
  {
    forall i | 0 <= i < |sent| ensures Handle(utf8, Receivable(g), PacketsOf(g, sent)[i]) == Wanted(utf8, sent[i]) {
      assert Proper(g, sent[i]);
      PacketReachesItsHandler(utf8, g.recvPrefix, g.sendPrefix, g.startId, g.names, sent[i].packet, sent[i].message);
    }
  }

  /** From the sender's messages to the receiver's handlers: however the stream is chopped, if no call of OnRecv
      reached two packets that differ, the handlers run exactly for the messages sent, in order, each with an
      equal message (and those that do not travel are rejected). */
  lemma {:induction false} SentIsHandled(utf8: Utf8, g: Sides, sent: seq<Sent>, chunks: seq<seq<Byte>>)
    requires Matched(g) && AllProper(g, sent) && Concat(chunks) == Concat(PacketsOf(g, sent))
    requires AlikePerCall(Calls([], chunks))
    ensures Outcomes(utf8, g, chunks) == AllWanted(utf8, sent)
  {
    PacketsAreWellFormed(g, sent);
    DeliveredIffAlikePerCall(PacketsOf(g, sent), chunks);
    EachIsHandled(utf8, g, sent);
  }

  // ---------- when packets of different handlers share a call ----------

  function HandlerFor(recv: seq<Packet>, p: seq<Byte>): Handler {
    if |p| < HEADER then Invalid else Registered(recv, IdField(p))
  }

  /** No call reached packets meant for two different handlers. */
  ghost predicate OneHandlerPerCall(recv: seq<Packet>, calls: seq<seq<Byte>>) {
    forall c | 0 <= c < |calls| :: OneHandler(recv, CutUp(calls[c]).packets)
  }

  ghost predicate OneHandler(recv: seq<Packet>, packets: seq<seq<Byte>>) {
    forall i | 0 <= i < |packets| :: HandlerFor(recv, packets[i]) == HandlerFor(recv, packets[0])
  }

  /** Only the handler of the buffer's own id can run. */
  lemma {:induction false} OwnHandlerOnly(utf8: Utf8, recv: seq<Packet>, buffer: seq<Byte>)
    ensures var h := Handle(utf8, recv, buffer); h.Invoked? ==> HandlerFor(recv, buffer) == HandlerOf(h.name)
  {
  }

  lemma {:induction false} FlattenAt(lists: seq<seq<seq<Byte>>>, others: seq<seq<seq<Byte>>>, c: nat, i: nat) returns (k: nat)
    requires |lists| == |others| && forall n | 0 <= n < |lists| :: |lists[n]| == |others[n]|
    requires c < |lists| && i < |lists[c]|
    ensures k < |Flatten(lists)| && k < |Flatten(others)|
    ensures Flatten(lists)[k] == lists[c][i] && Flatten(others)[k] == others[c][i]
    decreases c
  {
    if c == 0 {
      k := i;
    } else {
      k := FlattenAt(lists[1..], others[1..], c - 1, i);
      k := k + |lists[0]|;
    }
  }

  /** The i-th packet a call reached is handed over under the first one's header. */
  lemma {:induction false} HandedUnderFirst(recv: seq<Packet>, buffer: seq<Byte>, i: nat)
    requires WellSized(CutUp(buffer).packets) && i < |CutUp(buffer).packets|
    ensures i < |HandedOver(buffer)|
    ensures HandlerFor(recv, HandedOver(buffer)[i]) == HandlerFor(recv, CutUp(buffer).packets[0])
  {
    CutShape(buffer);
    var packets := CutUp(buffer).packets;
    assert packets[0] == buffer[..|packets[0]|];
    assert HandedOver(buffer)[i] == buffer[..|packets[i]|];
  }

  /** Where all messages travel, a call that reached packets of two handlers makes a wrong handler run, or
      none. */
  lemma {:induction false} HandledRightIsOneHandler(utf8: Utf8, g: Sides, sent: seq<Sent>, chunks: seq<seq<Byte>>)
    requires Matched(g) && AllProper(g, sent) && Concat(chunks) == Concat(PacketsOf(g, sent))
    requires forall i | 0 <= i < |sent| :: Travels(utf8, sent[i].message)
    requires Outcomes(utf8, g, chunks) == AllWanted(utf8, sent)
    ensures OneHandlerPerCall(Receivable(g), Calls([], chunks))
  {
    var calls, packets := Calls([], chunks), PacketsOf(g, sent);
    PacketsAreWellFormed(g, sent);
    StreamIsCutBack(packets);
    ChunkingIsInvisible([], chunks);
    assert [] + Concat(chunks) == Concat(chunks);
    forall c | 0 <= c < |calls| ensures OneHandler(Receivable(g), CutUp(calls[c]).packets) {
      OneCallRight(utf8, g, sent, calls, c);
    }
  }

  lemma {:induction false} OneCallRight(utf8: Utf8, g: Sides, sent: seq<Sent>, calls: seq<seq<Byte>>, c: nat)
    requires Matched(g) && AllProper(g, sent) && c < |calls| && Flatten(Reached(calls)) == PacketsOf(g, sent)
    requires WellSized(PacketsOf(g, sent)) && forall i | 0 <= i < |sent| :: Travels(utf8, sent[i].message)
    requires HandleAll(utf8, Receivable(g), Flatten(Handed(calls))) == AllWanted(utf8, sent)
    ensures OneHandler(Receivable(g), CutUp(calls[c]).packets)
  {
    var recv, packets := Receivable(g), CutUp(calls[c]).packets;
    ReachedWellSized(calls, c);
    forall i | 0 <= i < |packets| ensures HandlerFor(recv, packets[i]) == HandlerFor(recv, packets[0]) {
      HandedUnderFirst(recv, calls[c], i);
      var k := ReachedAndHanded(calls, c, i);
      assert HandleAll(utf8, recv, Flatten(Handed(calls)))[k] == Wanted(utf8, sent[k]);
      SameHandler(utf8, g, sent, k, HandedOver(calls[c])[i]);
    }
  }

  lemma {:induction false} ReachedAndHanded(calls: seq<seq<Byte>>, c: nat, i: nat) returns (k: nat)
    requires c < |calls| && i < |CutUp(calls[c]).packets|
    ensures i < |HandedOver(calls[c])| && k < |Flatten(Reached(calls))| && k < |Flatten(Handed(calls))|
    ensures Flatten(Reached(calls))[k] == CutUp(calls[c]).packets[i]
    ensures Flatten(Handed(calls))[k] == HandedOver(calls[c])[i]
  {
    k := FlattenAt(Reached(calls), Handed(calls), c, i);
  }

  /** What is handled as the k-th message has its handler. */
  lemma {:induction false} SameHandler(utf8: Utf8, g: Sides, sent: seq<Sent>, k: nat, buffer: seq<Byte>)
    requires Matched(g) && AllProper(g, sent) && k < |sent| && Travels(utf8, sent[k].message)
    requires Handle(utf8, Receivable(g), buffer) == Wanted(utf8, sent[k])
    ensures HandlerFor(Receivable(g), buffer) == HandlerFor(Receivable(g), PacketsOf(g, sent)[k])
  {
    var p := PacketsOf(g, sent)[k];
    OwnHandlerOnly(utf8, Receivable(g), buffer);
    OwnHandlerOnly(utf8, Receivable(g), p);
    EachIsHandled(utf8, g, sent);
    assert HandleAll(utf8, Receivable(g), PacketsOf(g, sent))[k] == AllWanted(utf8, sent)[k];
  }
}
