/** The generated packet handlers: a table from ids to handlers, the packets one side makes, and what the other
    side does with them. */
module Dispatch {
  import opened Options
  import opened Varint
  import opened Wire
  import opened Messages
  import opened PacketIds

  /** GPacketHandler has UINT16_MAX entries: id 65535 has none. */
  const TABLE_SIZE := 65535
  const HEADER := 4

  datatype Handler = Invalid | HandlerOf(name: string)

  datatype Handled =
    | Rejected                                    // HandlePacket returns false
    | Invoked(name: string, message: Message)     // Handle_<name> is called with this message
    | PastTable
    | Undefined                                   // outside this model

  // ---------- the table ----------

  /** The handler registered last for an id. */
  function Registered(recv: seq<Packet>, id: nat): Handler {
    if recv == [] then Invalid
    else if recv[|recv| - 1].id == id then HandlerOf(recv[|recv| - 1].name)
    else Registered(recv[..|recv| - 1], id)
  }

  method Init(recv: seq<Packet>, table: array<Handler>)
    requires table.Length == 65535
    requires forall i | 0 <= i < |recv| :: recv[i].id < 65535
    modifies table
    ensures forall id | 0 <= id < 65535 :: table[id] == Registered(recv, id)
  {
    for i := 0 to TABLE_SIZE
      invariant forall id | 0 <= id < i :: table[id] == Invalid
    {
      table[i] := Invalid;
    }
    for k := 0 to |recv|
      invariant forall id | 0 <= id < TABLE_SIZE :: table[id] == Registered(recv[..k], id)
    {
      assert recv[..k + 1][..k] == recv[..k];
      table[recv[k].id] := HandlerOf(recv[k].name);
    }
    assert recv[..|recv|] == recv;
  }

  /** A later registration replaces the handler of its own id and of no other. */
  lemma {:induction false} LastRegistered(recv: seq<Packet>, p: Packet, id: nat)
    ensures Registered([], id) == Invalid
    ensures Registered(recv + [p], id) == if id == p.id then HandlerOf(p.name) else Registered(recv, id)
  {
    assert (recv + [p])[..|recv|] == recv;
  }

  /** Where ids are distinct, each received packet finds its own handler, and other ids find none. */
  lemma {:induction false} RegisteredIsOwn(recv: seq<Packet>, p: Packet)
    requires p in recv && forall q | q in recv && q.id == p.id :: q.name == p.name
    ensures Registered(recv, p.id) == HandlerOf(p.name)
  {
    var front, last := recv[..|recv| - 1], recv[|recv| - 1];
    if last.id != p.id {
      forall q | q in front ensures q in recv {}
      RegisteredIsOwn(front, p);
    } else {
      assert last in recv;
    }
  }

  lemma {:induction false} OthersAreInvalid(recv: seq<Packet>, id: nat)
    ensures Registered(recv, id) == Invalid <==> forall p | p in recv :: p.id != id
  {
    if recv != [] {
      OthersAreInvalid(recv[..|recv| - 1], id);
      assert recv == recv[..|recv| - 1] + [recv[|recv| - 1]];
    }
  }

  // ---------- making a packet ----------

  datatype Made =
    | Made(bytes: seq<Byte>)
    | Crash                  // ASSERT_CRASH: the serializer was given too little room
    | Overrun                // the buffer opened is smaller than what is written to it

  /** A 16-bit number, low byte first. */
  function Low16(v: nat): seq<Byte>
    requires v < 65536
  {
    [v % 256, v / 256]
  }

  function Number16(lo: Byte, hi: Byte): nat {
    lo + 256 * hi
  }

  lemma {:induction false} Low16Survives(v: nat)
    requires v < 65536
    ensures Number16(Low16(v)[0], Low16(v)[1]) == v
  {
  }

  function Header(size: nat, id: nat): seq<Byte>
    requires size < 65536 && id < 65536
  {
    Low16(size) + Low16(id)
  }

  /** The packet that carries a message under an id. */
  function PacketOf(m: Message, id: nat): seq<Byte>
    requires |Serialize(m)| <= 65531 && id < 65536
  {
    Header(|Serialize(m)| + HEADER, id) + Serialize(m)
  }

  /** Size and id, low byte first, then the message. */
  lemma {:induction false} PacketLayout(m: Message, id: nat)
    requires |Serialize(m)| <= 65531 && id < 65536
    ensures var n := |Serialize(m)| + 4;
      PacketOf(m, id) == [n % 256, n / 256, id % 256, id / 256] + Serialize(m)
  {
  }

  /** The size is cut to 16 bits before and after the header is added. */
  method MakeSendBuffer(pkt: Message, pktId: nat) returns (made: Made)
    requires pktId < 65536
    ensures made.Made? <==> |Serialize(pkt)| <= 65531
    ensures made.Made? ==> made.bytes == PacketOf(pkt, pktId)
    ensures made.Overrun? <==> 65532 <= |Serialize(pkt)| <= 65535
    ensures made.Crash? <==> 65536 <= |Serialize(pkt)|
  {
    var byteSize := ByteSize(pkt);
    SizeIsBytesWritten(pkt);
    var payload := Serialize(pkt);
    var dataSize := byteSize % 65536;
    CutSizes(byteSize);
    var packetSize := (dataSize + HEADER) % 65536;
    // SerializeToArray counts again and refuses what does not fit.
    if byteSize > INT_MAX || dataSize < byteSize { return Crash; }
    if HEADER + |payload| > packetSize { return Overrun; }
    var bytes := Filled(packetSize, pktId, payload);
    return Made(bytes);
  }

  lemma {:induction false} CutSizes(n: nat)
    ensures n % 65536 < n <==> n >= 65536
    ensures n < 65536 ==> n % 65536 == n
    ensures n <= 65531 ==> (n + 4) % 65536 == n + 4
    ensures 65532 <= n < 65536 ==> (n + 4) % 65536 < 4
  {
  }

  /** The header fields, then the payload behind them. */
  method Filled(packetSize: nat, pktId: nat, payload: seq<Byte>) returns (bytes: seq<Byte>)
    requires packetSize == HEADER + |payload| < 65536 && pktId < 65536
    ensures bytes == Header(packetSize, pktId) + payload
  {
    var buffer := new Byte[packetSize];
    var header := Header(packetSize, pktId);
    forall i | 0 <= i < HEADER { buffer[i] := header[i]; }
    forall i | 0 <= i < |payload| { buffer[HEADER + i] := payload[i]; }
    bytes := buffer[..];
  }

  // ---------- handling a packet ----------

  function NameOf(m: Message): string {
    match m
    case CLogin => "C_LOGIN"
    case SLogin(_, _) => "S_LOGIN"
    case CEnterGame(_) => "C_ENTER_GAME"
    case SEnterGame(_, _) => "S_ENTER_GAME"
    case CChat(_, _) => "C_CHAT"
    case SChat(_, _, _) => "S_CHAT"
  }

  /** The message type a handler parses into, freshly constructed. */
  function TypeNamed(name: string): Option<Message> {
    if name == "C_LOGIN" then Some(CLogin)
    else if name == "S_LOGIN" then Some(SLogin(false, []))
    else if name == "C_ENTER_GAME" then Some(CEnterGame(0))
    else if name == "S_ENTER_GAME" then Some(SEnterGame(false, 0))
    else if name == "C_CHAT" then Some(CChat(0, []))
    else if name == "S_CHAT" then Some(SChat(0, [], 0))
    else None
  }

  lemma {:induction false} TypeOfName(m: Message)
    ensures TypeNamed(NameOf(m)) == Some(Cleared(m))
  {
  }

  /** What the handler for one packet type does with the payload. */
  function HandleAs(utf8: Utf8, name: string, payload: seq<Byte>): Handled {
    match TypeNamed(name)
    case None => Undefined
    case Some(m) =>
      match ParseOnto(utf8, m, payload)
      case Done(pkt) => Invoked(name, pkt)
      case Failed => Rejected
      case Unknown => Undefined
  }

  /** A side that receives `recv` is handed `len` bytes with a header in front. */
  function Handle(utf8: Utf8, recv: seq<Packet>, buffer: seq<Byte>): Handled {
    if |buffer| < HEADER then Undefined
    else
      var id := Number16(buffer[2], buffer[3]);
      if id >= TABLE_SIZE then PastTable
      else
        match Registered(recv, id)
        case Invalid => Rejected
        case HandlerOf(name) => HandleAs(utf8, name, buffer[HEADER..])
  }

  function IdField(p: seq<Byte>): nat
    requires |p| >= HEADER
  {
    Number16(p[2], p[3])
  }

  /** The buffer carries the id of this packet and of no packet of another name. */
  ghost predicate Selects(recv: seq<Packet>, p: Packet, buffer: seq<Byte>) {
    && |buffer| >= HEADER && IdField(buffer) == p.id < 65535
    && p in recv && forall q | q in recv && q.id == p.id :: q.name == p.name
  }

  lemma {:induction false} SelectedOrRejected(utf8: Utf8, recv: seq<Packet>, buffer: seq<Byte>)
    ensures forall p | p in recv && Selects(recv, p, buffer) ::
      Handle(utf8, recv, buffer) == HandleAs(utf8, p.name, buffer[HEADER..])
    ensures |buffer| >= HEADER && IdField(buffer) < 65535 && (forall p | p in recv :: p.id != IdField(buffer)) ==>
      Handle(utf8, recv, buffer) == Rejected
  {
    if |buffer| >= HEADER { OthersAreInvalid(recv, IdField(buffer)); }
    forall p | p in recv && Selects(recv, p, buffer)
      ensures Handle(utf8, recv, buffer) == HandleAs(utf8, p.name, buffer[HEADER..])
    {
      RegisteredIsOwn(recv, p);
    }
  }

  /** The handler of the packet with the buffer's id gets the payload; without such a packet nothing runs. */
  method HandlePacket(utf8: Utf8, recv: seq<Packet>, table: array<Handler>, buffer: seq<Byte>) returns (handled: Handled)
    requires table.Length == 65535 && forall id | 0 <= id < 65535 :: table[id] == Registered(recv, id)
    ensures handled == Handle(utf8, recv, buffer)
    ensures forall p | p in recv && Selects(recv, p, buffer) :: handled == HandleAs(utf8, p.name, buffer[HEADER..])
    ensures |buffer| >= HEADER && IdField(buffer) < 65535 && (forall p | p in recv :: p.id != IdField(buffer)) ==>
      handled == Rejected
  {
    SelectedOrRejected(utf8, recv, buffer);
    if |buffer| < HEADER { return Undefined; }
    var id := Number16(buffer[2], buffer[3]);
    if id >= TABLE_SIZE { return PastTable; }
    match table[id]
    case Invalid => return Rejected;
    case HandlerOf(name) => return HandleAs(utf8, name, buffer[HEADER..]);
  }

  // ---------- end to end ----------

  /** A packet whose header carries the id of one of the receiver's packets goes to that packet's handler. */
  lemma {:induction false} HeaderSelects(utf8: Utf8, recv: seq<Packet>, p: Packet, size: nat, payload: seq<Byte>)
    requires p in recv && p.id < 65535 && size < 65536
    requires forall q | q in recv && q.id == p.id :: q.name == p.name
    ensures Handle(utf8, recv, Header(size, p.id) + payload) == HandleAs(utf8, p.name, payload)
  {
    var buffer := Header(size, p.id) + payload;
    Low16Survives(p.id);
    assert buffer[2] == Low16(p.id)[0] && buffer[3] == Low16(p.id)[1];
    assert buffer[HEADER..] == payload;
    RegisteredIsOwn(recv, p);
  }

  lemma {:induction false} HandlerReadsBack(utf8: Utf8, m: Message)
    ensures HandleAs(utf8, NameOf(m), Serialize(m)) == if Travels(utf8, m) then Invoked(NameOf(m), m) else Rejected
  {
    TypeOfName(m);
    RoundTrip(utf8, m);
  }

  /** Packets are told apart by their ids. */
  lemma {:induction false} TotalIdsDistinct(r: string, s: string, startId: nat, names: seq<string>, p: Packet, q: Packet)
    requires p in Assign(r, s, startId, names).total && q in Assign(r, s, startId, names).total && p.id == q.id
    ensures p == q && startId <= p.id < startId + |Assign(r, s, startId, names).total|
  {
    var total := Assign(r, s, startId, names).total;
    var i :| 0 <= i < |total| && total[i] == p;
    var j :| 0 <= j < |total| && total[j] == q;
    IdsAreConsecutive(r, s, startId, names, i);
    IdsAreConsecutive(r, s, startId, names, j);
  }

  /** From one side to the other: for any list of message names of which none has both prefixes, a message on the
      sending side's list, packed with its id, makes exactly its own handler run on the receiving side with an
      equal message, if and only if its strings and players travel; otherwise no handler runs. */
  lemma {:induction false} PacketReachesItsHandler(
    utf8: Utf8, recvPrefix: string, sendPrefix: string, startId: nat, names: seq<string>, p: Packet, m: Message)
    requires forall name | name in names :: !Ambiguous(name, recvPrefix, sendPrefix)
    requires startId + |Assign(recvPrefix, sendPrefix, startId, names).total| <= 65535
    requires p in Assign(recvPrefix, sendPrefix, startId, names).send && p.name == NameOf(m)
    requires |Serialize(m)| <= 65531
    ensures p.id < 65535
    ensures Handle(utf8, Assign(sendPrefix, recvPrefix, startId, names).recv, PacketOf(m, p.id)) ==
        if Travels(utf8, m) then Invoked(NameOf(m), m) else Rejected
  {
    var a := Assign(recvPrefix, sendPrefix, startId, names);
    var b := Assign(sendPrefix, recvPrefix, startId, names);
    SwappedSidesAgree(recvPrefix, sendPrefix, startId, names);
    ListsArePartOfTotal(recvPrefix, sendPrefix, startId, names);
    MatchingMember(a.total, recvPrefix, false, p);
    TotalIdsDistinct(recvPrefix, sendPrefix, startId, names, p, p);
    forall q | q in b.recv && q.id == p.id ensures q == p {
      MatchingMember(a.total, recvPrefix, false, q);
      TotalIdsDistinct(recvPrefix, sendPrefix, startId, names, p, q);
    }
    HeaderSelects(utf8, b.recv, p, |Serialize(m)| + HEADER, Serialize(m));
    HandlerReadsBack(utf8, m);
  }

  /** A packet of the sender's own receive list is not for the other side: nothing runs there. */
  lemma {:induction false} WrongSideRejects(
    utf8: Utf8, recvPrefix: string, sendPrefix: string, startId: nat, names: seq<string>, p: Packet, size: nat, payload: seq<Byte>)
    requires forall name | name in names :: !Ambiguous(name, recvPrefix, sendPrefix)
    requires startId + |Assign(recvPrefix, sendPrefix, startId, names).total| <= 65535
    requires p in Assign(recvPrefix, sendPrefix, startId, names).recv && size < 65536
    ensures p.id < 65535
    ensures Handle(utf8, Assign(sendPrefix, recvPrefix, startId, names).recv, Header(size, p.id) + payload) == Rejected
  {
    var a := Assign(recvPrefix, sendPrefix, startId, names);
    var b := Assign(sendPrefix, recvPrefix, startId, names);
    SwappedSidesAgree(recvPrefix, sendPrefix, startId, names);
    ListsArePartOfTotal(recvPrefix, sendPrefix, startId, names);
    MatchingMember(a.total, recvPrefix, true, p);
    TotalIdsDistinct(recvPrefix, sendPrefix, startId, names, p, p);
    forall q | q in b.recv ensures q.id != p.id {
      MatchingMember(a.total, recvPrefix, false, q);
      if q.id == p.id { TotalIdsDistinct(recvPrefix, sendPrefix, startId, names, p, q); }
    }
    OthersAreInvalid(b.recv, p.id);
    Low16Survives(p.id);
    var buffer := Header(size, p.id) + payload;
    assert buffer[2] == Low16(p.id)[0] && buffer[3] == Low16(p.id)[1];
  }
}
