/** The packet generator: which messages of a .proto file become packets, with which ids, and on which side each
    one is received. */
module PacketIds {
  import opened Options

  datatype Packet = Packet(name: string, id: nat)

  datatype Lists = Lists(recv: seq<Packet>, send: seq<Packet>, total: seq<Packet>)

  // ---------- text ----------

  predicate StartsWith(s: string, prefix: string) {
    |prefix| <= |s| && s[..|prefix|] == prefix
  }

  /** What str.split() splits at: Unicode whitespace and the ASCII separators. */
  predicate Blank(c: char) {
    var n := c as int;
    || 0x09 <= n <= 0x0D || 0x1C <= n <= 0x20 || n == 0x85 || n == 0xA0 || n == 0x1680
    || 0x2000 <= n <= 0x200A || n == 0x2028 || n == 0x2029 || n == 0x202F || n == 0x205F || n == 0x3000
  }

  /** The length of the leading run of blanks, or of non-blanks. */
  function RunLength(s: string, blank: bool): (n: nat)
    ensures n <= |s|
  {
    if s != [] && Blank(s[0]) == blank then 1 + RunLength(s[1..], blank) else 0
  }

  /** str.split(). */
  function Words(s: string): seq<string>
    decreases |s|
  {
    var t := s[RunLength(s, true)..];
    var n := RunLength(t, false);
    if n == 0 then [] else [t[..n]] + Words(t[n..])
  }

  /** str.upper() is left open. */
  type Upper = string -> string

  /** The name a line declares; `None` where the second word is missing and the parser stops with an error. */
  function DeclaredName(upper: Upper, line: string): Option<string>
    requires StartsWith(line, "message")
  {
    if |Words(line)| > 1 then Some(upper(Words(line)[1])) else None
  }

  /** The names of all messages declared, in order. */
  function Names(upper: Upper, lines: seq<string>): Option<seq<string>> {
    if lines == [] then Some([])
    else
      var last := lines[|lines| - 1];
      match Names(upper, lines[..|lines| - 1])
      case None => None
      case Some(names) =>
        if !StartsWith(last, "message") then Some(names)
        else
          match DeclaredName(upper, last)
          case None => None
          case Some(name) => Some(names + [name])
  }

  // ---------- ids ----------

  /** Ids go up by one per packet; a name with neither prefix takes none, and the receive prefix is tried first. */
  function Assign(recvPrefix: string, sendPrefix: string, startId: nat, names: seq<string>): Lists {
    if names == [] then Lists([], [], [])
    else
      Added(recvPrefix, sendPrefix, startId, Assign(recvPrefix, sendPrefix, startId, names[..|names| - 1]), names[|names| - 1])
  }

  function Added(recvPrefix: string, sendPrefix: string, startId: nat, l: Lists, name: string): Lists {
    var p := Packet(name, startId + |l.total|);
    if StartsWith(name, recvPrefix) then Lists(l.recv + [p], l.send, l.total + [p])
    else if StartsWith(name, sendPrefix) then Lists(l.recv, l.send + [p], l.total + [p])
    else l
  }

  class ProtoParser {
    const startId: nat
    const recvPrefix: string
    const sendPrefix: string
    var recvPkt: seq<Packet>
    var sendPkt: seq<Packet>
    var totalPkt: seq<Packet>
    var id: nat

    constructor (startId: nat, recvPrefix: string, sendPrefix: string)
      ensures this.startId == startId && this.recvPrefix == recvPrefix && this.sendPrefix == sendPrefix
      ensures Found() == Lists([], [], []) && id == startId
    {
      this.startId, this.recvPrefix, this.sendPrefix := startId, recvPrefix, sendPrefix;
      recvPkt, sendPkt, totalPkt, id := [], [], [], startId;
    }

    ghost function Found(): Lists
      reads this
    {
      Lists(recvPkt, sendPkt, totalPkt)
    }

    /** Fails where Python raises an IndexError. */
    method ParseProto(upper: Upper, lines: seq<string>) returns (ok: bool)
      requires Found() == Lists([], [], []) && id == startId
      modifies this
      ensures ok <==> Names(upper, lines).Some?
      ensures ok ==> Found() == Assign(recvPrefix, sendPrefix, startId, Names(upper, lines).value)
      ensures ok ==> id == startId + |totalPkt|
    {
      var i := 0;
      while i < |lines|
        invariant 0 <= i <= |lines|
        invariant Names(upper, lines[..i]).Some?
        invariant Found() == Assign(recvPrefix, sendPrefix, startId, Names(upper, lines[..i]).value)
        invariant id == startId + |totalPkt|
      {
        var line := lines[i];
        LineStep(upper, lines, i);
        ghost var names := Names(upper, lines[..i]).value;
        i := i + 1;
        if StartsWith(line, "message") {
          var words := Words(line);
          if |words| <= 1 {
            NamesStayMissing(upper, lines, i);
            return false;
          }
          var pktName := upper(words[1]);
          AssignStep(recvPrefix, sendPrefix, startId, names, pktName);
          AddPacket(pktName);
        }
      }
      assert lines[..i] == lines;
      return true;
    }

    method AddPacket(pktName: string)
      requires id == startId + |totalPkt|
      modifies this
      ensures Found() == Added(recvPrefix, sendPrefix, startId, old(Found()), pktName)
      ensures id == startId + |totalPkt|
    {
      if StartsWith(pktName, recvPrefix) {
        recvPkt := recvPkt + [Packet(pktName, id)];
      } else if StartsWith(pktName, sendPrefix) {
        sendPkt := sendPkt + [Packet(pktName, id)];
      } else {
        return;
      }
      totalPkt := totalPkt + [Packet(pktName, id)];
      id := id + 1;
    }
  }

  lemma {:induction false} LineStep(upper: Upper, lines: seq<string>, i: nat)
    requires i < |lines| && Names(upper, lines[..i]).Some?
    ensures Names(upper, lines[..i + 1]) ==
      if !StartsWith(lines[i], "message") then Names(upper, lines[..i])
      else if |Words(lines[i])| <= 1 then None
      else Some(Names(upper, lines[..i]).value + [upper(Words(lines[i])[1])])
  {
    assert lines[..i + 1][..i] == lines[..i] && lines[..i + 1][i] == lines[i];
  }

  lemma {:induction false} AssignStep(r: string, s: string, startId: nat, names: seq<string>, name: string)
    ensures Assign(r, s, startId, names + [name]) == Added(r, s, startId, Assign(r, s, startId, names), name)
  {
  }

  /** Once a name is missing, it stays so. */
  lemma {:induction false} NamesStayMissing(upper: Upper, lines: seq<string>, i: nat)
    requires i <= |lines| && Names(upper, lines[..i]).None?
    ensures Names(upper, lines).None?
    decreases |lines|
  {
    if i < |lines| {
      assert lines[..|lines| - 1][..i] == lines[..i];
      NamesStayMissing(upper, lines[..|lines| - 1], i);
    } else {
      assert lines[..i] == lines;
    }
  }

  // ---------- the two sides ----------

  /** The packets whose name has the prefix, or lacks it. */
  function Matching(packets: seq<Packet>, prefix: string, wanted: bool): seq<Packet> {
    if packets == [] then []
    else
      var p := packets[|packets| - 1];
      var front := Matching(packets[..|packets| - 1], prefix, wanted);
      if StartsWith(p.name, prefix) == wanted then front + [p] else front
  }

  lemma {:induction false} MatchingStep(packets: seq<Packet>, p: Packet, prefix: string, wanted: bool)
    ensures Matching(packets + [p], prefix, wanted) ==
      if StartsWith(p.name, prefix) == wanted then Matching(packets, prefix, wanted) + [p]
      else Matching(packets, prefix, wanted)
  {
  }

  lemma {:induction false} MatchingMember(packets: seq<Packet>, prefix: string, wanted: bool, p: Packet)
    ensures p in Matching(packets, prefix, wanted) <==> p in packets && StartsWith(p.name, prefix) == wanted
  {
    if packets != [] {
      MatchingMember(packets[..|packets| - 1], prefix, wanted, p);
      assert packets == packets[..|packets| - 1] + [packets[|packets| - 1]];
    }
  }

  /** The receive list is what has the receive prefix, the send list is the rest, and every packet has one of
      the prefixes. */
  lemma {:induction false} ListsArePartOfTotal(r: string, s: string, startId: nat, names: seq<string>)
    ensures var l := Assign(r, s, startId, names);
      && l.recv == Matching(l.total, r, true) && l.send == Matching(l.total, r, false)
      && forall p | p in l.total :: p.name in names && (StartsWith(p.name, r) || StartsWith(p.name, s))
  {
    if names != [] {
      var front := names[..|names| - 1];
      ListsArePartOfTotal(r, s, startId, front);
      var l0 := Assign(r, s, startId, front);
      var p := Packet(names[|names| - 1], startId + |l0.total|);
      MatchingStep(l0.total, p, r, true);
      MatchingStep(l0.total, p, r, false);
    }
  }

  /** Ids are consecutive from the start id, so no two packets share one. */
  lemma {:induction false} IdsAreConsecutive(r: string, s: string, startId: nat, names: seq<string>, i: nat)
    requires i < |Assign(r, s, startId, names).total|
    ensures Assign(r, s, startId, names).total[i].id == startId + i
  {
    if names != [] {
      var l0 := Assign(r, s, startId, names[..|names| - 1]);
      if i < |l0.total| { IdsAreConsecutive(r, s, startId, names[..|names| - 1], i); }
    }
  }

  /** Distinct names get distinct ids, and one each. */
  lemma {:induction false} OneIdPerName(r: string, s: string, startId: nat, names: seq<string>, p: Packet, q: Packet)
    requires forall i, j | 0 <= i < j < |names| :: names[i] != names[j]
    requires p in Assign(r, s, startId, names).total && q in Assign(r, s, startId, names).total
    ensures p.name == q.name <==> p.id == q.id
  {
    var front, last := names[..|names| - 1], names[|names| - 1];
    var l, l0 := Assign(r, s, startId, names), Assign(r, s, startId, front);
    ListsArePartOfTotal(r, s, startId, front);
    var i :| 0 <= i < |l.total| && l.total[i] == p;
    var j :| 0 <= j < |l.total| && l.total[j] == q;
    IdsAreConsecutive(r, s, startId, names, i);
    IdsAreConsecutive(r, s, startId, names, j);
    if p in l0.total && q in l0.total {
      OneIdPerName(r, s, startId, front, p, q);
    } else if p in l0.total {
      assert p.name in front;
    } else if q in l0.total {
      assert q.name in front;
    }
  }

  /** The id table does not depend on which prefix is the receiving one. */
  lemma {:induction false} SameTable(r: string, s: string, startId: nat, names: seq<string>)
    ensures Assign(r, s, startId, names).total == Assign(s, r, startId, names).total
  {
    if names != [] { SameTable(r, s, startId, names[..|names| - 1]); }
  }

  predicate Ambiguous(name: string, r: string, s: string) {
    StartsWith(name, r) && StartsWith(name, s)
  }

  lemma {:induction false} MatchingOpposite(packets: seq<Packet>, r: string, s: string, wanted: bool)
    requires forall p | p in packets :: StartsWith(p.name, r) != StartsWith(p.name, s)
    ensures Matching(packets, r, wanted) == Matching(packets, s, !wanted)
  {
    if packets != [] {
      var front := packets[..|packets| - 1];
      forall p | p in front ensures p in packets {}
      MatchingOpposite(front, r, s, wanted);
      assert packets[|packets| - 1] in packets;
    }
  }

  /** Every name with one of the prefixes gets a packet. */
  lemma {:induction false} NamesGetPackets(r: string, s: string, startId: nat, names: seq<string>, name: string)
    requires name in names && (StartsWith(name, r) || StartsWith(name, s))
    ensures exists p :: p in Assign(r, s, startId, names).total && p.name == name
  {
    var l := Assign(r, s, startId, names);
    var front, last := names[..|names| - 1], names[|names| - 1];
    var l0 := Assign(r, s, startId, front);
    if last == name {
      assert l.total[|l.total| - 1].name == name;
    } else {
      NamesGetPackets(r, s, startId, front, name);
      var p :| p in l0.total && p.name == name;
      assert p in l.total;
    }
  }

  /** Two sides generated with swapped prefixes share one id table, and what one sends is exactly what the other
      receives, if and only if no message name has both prefixes. */
  lemma {:induction false} SwappedSidesAgree(r: string, s: string, startId: nat, names: seq<string>)
    ensures Assign(r, s, startId, names).total == Assign(s, r, startId, names).total
    ensures (Assign(r, s, startId, names).recv == Assign(s, r, startId, names).send
             && Assign(r, s, startId, names).send == Assign(s, r, startId, names).recv) <==>
      forall name | name in names :: !Ambiguous(name, r, s)
  {
    var a, b := Assign(r, s, startId, names), Assign(s, r, startId, names);
    SameTable(r, s, startId, names);
    ListsArePartOfTotal(r, s, startId, names);
    ListsArePartOfTotal(s, r, startId, names);
    if forall name | name in names :: !Ambiguous(name, r, s) {
      forall p | p in a.total ensures StartsWith(p.name, r) != StartsWith(p.name, s) { assert !Ambiguous(p.name, r, s); }
      MatchingOpposite(a.total, r, s, true);
      MatchingOpposite(a.total, r, s, false);
    } else {
      var name :| name in names && Ambiguous(name, r, s);
      NamesGetPackets(r, s, startId, names, name);
      var p :| p in a.total && p.name == name;
      MatchingMember(a.total, r, true, p);
      MatchingMember(a.total, s, false, p);
    }
  }

  /** Prefixes that differ at some place are never both on one name, as for C_ and S_. */
  lemma {:induction false} PrefixesApart(name: string, r: string, s: string)
    ensures !StartsWith(r, s) && !StartsWith(s, r) ==> !Ambiguous(name, r, s)
  {
  }
}
