/** What each message is on the wire, byte by byte. */
module MessageBytes {
  import opened Sequences
  import opened Options
  import opened Varint
  import opened Wire
  import opened Messages

  // ---------- varints ----------

  /** Low group first, the top bit set on all bytes but the last. */
  lemma {:induction false} EncodeShort(v: nat)
    ensures v < 128 ==> Encode(v) == [v]
    ensures 128 <= v < 0x4000 ==> Encode(v) == [128 + v % 128, v / 128]
    ensures 0x4000 <= v < 0x20_0000 ==> Encode(v) == [128 + v % 128, 128 + v / 128 % 128, v / 0x4000]
  {
    if 128 <= v < 0x20_0000 {
      assert Encode(v) == [128 + v % 128] + Encode(v / 128);
      if v >= 0x4000 {
        assert Encode(v / 128) == [128 + v / 128 % 128] + Encode(v / 128 / 128);
        assert v / 128 / 128 == v / 0x4000;
      }
    }
  }

  // ---------- messages ----------

  /** A field that is not set is not written. */
  function NumberBytes(tag: Byte, v: nat): seq<Byte> {
    if v != 0 then [tag] + Encode(v) else []
  }

  function StringBytes(tag: Byte, s: seq<Byte>): seq<Byte> {
    if s != [] then [tag] + Encode(|s|) + s else []
  }

  /** Field 1 the id, field 2 the name, field 3 the type, sign-extended to 64 bits. */
  function PlayerBytes(p: Player): seq<Byte> {
    (if p.id != 0 then [8] + Encode(p.id) else [])
    + (if p.name != [] then [18] + Encode(|p.name|) + p.name else [])
    + (if p.playerType > 0 then [24] + Encode(p.playerType)
       else if p.playerType < 0 then [24] + Encode(0x1_0000_0000_0000_0000 + p.playerType) else [])
  }

  /** Each player behind its length, also an empty one. */
  function PlayersBytes(players: seq<Player>): seq<Byte> {
    if players == [] then []
    else [18] + Encode(|PlayerBytes(players[0])|) + PlayerBytes(players[0]) + PlayersBytes(players[1..])
  }

  function BytesOf(m: Message): seq<Byte> {
    match m
    case CLogin => []
    case SLogin(success, players) => (if success then [8, 1] else []) + PlayersBytes(players)
    case CEnterGame(playerIndex) => NumberBytes(8, playerIndex)
    case SEnterGame(success, playerId) => (if success then [8, 1] else []) + NumberBytes(16, playerId)
    case CChat(playerId, msg) => NumberBytes(8, playerId) + StringBytes(18, msg)
    case SChat(playerId, msg, test) => NumberBytes(8, playerId) + StringBytes(18, msg) + NumberBytes(24, test)
  }

  lemma {:induction false} OneNumber(tag: Byte, v: Uint64)
    requires tag < 128
    ensures WriteAll(NumberField(tag, v)) == NumberBytes(tag, v)
  {
    if v != 0 {
      assert NumberField(tag, v)[1..] == [];
      assert WriteAll(NumberField(tag, v)) == Write(NumberField(tag, v)[0]) + [];
    }
  }

  lemma {:induction false} OneString(tag: Byte, s: seq<Byte>)
    requires tag < 128
    ensures WriteAll(StringField(tag, s)) == StringBytes(tag, s)
  {
    if s != [] {
      assert StringField(tag, s)[1..] == [];
      Associative([tag], Encode(|s|), s);
    }
  }

  /** What Player::_InternalSerialize writes. */
  lemma {:induction false} PlayerWrites(p: Player)
    ensures SerializePlayer(p) == PlayerBytes(p)
  {
    var one, two, three := NumberField(8, p.id), StringField(18, p.name), NumberField(24, SignExtend(p.playerType));
    WriteAllAppends(one + two, three);
    WriteAllAppends(one, two);
    OneNumber(8, p.id);
    OneString(18, p.name);
    OneNumber(24, SignExtend(p.playerType));
  }

  lemma {:induction false} PlayersWrite(players: seq<Player>)
    ensures WriteAll(PlayersFields(players)) == PlayersBytes(players)
    decreases |players|
  {
    if players != [] {
      var b, rest := PlayerBytes(players[0]), PlayersFields(players[1..]);
      PlayerWrites(players[0]);
      PlayersWrite(players[1..]);
      assert PlayersFields(players)[1..] == rest && PlayersFields(players)[0] == PlayerField(players[0]);
      assert Write(PlayerField(players[0])) == [18] + (Encode(|b|) + b);
      Associative([18], Encode(|b|), b);
    }
  }

  lemma {:induction false} SuccessWrites(success: bool)
    ensures WriteAll(NumberField(8, if success then 1 else 0)) == if success then [8, 1] else []
  {
    OneNumber(8, if success then 1 else 0);
  }

  /** What each message's _InternalSerialize writes: tags, order and which fields are left out. */
  lemma {:induction false} MessageWrites(m: Message)
    ensures Serialize(m) == BytesOf(m)
  {
    match m
    case CLogin =>
    case SLogin(success, players) =>
      WriteAllAppends(NumberField(8, if success then 1 else 0), PlayersFields(players));
      SuccessWrites(success);
      PlayersWrite(players);
    case CEnterGame(playerIndex) => OneNumber(8, playerIndex);
    case SEnterGame(success, playerId) =>
      WriteAllAppends(NumberField(8, if success then 1 else 0), NumberField(16, playerId));
      SuccessWrites(success);
      OneNumber(16, playerId);
    case CChat(playerId, msg) =>
      WriteAllAppends(NumberField(8, playerId), StringField(18, msg));
      OneNumber(8, playerId);
      OneString(18, msg);
    case SChat(playerId, msg, test) =>
      WriteAllAppends(NumberField(8, playerId) + StringField(18, msg), NumberField(24, test));
      WriteAllAppends(NumberField(8, playerId), StringField(18, msg));
      OneNumber(8, playerId);
      OneString(18, msg);
      OneNumber(24, test);
  }

  /** One of each field. */
  lemma {:induction false} PlayerWitness()
    ensures SerializePlayer(Player(1, [97], 1)) == [8, 1, 18, 1, 97, 24, 1]
  {
    PlayerWrites(Player(1, [97], 1));
  }

  /** A message travels if and only if its strings are valid and its strings and players are at most
      2^31 - 17 bytes long. */
  lemma {:induction false} TravelsExactly(utf8: Utf8, m: Message)
    ensures Travels(utf8, m) <==>
      match m
      case SLogin(_, players) => forall p | p in players ::
        (p.name == [] || (utf8(p.name) && |p.name| <= 2147483631)) && |PlayerBytes(p)| <= 2147483631
      case CChat(_, msg) => msg == [] || (utf8(msg) && |msg| <= 2147483631)
      case SChat(_, msg, _) => msg == [] || (utf8(msg) && |msg| <= 2147483631)
      case _ => true
  {
    if m.SLogin? {
      forall i | 0 <= i < |m.players| ensures SerializePlayer(m.players[i]) == PlayerBytes(m.players[i]) {
        PlayerWrites(m.players[i]);
      }
    }
  }

  // ---------- what is no message ----------

  /** A tag of zero or the end of a group stops the parse; a field the player does not declare leaves the model;
      input that ends inside a field fails. */
  lemma {:induction false} PlayerRejects(utf8: Utf8, p: Player, rest: seq<Byte>)
    ensures ParsePlayer(utf8, p, [0] + rest) == Failed && ParsePlayer(utf8, p, [12] + rest) == Failed
    ensures ParsePlayer(utf8, p, [32] + rest) == Unknown
    ensures ParsePlayer(utf8, p, [8]) == Failed && ParsePlayer(utf8, p, [8, 128]) == Failed
    ensures ParsePlayer(utf8, p, [18, 2, 97]) == Failed
  {
    FirstTag(utf8, p, 0, rest);
    FirstTag(utf8, p, 12, rest);
    FirstTag(utf8, p, 32, rest);
    FirstTag(utf8, p, 8, []);
    FirstTag(utf8, p, 8, [128]);
    FirstTag(utf8, p, 18, [2, 97]);
    assert [8] + [] == [8] && [8] + [128] == [8, 128] && [18] + [2, 97] == [18, 2, 97];
    assert Decode([]) == None && [128][1..] == [] && Decode([128]) == None;
    assert ReadContent(18, [2, 97]) == Bad;
  }

  lemma {:induction false} FirstTag(utf8: Utf8, p: Player, tag: Byte, rest: seq<Byte>)
    requires tag < 128
    ensures ParsePlayer(utf8, p, [tag] + rest) == AfterTag(PLAYER_TAGS, TakePlayer(utf8), p, tag, rest)
  {
    assert ([tag] + rest)[1..] == rest;
  }

  lemma {:induction false} LongVarint(s: seq<Byte>, k: nat)
    requires k <= |s| && forall i | 0 <= i < k :: s[i] >= 128
    ensures Decode(s).Some? ==> Decode(s).value.1 > k
    decreases k
  {
    DecodeShape(s);
    if k > 0 { LongVarint(s[1..], k - 1); }
  }

  /** Tags and sizes take at most five bytes, other varints ten. */
  lemma {:induction false} TooLong(s: seq<Byte>)
    ensures |s| >= 5 && (forall i | 0 <= i < 5 :: s[i] >= 128) ==> ReadTag32(s) == None && ReadSize31(s) == None
    ensures |s| >= 10 && (forall i | 0 <= i < 10 :: s[i] >= 128) ==> Read64(s) == None
  {
    if |s| >= 5 && forall i | 0 <= i < 5 :: s[i] >= 128 { LongVarint(s, 5); }
    if |s| >= 10 && forall i | 0 <= i < 10 :: s[i] >= 128 { LongVarint(s, 10); }
  }
}
