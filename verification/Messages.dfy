/** The game's messages as values: what each one writes, what it does with a field it reads, how it merges, and
    how it counts its own size. */
module Messages {
  import opened Varint
  import opened Wire

  datatype Player = Player(id: Uint64, name: seq<Byte>, playerType: Int32)

  datatype Message =
    | CLogin
    | SLogin(success: bool, players: seq<Player>)
    | CEnterGame(playerIndex: Uint64)
    | SEnterGame(success: bool, playerId: Uint64)
    | CChat(playerId: Uint64, msg: seq<Byte>)
    | SChat(playerId: Uint64, msg: seq<Byte>, test: Uint64)

  /** Whether a string passes as UTF-8 is left open. */
  type Utf8 = seq<Byte> -> bool

  const NEW_PLAYER := Player(0, [], 0)
  const PLAYER_TAGS: set<nat> := {8, 18, 24}

  predicate SameType(a: Message, b: Message) {
    || (a.CLogin? && b.CLogin?) || (a.SLogin? && b.SLogin?) || (a.CEnterGame? && b.CEnterGame?)
    || (a.SEnterGame? && b.SEnterGame?) || (a.CChat? && b.CChat?) || (a.SChat? && b.SChat?)
  }

  /** A message of the same type with every field at its default. */
  function Cleared(m: Message): Message {
    match m
    case CLogin => CLogin
    case SLogin(_, _) => SLogin(false, [])
    case CEnterGame(_) => CEnterGame(0)
    case SEnterGame(_, _) => SEnterGame(false, 0)
    case CChat(_, _) => CChat(0, [])
    case SChat(_, _, _) => SChat(0, [], 0)
  }

  function TagsOf(m: Message): set<nat> {
    match m
    case CLogin => {}
    case SLogin(_, _) => {8, 18}
    case CEnterGame(_) => {8}
    case SEnterGame(_, _) => {8, 16}
    case CChat(_, _) => {8, 18}
    case SChat(_, _, _) => {8, 18, 24}
  }

  // ---------- 32-bit enums in 64-bit varints ----------

  function SignExtend(x: Int32): Uint64 {
    if x < 0 then x as int + 0x1_0000_0000_0000_0000 else x
  }

  /** The low 32 bits as a signed number. */
  function ToInt32(v: nat): Int32 {
    var low := v % 0x1_0000_0000;
    if low < 0x8000_0000 then low else low - 0x1_0000_0000
  }

  lemma {:induction false} EnumSurvives(x: Int32)
    ensures ToInt32(SignExtend(x)) == x
    ensures SignExtend(x) == 0 <==> x == 0
    ensures x < 0 ==> |Encode(SignExtend(x))| == 10
  {
    if x < 0 {
      Powers();
      assert SignExtend(x) >= Power(9);
      EncodedBeyond(SignExtend(x), 9);
      RoundTrip64(SignExtend(x), []);
    }
  }

  lemma {:induction false} EncodedBeyond(v: nat, k: nat)
    requires v >= Power(k)
    ensures |Encode(v)| > k
    decreases v
  {
    if k > 0 {
      assert Power(k) == 128 * Power(k - 1);
      EncodedBeyond(v / 128, k - 1);
    }
  }

  // ---------- serialization ----------

  function NumberField(tag: nat, v: Uint64): seq<Field> {
    if v != 0 then [Field(tag, Number(v))] else []
  }

  function StringField(tag: nat, s: seq<Byte>): seq<Field> {
    if s != [] then [Field(tag, Content(s))] else []
  }

  function PlayerFields(p: Player): seq<Field> {
    NumberField(8, p.id) + StringField(18, p.name) + NumberField(24, SignExtend(p.playerType))
  }

  function PlayerField(p: Player): Field {
    Field(18, Content(WriteAll(PlayerFields(p))))
  }

  function PlayersFields(players: seq<Player>): seq<Field> {
    seq(|players|, i requires 0 <= i < |players| => PlayerField(players[i]))
  }

  function FieldsOf(m: Message): seq<Field> {
    match m
    case CLogin => []
    case SLogin(success, players) =>
      NumberField(8, if success then 1 else 0) + PlayersFields(players)
    case CEnterGame(playerIndex) => NumberField(8, playerIndex)
    case SEnterGame(success, playerId) => NumberField(8, if success then 1 else 0) + NumberField(16, playerId)
    case CChat(playerId, msg) => NumberField(8, playerId) + StringField(18, msg)
    case SChat(playerId, msg, test) => NumberField(8, playerId) + StringField(18, msg) + NumberField(24, test)
  }

  function SerializePlayer(p: Player): seq<Byte> { WriteAll(PlayerFields(p)) }

  function Serialize(m: Message): seq<Byte> { WriteAll(FieldsOf(m)) }

  // ---------- parsing ----------

  function TakePlayer(utf8: Utf8): (Player, Field) -> Outcome<Player> {
    (p: Player, f: Field) => PlayerTakes(utf8, p, f)
  }

  function PlayerTakes(utf8: Utf8, p: Player, f: Field): Outcome<Player> {
    match f.payload
    case Number(v) => if f.tag == 8 then Done(p.(id := v)) else if f.tag == 24 then Done(p.(playerType := ToInt32(v))) else Unknown
    case Content(b) => if utf8(b) then Done(p.(name := b)) else Failed
  }

  function ParsePlayer(utf8: Utf8, p: Player, s: seq<Byte>): Outcome<Player> {
    Parse(PLAYER_TAGS, TakePlayer(utf8), p, s)
  }

  function Take(utf8: Utf8): (Message, Field) -> Outcome<Message> {
    (m: Message, f: Field) => Takes(utf8, m, f)
  }

  function Takes(utf8: Utf8, m: Message, f: Field): Outcome<Message> {
    match f.payload
    case Number(v) => TakesNumber(m, f.tag, v)
    case Content(b) => TakesContent(utf8, m, b)
  }

  function TakesNumber(m: Message, tag: nat, v: Uint64): Outcome<Message> {
    match m
    case CLogin => Unknown
    case SLogin(_, players) => Done(SLogin(v != 0, players))
    case CEnterGame(_) => Done(CEnterGame(v))
    case SEnterGame(success, playerId) =>
      if tag == 8 then Done(SEnterGame(v != 0, playerId)) else Done(SEnterGame(success, v))
    case CChat(_, msg) => Done(CChat(v, msg))
    case SChat(playerId, msg, test) =>
      if tag == 8 then Done(SChat(v, msg, test)) else Done(SChat(playerId, msg, v))
  }

  function TakesContent(utf8: Utf8, m: Message, b: seq<Byte>): Outcome<Message> {
    match m
    case SLogin(success, players) =>
      (match ParsePlayer(utf8, NEW_PLAYER, b)
       case Done(p) => Done(SLogin(success, players + [p]))
       case Failed => Failed
       case Unknown => Unknown)
    case CChat(playerId, _) => if utf8(b) then Done(CChat(playerId, b)) else Failed
    case SChat(playerId, _, test) => if utf8(b) then Done(SChat(playerId, b, test)) else Failed
    case _ => Unknown
  }

  /** Parses all of `s` on top of `m`. */
  function ParseOnto(utf8: Utf8, m: Message, s: seq<Byte>): Outcome<Message> {
    Parse(TagsOf(m), Take(utf8), m, s)
  }

  // ---------- merging ----------

  function MergePlayer(a: Player, b: Player): Player {
    Player(if b.id != 0 then b.id else a.id, if b.name != [] then b.name else a.name,
      if b.playerType != 0 then b.playerType else a.playerType)
  }

  /** MergeFrom: fields that are set replace, repeated ones are appended. */
  function Merge(a: Message, b: Message): (m: Message)
    requires SameType(a, b)
  {
    match b
    case CLogin => a
    case SLogin(success, players) => SLogin(if success then true else a.success, a.players + players)
    case CEnterGame(playerIndex) => if playerIndex != 0 then b else a
    case SEnterGame(success, playerId) =>
      SEnterGame(if success then true else a.success, if playerId != 0 then playerId else a.playerId)
    case CChat(playerId, msg) =>
      CChat(if playerId != 0 then playerId else a.playerId, if msg != [] then msg else a.msg)
    case SChat(playerId, msg, test) =>
      SChat(if playerId != 0 then playerId else a.playerId, if msg != [] then msg else a.msg,
        if test != 0 then test else a.test)
  }

  // ---------- what survives the wire ----------

  /** A string the other side reads back. */
  predicate StringTravels(utf8: Utf8, s: seq<Byte>) {
    s != [] ==> utf8(s) && |s| <= INT_MAX - SLOP
  }

  predicate PlayerTravels(utf8: Utf8, p: Player) {
    StringTravels(utf8, p.name) && |SerializePlayer(p)| <= INT_MAX - SLOP
  }

  predicate AllTravel(utf8: Utf8, players: seq<Player>) {
    forall i | 0 <= i < |players| :: PlayerTravels(utf8, players[i])
  }

  predicate Travels(utf8: Utf8, m: Message) {
    match m
    case SLogin(_, players) => AllTravel(utf8, players)
    case CChat(_, msg) => StringTravels(utf8, msg)
    case SChat(_, msg, _) => StringTravels(utf8, msg)
    case _ => true
  }

  // ---------- taking in what was written ----------

  lemma {:induction false} AbsorbNumber<M>(take: (M, Field) -> Outcome<M>, m: M, tag: nat, v: Uint64)
    requires take(m, Field(tag, Number(v))).Done?
    ensures Absorb(take, m, NumberField(tag, v)) == Done(if v != 0 then take(m, Field(tag, Number(v))).message else m)
  {
  }

  lemma {:induction false} AbsorbString<M>(take: (M, Field) -> Outcome<M>, m: M, tag: nat, s: seq<Byte>)
    ensures Absorb(take, m, StringField(tag, s)) ==
      if s == [] then Done(m) else if |s| <= INT_MAX - SLOP then take(m, Field(tag, Content(s))) else Failed
  {
  }

  /** A player takes in what another wrote exactly as it merges it, or fails. */
  lemma {:induction false} PlayerAbsorbs(utf8: Utf8, p: Player, q: Player)
    ensures Absorb(TakePlayer(utf8), p, PlayerFields(q)) ==
      if StringTravels(utf8, q.name) then Done(MergePlayer(p, q)) else Failed
  {
    var take := TakePlayer(utf8);
    EnumSurvives(q.playerType);
    var one, two, three := NumberField(8, q.id), StringField(18, q.name), NumberField(24, SignExtend(q.playerType));
    AbsorbAppends(take, p, one + two, three);
    AbsorbAppends(take, p, one, two);
    AbsorbNumber(take, p, 8, q.id);
    var p1 := Absorb(take, p, one).message;
    AbsorbString(take, p1, 18, q.name);
    if StringTravels(utf8, q.name) {
      AbsorbNumber(take, Absorb(take, p1, two).message, 24, SignExtend(q.playerType));
    }
  }

  lemma {:induction false} PlayerDeclares(p: Player)
    ensures AllDeclared(PLAYER_TAGS, PlayerFields(p))
  {
  }

  /** Reading back a written player, onto any player. */
  lemma {:induction false} PlayerMerges(utf8: Utf8, p: Player, q: Player)
    ensures ParsePlayer(utf8, p, SerializePlayer(q)) ==
      if StringTravels(utf8, q.name) then Done(MergePlayer(p, q)) else Failed
  {
    PlayerDeclares(q);
    ParseOfWritten(PLAYER_TAGS, TakePlayer(utf8), p, PlayerFields(q));
    PlayerAbsorbs(utf8, p, q);
  }

  lemma {:induction false} PlayersAbsorb(utf8: Utf8, m: Message, players: seq<Player>)
    requires m.SLogin?
    ensures Absorb(Take(utf8), m, PlayersFields(players)) ==
      if AllTravel(utf8, players) then Done(SLogin(m.success, m.players + players)) else Failed
    decreases |players|
  {
    var fs := PlayersFields(players);
    if players == [] {
      assert m.players + players == m.players;
    } else {
      assert fs[0] == PlayerField(players[0]);
      assert fs[1..] == PlayersFields(players[1..]);
      OnePlayer(utf8, m, players[0]);
      AllButFirst(utf8, players);
      if PlayerTravels(utf8, players[0]) {
        var m1 := SLogin(m.success, m.players + [players[0]]);
        PlayersAbsorb(utf8, m1, players[1..]);
        assert m1.players + players[1..] == m.players + players;
      }
    }
  }

  lemma {:induction false} OnePlayer(utf8: Utf8, m: Message, p: Player)
    requires m.SLogin?
    ensures Fits(PlayerField(p)) && Take(utf8)(m, PlayerField(p)) != Failed <==> PlayerTravels(utf8, p)
    ensures PlayerTravels(utf8, p) ==> Take(utf8)(m, PlayerField(p)) == Done(SLogin(m.success, m.players + [p]))
    ensures Take(utf8)(m, PlayerField(p)) != Unknown
  {
    PlayerMerges(utf8, NEW_PLAYER, p);
    assert MergePlayer(NEW_PLAYER, p) == p;
  }

  lemma {:induction false} AllButFirst(utf8: Utf8, players: seq<Player>)
    requires players != []
    ensures AllTravel(utf8, players) <==> PlayerTravels(utf8, players[0]) && AllTravel(utf8, players[1..])
  {
  }

  /** A message takes in what another of its type wrote exactly as it merges it, or fails. */
  lemma {:induction false} Absorbs(utf8: Utf8, a: Message, b: Message)
    requires SameType(a, b)
    ensures Absorb(Take(utf8), a, FieldsOf(b)) == if Travels(utf8, b) then Done(Merge(a, b)) else Failed
  {
    var take := Take(utf8);
    match b
    case CLogin =>
    case SLogin(success, players) =>
      var one := NumberField(8, if success then 1 else 0);
      AbsorbAppends(take, a, one, PlayersFields(players));
      AbsorbNumber(take, a, 8, if success then 1 else 0);
      PlayersAbsorb(utf8, Absorb(take, a, one).message, players);
    case CEnterGame(playerIndex) => AbsorbNumber(take, a, 8, playerIndex);
    case SEnterGame(success, playerId) =>
      var one := NumberField(8, if success then 1 else 0);
      AbsorbAppends(take, a, one, NumberField(16, playerId));
      AbsorbNumber(take, a, 8, if success then 1 else 0);
      AbsorbNumber(take, Absorb(take, a, one).message, 16, playerId);
    case CChat(playerId, msg) =>
      AbsorbAppends(take, a, NumberField(8, playerId), StringField(18, msg));
      AbsorbNumber(take, a, 8, playerId);
      AbsorbString(take, Absorb(take, a, NumberField(8, playerId)).message, 18, msg);
    case SChat(playerId, msg, test) => SChatAbsorbs(utf8, a, b);
  }

  lemma {:induction false} SChatAbsorbs(utf8: Utf8, a: Message, b: Message)
    requires a.SChat? && b.SChat?
    ensures Absorb(Take(utf8), a, FieldsOf(b)) == if Travels(utf8, b) then Done(Merge(a, b)) else Failed
  {
    var take := Take(utf8);
    var one, two, three := NumberField(8, b.playerId), StringField(18, b.msg), NumberField(24, b.test);
    AbsorbAppends(take, a, one + two, three);
    AbsorbAppends(take, a, one, two);
    AbsorbNumber(take, a, 8, b.playerId);
    var a1 := Absorb(take, a, one).message;
    AbsorbString(take, a1, 18, b.msg);
    if StringTravels(utf8, b.msg) {
      AbsorbNumber(take, Absorb(take, a1, two).message, 24, b.test);
    }
  }

  lemma {:induction false} Declares(m: Message)
    ensures AllDeclared(TagsOf(m), FieldsOf(m))
  {
    if m.SLogin? { PlayersDeclare(m.players); }
  }

  lemma {:induction false} PlayersDeclare(players: seq<Player>)
    ensures AllDeclared({8, 18}, PlayersFields(players))
  {
  }

  lemma {:induction false} SameTags(a: Message, b: Message)
    requires SameType(a, b)
    ensures TagsOf(a) == TagsOf(b) && Cleared(a) == Cleared(b)
    ensures SameType(Cleared(a), b) && Merge(Cleared(a), a) == a && TagsOf(Cleared(a)) == TagsOf(a)
  {
  }

  // ---------- main results ----------

  /** Parsing `a` and then `b` from one buffer is `a` after MergeFrom(`b`); the parse fails exactly when one of
      them holds a string or a player that does not travel. */
  lemma {:induction false} ConcatenationMerges(utf8: Utf8, a: Message, b: Message)
    requires SameType(a, b)
    ensures ParseOnto(utf8, Cleared(a), Serialize(a) + Serialize(b)) ==
      if Travels(utf8, a) && Travels(utf8, b) then Done(Merge(a, b)) else Failed
  {
    var take := Take(utf8);
    SameTags(a, b);
    Declares(a);
    Declares(b);
    ParseOfTwo(TagsOf(a), take, Cleared(a), FieldsOf(a), FieldsOf(b));
    Absorbs(utf8, Cleared(a), a);
    if Travels(utf8, a) { Absorbs(utf8, a, b); }
  }

  /** Reading back what was written gives the message, if and only if its strings and players travel. */
  lemma {:induction false} RoundTrip(utf8: Utf8, m: Message)
    ensures ParseOnto(utf8, Cleared(m), Serialize(m)) == if Travels(utf8, m) then Done(m) else Failed
  {
    SameTags(m, m);
    Declares(m);
    ParseOfWritten(TagsOf(m), Take(utf8), Cleared(m), FieldsOf(m));
    Absorbs(utf8, Cleared(m), m);
  }

  // ---------- sizes ----------

  function NumberSize(v: Uint64): nat {
    if v != 0 then 1 + VarintSize(v) else 0
  }

  function StringSize(s: seq<Byte>): nat {
    if s != [] then 1 + LengthDelimitedSize(|s|) else 0
  }

  /** EnumSize: ten bytes for a negative number. */
  function EnumSize(x: Int32): nat {
    if x < 0 then 10 else VarintSize(x)
  }

  function PlayerByteSize(p: Player): nat {
    StringSize(p.name) + NumberSize(p.id) + if p.playerType != 0 then 1 + EnumSize(p.playerType) else 0
  }

  function PlayersByteSize(players: seq<Player>): nat {
    if players == [] then 0 else 1 + LengthDelimitedSize(PlayerByteSize(players[0])) + PlayersByteSize(players[1..])
  }

  /** ByteSizeLong. */
  function ByteSize(m: Message): nat {
    match m
    case CLogin => 0
    case SLogin(success, players) => PlayersByteSize(players) + if success then 1 + 1 else 0
    case CEnterGame(playerIndex) => NumberSize(playerIndex)
    case SEnterGame(success, playerId) => NumberSize(playerId) + if success then 1 + 1 else 0
    case CChat(playerId, msg) => StringSize(msg) + NumberSize(playerId)
    case SChat(playerId, msg, test) => StringSize(msg) + NumberSize(playerId) + NumberSize(test)
  }

  lemma {:induction false} OneByteTag(tag: nat)
    requires tag < 128
    ensures |Encode(tag)| == 1
  {
  }

  lemma {:induction false} NumberBytes(tag: nat, v: Uint64)
    requires tag < 128
    ensures |WriteAll(NumberField(tag, v))| == NumberSize(v)
  {
    if v != 0 {
      OneByteTag(tag);
      VarintSizeIsLength(v);
      var fs := NumberField(tag, v);
      assert WriteAll(fs) == Write(fs[0]) + WriteAll(fs[1..]);
    }
  }

  /** Either both ways of counting pass the size limit, or they agree. */
  ghost predicate SameCount(counted: nat, written: nat) {
    counted == written || (counted > INT_MAX && written > INT_MAX)
  }

  lemma {:induction false} ContentBytes(tag: nat, b: seq<Byte>, counted: nat)
    requires tag < 128 && SameCount(counted, |b|)
    ensures SameCount(1 + LengthDelimitedSize(counted), |Write(Field(tag, Content(b)))|)
  {
    OneByteTag(tag);
    LengthDelimitedSizeIs(counted);
    LengthDelimitedSizeIs(|b|);
  }

  lemma {:induction false} StringBytes(tag: nat, s: seq<Byte>)
    requires tag < 128
    ensures SameCount(StringSize(s), |WriteAll(StringField(tag, s))|)
  {
    if s != [] {
      ContentBytes(tag, s, |s|);
      var fs := StringField(tag, s);
      assert WriteAll(fs) == Write(fs[0]) + WriteAll(fs[1..]);
    }
  }

  lemma {:induction false} EnumBytes(x: Int32)
    ensures |WriteAll(NumberField(24, SignExtend(x)))| == if x != 0 then 1 + EnumSize(x) else 0
  {
    EnumSurvives(x);
    NumberBytes(24, SignExtend(x));
    if x < 0 { VarintSizeIsLength(SignExtend(x)); }
  }

  lemma {:induction false} PlayerSize(p: Player)
    ensures SameCount(PlayerByteSize(p), |SerializePlayer(p)|)
  {
    var one, two, three := NumberField(8, p.id), StringField(18, p.name), NumberField(24, SignExtend(p.playerType));
    WriteAllAppends(one + two, three);
    WriteAllAppends(one, two);
    NumberBytes(8, p.id);
    StringBytes(18, p.name);
    EnumBytes(p.playerType);
  }

  lemma {:induction false} PlayersSize(players: seq<Player>)
    ensures SameCount(PlayersByteSize(players), |WriteAll(PlayersFields(players))|)
    decreases |players|
  {
    if players != [] {
      var fs := PlayersFields(players);
      assert fs[1..] == PlayersFields(players[1..]);
      PlayerSize(players[0]);
      ContentBytes(18, SerializePlayer(players[0]), PlayerByteSize(players[0]));
      PlayersSize(players[1..]);
    }
  }

  /** ByteSizeLong counts the bytes written, for every message it reports as small enough to be written: either
      both pass the 2 GB limit or they are equal. */
  lemma {:induction false} SizeIsBytesWritten(m: Message)
    ensures SameCount(ByteSize(m), |Serialize(m)|)
  {
    match m
    case CLogin =>
    case SLogin(success, players) =>
      WriteAllAppends(NumberField(8, if success then 1 else 0), PlayersFields(players));
      NumberBytes(8, if success then 1 else 0);
      PlayersSize(players);
      assert VarintSize(1) == 1 by { VarintSizeIsLength(1); }
    case CEnterGame(playerIndex) => NumberBytes(8, playerIndex);
    case SEnterGame(success, playerId) =>
      WriteAllAppends(NumberField(8, if success then 1 else 0), NumberField(16, playerId));
      NumberBytes(8, if success then 1 else 0);
      NumberBytes(16, playerId);
      assert VarintSize(1) == 1 by { VarintSizeIsLength(1); }
    case CChat(playerId, msg) =>
      WriteAllAppends(NumberField(8, playerId), StringField(18, msg));
      NumberBytes(8, playerId);
      StringBytes(18, msg);
    case SChat(playerId, msg, test) =>
      WriteAllAppends(NumberField(8, playerId) + StringField(18, msg), NumberField(24, test));
      WriteAllAppends(NumberField(8, playerId), StringField(18, msg));
      NumberBytes(8, playerId);
      StringBytes(18, msg);
      NumberBytes(24, test);
  }
}
