/** The generated class of the S_LOGIN message, with its repeated nested players. */
module LoginMessage {
  import opened Options
  import opened Varint
  import opened VarintCode
  import opened Wire
  import opened WireCode
  import opened PlayerMessage
  import M = Messages

  /** The values of a list of player objects. */
  ghost function Values(players: seq<Player>): seq<M.Player>
    reads players
  {
    seq(|players|, i requires 0 <= i < |players| reads players => players[i].Value())
  }

  /** Every player's cached size is the one its last ByteSizeLong counted. */
  ghost predicate Cached(players: seq<Player>)
    reads players
  {
    forall i | 0 <= i < |players| :: players[i].Cached()
  }

  /** The same of the first `n`. */
  ghost predicate CachedUpTo(players: seq<Player>, n: nat)
    reads players
  {
    forall i | 0 <= i < |players| && i < n :: players[i].Cached()
  }

  class SLogin {
    var success: bool
    var players: seq<Player>
    var cachedSize: Int32

    ghost function Value(): M.Message
      reads this, players
    {
      M.SLogin(success, Values(players))
    }

    constructor ()
      ensures Value() == M.SLogin(false, []) && cachedSize == 0
    {
      success, players, cachedSize := false, [], 0;
    }

    /** Parses what lies between the pointer and the limit onto this message.  Where the buffer in
        memory ends is open: before the bytes for which `available` does not hold the inner loop stops, and the
        outer loop goes on. */
    method InternalParse(utf8: M.Utf8, data: seq<Byte>, available: seq<Byte> -> bool) returns (end: End)
      modifies this`success, this`players
      ensures Ends(end, Value(), M.ParseOnto(utf8, old(Value()), data))
      ensures old(players) <= players && fresh(players[|old(players)|..])
    {
      ghost var whole := M.ParseOnto(utf8, Value(), data);
      var ptr := data;
      end := Success;
      while ptr != []
        invariant end.Success? && Parse({8, 18}, M.Take(utf8), Value(), ptr) == whole
        invariant old(players) <= players && fresh(players[|old(players)|..])
        decreases |ptr|
      {
        TagTurn({8, 18}, M.Take(utf8), Value(), ptr);
        var t := ReadTag(ptr);
        if t.None? { return Failure; }
        ghost var before := players;
        end, ptr := Switch(utf8, t.value.0, ptr[t.value.1..], available);
        assert players[|old(players)|..] == before[|old(players)|..] + players[|before|..];
        if end != Success { return; }
      }
    }

    /** The field after `tag`. */
    method Switch(utf8: M.Utf8, tag: nat, data: seq<Byte>, available: seq<Byte> -> bool) returns (end: End, ptr: seq<Byte>)
      modifies this`success, this`players
      ensures old(players) <= players && fresh(players[|old(players)|..])
      ensures end.Success? ==> |ptr| < |data|
      ensures end.Success? ==>
        Parse({8, 18}, M.Take(utf8), Value(), ptr) == AfterTag({8, 18}, M.Take(utf8), old(Value()), tag, data)
      ensures !end.Success? ==> Ends(end, Value(), AfterTag({8, 18}, M.Take(utf8), old(Value()), tag, data))
    {
      if tag == 8 {
        end, ptr := ParseSuccess(utf8, data);
      } else if tag == 18 {
        end, ptr := ParsePlayers(utf8, data, available);
      } else {
        return if Stops(tag) then Failure else Elsewhere, data;
      }
    }

    method ParseSuccess(ghost utf8: M.Utf8, data: seq<Byte>) returns (end: End, ptr: seq<Byte>)
      modifies this`success
      ensures end.Success? ==> |ptr| < |data|
      ensures end.Success? ==>
        Parse({8, 18}, M.Take(utf8), Value(), ptr) == AfterTag({8, 18}, M.Take(utf8), old(Value()), 8, data)
      ensures !end.Success? ==> Ends(end, Value(), AfterTag({8, 18}, M.Take(utf8), old(Value()), 8, data))
    {
      NumberTurn({8, 18}, M.Take(utf8), Value(), 8, data);
      var r := VarintParse(data);
      if r.None? { return Failure, data; }
      success := r.value.0 != 0;
      return Success, data[r.value.1..];
    }

    /** The inner loop: a player, and as long as the next byte is again its tag, another one. */
    method ParsePlayers(utf8: M.Utf8, data: seq<Byte>, available: seq<Byte> -> bool) returns (end: End, ptr: seq<Byte>)
      modifies this`players
      ensures old(players) <= players && fresh(players[|old(players)|..])
      ensures end.Success? ==> |ptr| < |data|
      ensures end.Success? ==>
        Parse({8, 18}, M.Take(utf8), Value(), ptr) == AfterTag({8, 18}, M.Take(utf8), old(Value()), 18, data)
      ensures !end.Success? ==> Ends(end, Value(), AfterTag({8, 18}, M.Take(utf8), old(Value()), 18, data))
    {
      ghost var tags, take := {8, 18}, M.Take(utf8);
      ghost var whole := AfterTag(tags, take, Value(), 18, data);
      ptr := data;
      while true
        invariant |ptr| <= |data|
        invariant AfterTag(tags, take, Value(), 18, ptr) == whole
        invariant old(players) <= players && fresh(players[|old(players)|..])
        decreases |ptr|
      {
        ghost var before := players;
        end, ptr := ParseMessage(utf8, ptr);
        assert players[|old(players)|..] == before[|old(players)|..] + players[|before|..];
        if end != Success { return; }
        if !available(ptr) { return; }
        if ptr == [] || ptr[0] != 18 { return; }
        TagOfPlayers(tags, take, Value(), ptr);
        ptr := ptr[1..];
      }
    }

    /** A size, and a new player parsed from that many bytes. */
    method ParseMessage(utf8: M.Utf8, data: seq<Byte>) returns (end: End, ptr: seq<Byte>)
      modifies this`players
      ensures old(players) <= players && fresh(players[|old(players)|..])
      ensures end.Success? ==> |ptr| < |data|
      ensures end.Success? ==>
        Parse({8, 18}, M.Take(utf8), Value(), ptr) == AfterTag({8, 18}, M.Take(utf8), old(Value()), 18, data)
      ensures !end.Success? ==> Ends(end, Value(), AfterTag({8, 18}, M.Take(utf8), old(Value()), 18, data))
    {
      ContentTurn({8, 18}, M.Take(utf8), Value(), 18, data);
      var r := ReadSize(data);
      if r.None? { return Failure, data; }
      var (size, k) := r.value;
      ptr := data[k..];
      if size > |ptr| { return Failure, ptr; }
      end := AddPlayer(utf8, ptr[..size]);
      ptr := ptr[size..];
    }

    /** _internal_add_players, then its own parse method. */
    method AddPlayer(utf8: M.Utf8, content: seq<Byte>) returns (end: End)
      modifies this`players
      ensures old(players) <= players && fresh(players[|old(players)|..])
      ensures Ends(end, Value(), M.TakesContent(utf8, old(Value()), content))
    {
      var p := new Player();
      end := p.InternalParse(utf8, content);
      players := players + [p];
      assert Values(players) == old(Values(players)) + [p.Value()];
    }

    method InternalSerialize(target: array<Byte>, at: nat) returns (end: nat)
      requires Cached(players) && M.ByteSize(Value()) <= INT_MAX
      requires at + |M.Serialize(Value())| <= target.Length
      modifies target
      ensures Wrote(target[..], old(target[..]), at, end, M.Serialize(Value()))
    {
      ghost var one := M.NumberField(8, if success then 1 else 0);
      ghost var vs := Values(players);
      ghost var t0 := target[..];
      WriteAllAppends(one, M.PlayersFields(vs));
      end := at;
      if success {
        OneField(one);
        end := WriteNumberToArray(8, 1, target, end);
      }
      ghost var t1, end1 := target[..], end;
      end := WritePlayers(target, end);
      WroteMore(t0, t1, target[..], at, end1, end, WriteAll(one), WriteAll(M.PlayersFields(vs)));
    }

    method WritePlayers(target: array<Byte>, at: nat) returns (end: nat)
      requires Cached(players) && M.ByteSize(Value()) <= INT_MAX
      requires at + |WriteAll(M.PlayersFields(Values(players)))| <= target.Length
      modifies target
      ensures Wrote(target[..], old(target[..]), at, end, WriteAll(M.PlayersFields(Values(players))))
    {
      ghost var vs := Values(players);
      ghost var t0 := target[..];
      end := at;
      var i := 0;
      while i < |players|
        invariant 0 <= i <= |players| && Values(players) == vs && Cached(players)
        invariant Wrote(target[..], t0, at, end, WriteAll(M.PlayersFields(vs[..i])))
      {
        ghost var t1, end1 := target[..], end;
        PlayersUpTo(vs, i);
        end := WritePlayer(vs, i, target, end);
        WroteMore(t0, t1, target[..], at, end1, end, WriteAll(M.PlayersFields(vs[..i])), Write(M.PlayerField(vs[i])));
        i := i + 1;
      }
      assert vs[..i] == vs;
    }

    method WritePlayer(ghost vs: seq<M.Player>, i: nat, target: array<Byte>, at: nat) returns (end: nat)
      requires i < |players| && Values(players) == vs && Cached(players) && M.PlayersByteSize(vs) <= INT_MAX
      requires at + |Write(M.PlayerField(vs[i]))| <= target.Length
      modifies target
      ensures Values(players) == vs && Cached(players)
      ensures Wrote(target[..], old(target[..]), at, end, Write(M.PlayerField(vs[i])))
    {
      CachedIsBytes(vs, i);
      end := InternalWriteMessage(players[i], target, at);
    }

    method ByteSizeLong() returns (totalSize: nat)
      modifies this`cachedSize, players`cachedSize
      ensures Value() == old(Value()) && totalSize == M.ByteSize(Value())
      ensures Cached(players) && cachedSize == M.ToInt32(totalSize)
    {
      totalSize := SizePlayers();
      if success { totalSize := totalSize + 1 + 1; }
      cachedSize := M.ToInt32(totalSize);
    }

    /** One byte of tag for each player, and its size with its prefix. */
    method SizePlayers() returns (totalSize: nat)
      modifies players`cachedSize
      ensures Values(players) == old(Values(players)) && totalSize == M.PlayersByteSize(Values(players))
      ensures Cached(players)
    {
      ghost var vs := Values(players);
      totalSize := |players|;
      var i := 0;
      while i < |players|
        invariant 0 <= i <= |players| && Values(players) == vs && CachedUpTo(players, i)
        invariant totalSize == |players| - i + M.PlayersByteSize(vs[..i])
      {
        var whole := SizePlayer(i);
        SizesUpTo(vs, i);
        totalSize := totalSize + whole;
        i := i + 1;
      }
      assert vs[..i] == vs;
    }

    /** MessageSize of one player, whose own size is cached on the way. */
    method SizePlayer(i: nat) returns (size: nat)
      requires i < |players| && CachedUpTo(players, i)
      modifies players`cachedSize
      ensures Values(players) == old(Values(players)) && CachedUpTo(players, i + 1)
      ensures size == LengthDelimitedSize(M.PlayerByteSize(Values(players)[i]))
    {
      var length := players[i].ByteSizeLong();
      size := LengthDelimitedSize(length);
    }

    /** Fails rather than write more than INT_MAX bytes or more than there is room for. */
    method SerializeToArray(data: array<Byte>, size: nat) returns (ok: bool)
      requires size <= data.Length
      modifies this`cachedSize, players`cachedSize, data
      ensures Value() == old(Value())
      ensures ok <==> |M.Serialize(Value())| <= INT_MAX && |M.Serialize(Value())| <= size
      ensures ok ==> Wrote(data[..], old(data[..]), 0, |M.Serialize(Value())|, M.Serialize(Value()))
      ensures !ok ==> data[..] == old(data[..])
    {
      var byteSize := ByteSizeLong();
      M.SizeIsBytesWritten(Value());
      if byteSize > INT_MAX { return false; }
      if size < byteSize { return false; }
      var end := InternalSerialize(data, 0);
      return true;
    }

    method MergeFrom(from: SLogin)
      requires from != this
      modifies this
      ensures Value() == M.Merge(old(Value()), old(from.Value()))
      ensures old(players) <= players && fresh(players[|old(players)|..])
    {
      ghost var before, theirs := Values(players), Values(from.players);
      var i := 0;
      while i < |from.players|
        invariant 0 <= i <= |from.players| && success == old(success)
        invariant Values(from.players) == theirs && Values(players) == before + theirs[..i]
        invariant old(players) <= players && fresh(players[|old(players)|..])
      {
        AddCopy(from.players[i]);
        assert theirs[..i + 1] == theirs[..i] + [theirs[i]];
        i := i + 1;
      }
      if from.success { success := from.success; }
    }

    /** A new player at the end, merged from another message's. */
    method AddCopy(theirs: Player)
      modifies this`players
      ensures |players| == |old(players)| + 1 && old(players) <= players && fresh(players[|old(players)|])
      ensures Values(players) == old(Values(players)) + [old(theirs.Value())]
    {
      var p := new Player();
      p.MergeFrom(theirs);
      players := players + [p];
    }
  }

  /** Tag, size prefix from the cached size, then the player itself. */
  method InternalWriteMessage(p: Player, target: array<Byte>, at: nat) returns (end: nat)
    requires p.cachedSize == |M.SerializePlayer(p.Value())|
    requires at + |Write(M.PlayerField(p.Value()))| <= target.Length
    modifies target
    ensures Wrote(target[..], old(target[..]), at, end, Write(M.PlayerField(p.Value())))
  {
    ghost var t0, bytes := target[..], M.SerializePlayer(p.Value());
    var mid := WriteVarintToArray(18, target, at);
    ghost var t1 := target[..];
    var body := WriteVarintToArray((p.cachedSize as int) % 0x1_0000_0000, target, mid);
    ghost var t2 := target[..];
    end := p.InternalSerialize(target, body);
    WroteMore(t1, t2, target[..], mid, body, end, Encode(|bytes|), bytes);
    WroteMore(t0, t1, target[..], at, mid, end, Encode(18), Encode(|bytes|) + bytes);
  }

  lemma {:induction false} CachedIsBytes(vs: seq<M.Player>, i: nat)
    requires i < |vs| && M.PlayersByteSize(vs) <= INT_MAX
    ensures M.ToInt32(M.PlayerByteSize(vs[i])) == |M.SerializePlayer(vs[i])|
  {
    EachWithin(vs, i);
    M.PlayerSize(vs[i]);
    SmallStays(M.PlayerByteSize(vs[i]), |M.SerializePlayer(vs[i])|);
  }

  lemma {:induction false} SmallStays(counted: nat, written: nat)
    requires M.SameCount(counted, written) && counted <= INT_MAX
    ensures M.ToInt32(counted) == written
  {
  }

  /** Tag 18 in its one byte. */
  lemma {:induction false} TagOfPlayers(
    tags: set<nat>, take: (M.Message, Field) -> Outcome<M.Message>, m: M.Message, s: seq<Byte>)
    requires s != [] && s[0] == 18
    ensures Parse(tags, take, m, s) == AfterTag(tags, take, m, 18, s[1..])
  {
  }

  lemma {:induction false} PlayersUpTo(vs: seq<M.Player>, i: nat)
    requires i < |vs|
    ensures WriteAll(M.PlayersFields(vs[..i + 1])) == WriteAll(M.PlayersFields(vs[..i])) + Write(M.PlayerField(vs[i]))
    ensures |WriteAll(M.PlayersFields(vs[..i + 1]))| <= |WriteAll(M.PlayersFields(vs))|
  {
    var a, b, c := M.PlayersFields(vs[..i]), [M.PlayerField(vs[i])], M.PlayersFields(vs[i + 1..]);
    assert M.PlayersFields(vs[..i + 1]) == a + b;
    assert M.PlayersFields(vs) == a + b + c;
    WriteAllAppends(a, b);
    WriteAllAppends(a + b, c);
    OneField(b);
  }

  lemma {:induction false} SizesUpTo(vs: seq<M.Player>, i: nat)
    requires i < |vs|
    ensures M.PlayersByteSize(vs[..i + 1]) == M.PlayersByteSize(vs[..i]) + 1 + LengthDelimitedSize(M.PlayerByteSize(vs[i]))
  {
    SizesAppend(vs[..i], vs[i]);
    assert vs[..i + 1] == vs[..i] + [vs[i]];
  }

  lemma {:induction false} SizesAppend(vs: seq<M.Player>, v: M.Player)
    ensures M.PlayersByteSize(vs + [v]) == M.PlayersByteSize(vs) + 1 + LengthDelimitedSize(M.PlayerByteSize(v))
  {
    if vs == [] {
      assert [v][1..] == [];
    } else {
      assert (vs + [v])[0] == vs[0] && (vs + [v])[1..] == vs[1..] + [v];
      SizesAppend(vs[1..], v);
    }
  }

  lemma {:induction false} EachWithin(vs: seq<M.Player>, i: nat)
    requires i < |vs|
    ensures M.PlayerByteSize(vs[i]) <= M.PlayersByteSize(vs)
  {
    LengthDelimitedSizeIs(M.PlayerByteSize(vs[0]));
    if i > 0 { EachWithin(vs[1..], i - 1); }
  }
}
