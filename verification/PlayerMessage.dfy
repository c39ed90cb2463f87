/** The generated class of the nested Player message. */
module PlayerMessage {
  import opened Options
  import opened Varint
  import opened VarintCode
  import opened Wire
  import opened WireCode
  import M = Messages

  class Player {
    var id: Uint64
    var name: seq<Byte>
    var playerType: Int32
    var cachedSize: Int32

    ghost function Value(): M.Player
      reads this
    {
      M.Player(id, name, playerType)
    }

    /** The cached size is the one ByteSizeLong counts. */
    ghost predicate Cached()
      reads this
    {
      cachedSize == M.ToInt32(M.PlayerByteSize(Value()))
    }

    constructor ()
      ensures Value() == M.NEW_PLAYER && cachedSize == 0
    {
      id, name, playerType, cachedSize := 0, [], 0, 0;
    }

    /** Parses what lies between the pointer and the limit onto this player. */
    method InternalParse(utf8: M.Utf8, data: seq<Byte>) returns (end: End)
      modifies this
      ensures cachedSize == old(cachedSize)
      ensures Ends(end, Value(), M.ParsePlayer(utf8, old(Value()), data))
    {
      ghost var take := M.TakePlayer(utf8);
      var ptr := data;
      while ptr != []
        invariant cachedSize == old(cachedSize)
        invariant M.ParsePlayer(utf8, Value(), ptr) == M.ParsePlayer(utf8, old(Value()), data)
        decreases |ptr|
      {
        TagTurn(M.PLAYER_TAGS, take, Value(), ptr);
        var t := ReadTag(ptr);
        if t.None? { return Failure; }
        var (tag, n) := t.value;
        ptr := ptr[n..];
        if tag == 8 {
          NumberTurn(M.PLAYER_TAGS, take, Value(), tag, ptr);
          var r := VarintParse(ptr);
          if r.None? { return Failure; }
          id := r.value.0;
          ptr := ptr[r.value.1..];
        } else if tag == 18 {
          ContentTurn(M.PLAYER_TAGS, take, Value(), tag, ptr);
          var r := ReadSize(ptr);
          if r.None? { return Failure; }
          var (size, k) := r.value;
          ptr := ptr[k..];
          if size > |ptr| { return Failure; }
          name := ptr[..size];
          ptr := ptr[size..];
          if !utf8(name) { return Failure; }
        } else if tag == 24 {
          NumberTurn(M.PLAYER_TAGS, take, Value(), tag, ptr);
          var r := VarintParse(ptr);
          if r.None? { return Failure; }
          playerType := M.ToInt32(r.value.0);
          ptr := ptr[r.value.1..];
        } else {
          return if Stops(tag) then Failure else Elsewhere;
        }
      }
      return Success;
    }

    method InternalSerialize(target: array<Byte>, at: nat) returns (end: nat)
      requires at + |M.SerializePlayer(Value())| <= target.Length
      modifies target
      ensures Wrote(target[..], old(target[..]), at, end, M.SerializePlayer(Value()))
    {
      end := at;
      ghost var one, two, three := M.NumberField(8, id), M.StringField(18, name), M.NumberField(24, M.SignExtend(playerType));
      ThreeParts(one, two, three);
      ghost var t0 := target[..];
      if id != 0 {
        OneField(one);
        end := WriteNumberToArray(8, id, target, end);
      }
      ghost var t1, end1 := target[..], end;
      if name != [] {
        OneField(two);
        end := WriteStringToArray(18, name, target, end);
      }
      ghost var t2, end2 := target[..], end;
      M.EnumSurvives(playerType);
      if playerType != 0 {
        OneField(three);
        end := WriteNumberToArray(24, M.SignExtend(playerType), target, end);
      }
      WroteMore(t0, t1, t2, at, end1, end2, WriteAll(one), WriteAll(two));
      WroteMore(t0, t2, target[..], at, end2, end, WriteAll(one) + WriteAll(two), WriteAll(three));
    }

    method ByteSizeLong() returns (totalSize: nat)
      modifies this`cachedSize
      ensures Value() == old(Value()) && totalSize == M.PlayerByteSize(Value()) && Cached()
    {
      totalSize := 0;
      if name != [] { totalSize := totalSize + 1 + LengthDelimitedSize(|name|); }
      if id != 0 { totalSize := totalSize + 1 + VarintSize(id); }
      if playerType != 0 { totalSize := totalSize + 1 + M.EnumSize(playerType); }
      cachedSize := M.ToInt32(totalSize);
    }

    method MergeFrom(from: Player)
      modifies this
      ensures Value() == M.MergePlayer(old(Value()), old(from.Value())) && cachedSize == old(cachedSize)
    {
      if from.name != [] { name := from.name; }
      if from.id != 0 { id := from.id; }
      if from.playerType != 0 { playerType := from.playerType; }
    }

    method Clear()
      modifies this
      ensures Value() == M.NEW_PLAYER && cachedSize == old(cachedSize)
    {
      id, name, playerType := 0, [], 0;
    }
  }

  lemma {:induction false} OneField(fields: seq<Field>)
    requires |fields| == 1
    ensures WriteAll(fields) == Write(fields[0])
  {
  }

  lemma {:induction false} ThreeParts(one: seq<Field>, two: seq<Field>, three: seq<Field>)
    ensures WriteAll(one + two + three) == WriteAll(one) + WriteAll(two) + WriteAll(three)
  {
    WriteAllAppends(one + two, three);
    WriteAllAppends(one, two);
  }
}
