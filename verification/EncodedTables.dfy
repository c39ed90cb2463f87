/** File and extension lookups of the encoded index over any run: they depend on the two tables alone, whatever
    becomes of the symbols. */
module EncodedTables {
  import opened Sequences
  import opened Options
  import opened Names
  import opened Ordered
  import opened Files
  import opened EncodedIndex
  import opened EncodedRuns
  import opened EncodedTheorems
  import SimpleIndex
  import SymbolTable
  import T = TwoLevel

  function NamesOf<V>(s: State<V>): T.Table<string> { T.Table(s.names, s.namesFlat) }

  function ExtensionsOf<V>(s: State<V>): T.Table<ExtensionKey> { T.Table(s.extensions, s.extensionsFlat) }

  // ---------- what a run puts into the two tables ----------

  /** The files of a run take the offsets from `n` on. */
  function NameMoves<V>(n: nat, events: seq<Event<V>>): seq<T.Move<string>>
    decreases |events|
  {
    if events == [] then []
    else match events[0]
      case AddFile(f, v) =>
        (if ValidateSymbolName(f.package) then [T.Put(f.name, n)] else []) + NameMoves(n + 1, events[1..])
      case Lookup => [T.Flatten] + NameMoves(n, events[1..])
  }

  /** The keys of the qualified extensions reached before an item is rejected. */
  function ReachedKeys<V>(s: State<V>, ops: seq<Op>): seq<ExtensionKey>
    requires s.values != []
    decreases |ops|
  {
    if ops == [] then []
    else
      var (s1, ok) := Step(s, ops[0]);
      OwnKeys(ops[0]) + if ok then ReachedKeys(s1, ops[1..]) else []
  }

  function OwnKeys(op: Op): seq<ExtensionKey> {
    if op.Extension? && Qualified(op.extendee) then [(op.extendee[1..], op.number)] else []
  }

  function KeysOfFile<V>(s: State<V>, f: File, v: V): seq<ExtensionKey> {
    var o := Opened(s, f, v);
    if o.Some? then ReachedKeys(o.value, FileOps(f)) else []
  }

  function Puts(keys: seq<ExtensionKey>, n: nat): seq<T.Move<ExtensionKey>> {
    seq(|keys|, i requires 0 <= i < |keys| => T.Put(keys[i], n))
  }

  function ExtensionMoves<V>(s: State<V>, events: seq<Event<V>>): seq<T.Move<ExtensionKey>>
    decreases |events|
  {
    if events == [] then []
    else match events[0]
      case AddFile(f, v) => Puts(KeysOfFile(s, f, v), |s.values|) + ExtensionMoves(Add(s, f, v).0, events[1..])
      case Lookup => [T.Flatten] + ExtensionMoves(EnsureFlat(s), events[1..])
  }

  // ---------- the specification: who came first ----------

  /** The value a key was first offered with. */
  function FirstOf<K(==), V>(offers: seq<(K, V)>, k: K): Option<V> {
    if offers == [] then None else if offers[0].0 == k then Some(offers[0].1) else FirstOf(offers[1..], k)
  }

  /** The files offered under their names: all with a valid package. */
  function NameOffers<V>(events: seq<Event<V>>): seq<(string, V)>
    decreases |events|
  {
    if events == [] then []
    else match events[0]
      case AddFile(f, v) => (if ValidateSymbolName(f.package) then [(f.name, v)] else []) + NameOffers(events[1..])
      case Lookup => NameOffers(events[1..])
  }

  function Offers<V>(keys: seq<ExtensionKey>, v: V): seq<(ExtensionKey, V)> {
    seq(|keys|, i requires 0 <= i < |keys| => (keys[i], v))
  }

  /** The extensions offered: those of each file up to its first rejected item. */
  function ExtensionOffers<V>(s: State<V>, events: seq<Event<V>>): seq<(ExtensionKey, V)>
    decreases |events|
  {
    if events == [] then []
    else match events[0]
      case AddFile(f, v) => Offers(KeysOfFile(s, f, v), v) + ExtensionOffers(Add(s, f, v).0, events[1..])
      case Lookup => ExtensionOffers(EnsureFlat(s), events[1..])
  }

  function QualifiedKeys(ops: seq<Op>): seq<ExtensionKey> {
    if ops == [] then [] else OwnKeys(ops[0]) + QualifiedKeys(ops[1..])
  }

  /** All qualified extensions the files of a run declare. */
  function DeclaredExtensions<V>(events: seq<Event<V>>): seq<(ExtensionKey, V)>
    decreases |events|
  {
    if events == [] then []
    else match events[0]
      case AddFile(f, v) => Offers(QualifiedKeys(FileOps(f)), v) + DeclaredExtensions(events[1..])
      case Lookup => DeclaredExtensions(events[1..])
  }

  /** The names and keys put while already flattened and not in the tree. */
  function ShadowedNames<V>(events: seq<Event<V>>): seq<string> {
    T.Shadowed(Less, T.Table([], []), NameMoves(0, events))
  }

  function ShadowedExtensions<V>(events: seq<Event<V>>): seq<ExtensionKey> {
    T.Shadowed(ExtensionLess, T.Table([], []), ExtensionMoves(Empty<V>(), events))
  }

  function ValuesOf<V>(events: seq<Event<V>>): seq<V>
    decreases |events|
  {
    if events == [] then []
    else match events[0]
      case AddFile(_, v) => [v] + ValuesOf(events[1..])
      case Lookup => ValuesOf(events[1..])
  }

  ghost predicate DistinctValues<V>(events: seq<Event<V>>) {
    forall i, j | 0 <= i < j < |ValuesOf(events)| :: ValuesOf(events)[i] != ValuesOf(events)[j]
  }

  // ---------- the tables follow their moves ----------

  lemma {:induction false} StepTables<V>(s: State<V>, op: Op)
    requires s.values != []
    ensures var s1 := Step(s, op).0;
      && s1.values == s.values && NamesOf(s1) == NamesOf(s)
      && ExtensionsOf(s1) == T.AfterMoves(ExtensionLess, ExtensionsOf(s), Puts(OwnKeys(op), |s.values| - 1))
  {
    match op
    case Symbol(_) => assert Puts([], |s.values| - 1) == [];
    case Extension(extendee, number) =>
      if Qualified(extendee) {
        OnePut(ExtensionsOf(s), (extendee[1..], number), |s.values| - 1);
        ExtensionPut(s, extendee, number);
      } else {
        assert Puts([], |s.values| - 1) == [];
      }
  }

  lemma {:induction false} ExtensionPut<V>(s: State<V>, extendee: string, number: int)
    requires s.values != [] && Qualified(extendee)
    ensures var s1 := Step(s, Extension(extendee, number)).0;
      && s1.values == s.values && NamesOf(s1) == NamesOf(s)
      && ExtensionsOf(s1) == T.Moved(ExtensionLess, ExtensionsOf(s), T.Put((extendee[1..], number), |s.values| - 1))
  {
  }

  lemma {:induction false} OnePut(t: T.Table<ExtensionKey>, key: ExtensionKey, n: nat)
    ensures T.AfterMoves(ExtensionLess, t, Puts([key], n)) == T.Moved(ExtensionLess, t, T.Put(key, n))
  {
    var moves := Puts([key], n);
    assert moves[0] == T.Put(key, n) && moves[1..] == [];
  }

  lemma {:induction false} PutsAppend(a: seq<ExtensionKey>, b: seq<ExtensionKey>, n: nat)
    ensures Puts(a + b, n) == Puts(a, n) + Puts(b, n)
  {
  }

  lemma {:induction false} RunTables<V>(s: State<V>, ops: seq<Op>)
    requires s.values != []
    ensures var s1 := Run(s, ops).0;
      && s1.values == s.values && NamesOf(s1) == NamesOf(s)
      && ExtensionsOf(s1) == T.AfterMoves(ExtensionLess, ExtensionsOf(s), Puts(ReachedKeys(s, ops), |s.values| - 1))
    decreases |ops|
  {
    if ops != [] {
      var (s1, ok) := Step(s, ops[0]);
      StepTables(s, ops[0]);
      if ok {
        RunTables(s1, ops[1..]);
        PutsAppend(OwnKeys(ops[0]), ReachedKeys(s1, ops[1..]), |s.values| - 1);
        T.AfterMovesAppend(ExtensionLess, ExtensionsOf(s), Puts(OwnKeys(ops[0]), |s.values| - 1),
          Puts(ReachedKeys(s1, ops[1..]), |s.values| - 1));
      } else {
        assert OwnKeys(ops[0]) + [] == OwnKeys(ops[0]);
      }
    }
  }

  function NamePut<V>(s: State<V>, f: File): seq<T.Move<string>> {
    if ValidateSymbolName(f.package) then [T.Put(f.name, |s.values|)] else []
  }

  lemma {:induction false} AddTables<V>(s: State<V>, f: File, v: V)
    ensures var s1 := Add(s, f, v).0;
      && |s1.values| == |s.values| + 1 && s1.values[|s.values|].value == v
      && (forall i | 0 <= i < |s.values| :: s1.values[i] == s.values[i])
      && NamesOf(s1) == T.AfterMoves(Less, NamesOf(s), NamePut(s, f))
      && ExtensionsOf(s1) == T.AfterMoves(ExtensionLess, ExtensionsOf(s), Puts(KeysOfFile(s, f, v), |s.values|))
  {
    var o := Opened(s, f, v);
    if o.Some? { RunTables(o.value, FileOps(f)); }
    assert ValidateSymbolName(f.package) ==> NamePut(s, f)[1..] == [];
  }

  lemma {:induction false} NamesFollow<V>(s: State<V>, events: seq<Event<V>>)
    ensures NamesOf(After(s, events)) == T.AfterMoves(Less, NamesOf(s), NameMoves(|s.values|, events))
    decreases |events|
  {
    if events != [] {
      match events[0] {
        case AddFile(f, v) =>
          var s1 := Add(s, f, v).0;
          AddTables(s, f, v);
          NamesFollow(s1, events[1..]);
          T.AfterMovesAppend(Less, NamesOf(s), NamePut(s, f), NameMoves(|s.values| + 1, events[1..]));
        case Lookup =>
          NamesFollow(EnsureFlat(s), events[1..]);
          FlattenFirst(Less, NamesOf(s), NameMoves(|s.values|, events[1..]));
      }
    }
  }

  lemma {:induction false} FlattenFirst<K>(less: (K, K) -> bool, t: T.Table<K>, rest: seq<T.Move<K>>)
    ensures T.AfterMoves(less, t, [T.Flatten] + rest) == T.AfterMoves(less, T.Moved(less, t, T.Flatten), rest)
    ensures T.Shadowed(less, t, [T.Flatten] + rest) == T.Shadowed(less, T.Moved(less, t, T.Flatten), rest)
  {
    assert ([T.Flatten] + rest)[1..] == rest;
  }

  lemma {:induction false} ExtensionsFollow<V>(s: State<V>, events: seq<Event<V>>)
    ensures ExtensionsOf(After(s, events)) == T.AfterMoves(ExtensionLess, ExtensionsOf(s), ExtensionMoves(s, events))
    decreases |events|
  {
    if events != [] {
      match events[0] {
        case AddFile(f, v) =>
          var s1 := Add(s, f, v).0;
          AddTables(s, f, v);
          ExtensionsFollow(s1, events[1..]);
          T.AfterMovesAppend(ExtensionLess, ExtensionsOf(s), Puts(KeysOfFile(s, f, v), |s.values|), ExtensionMoves(s1, events[1..]));
        case Lookup =>
          ExtensionsFollow(EnsureFlat(s), events[1..]);
          FlattenFirst(ExtensionLess, ExtensionsOf(s), ExtensionMoves(EnsureFlat(s), events[1..]));
      }
    }
  }

  // ---------- offsets ----------

  lemma {:induction false} NamesNumbered<V>(n: nat, events: seq<Event<V>>, flatBound: nat, bound: nat)
    requires flatBound <= n && bound <= n
    ensures T.Numbered(NameMoves(n, events), flatBound, bound)
    decreases |events|
  {
    if events != [] {
      match events[0] {
        case AddFile(f, _) =>
          var rest := NameMoves(n + 1, events[1..]);
          NamesNumbered(n + 1, events[1..], flatBound, bound);
          NamesNumbered(n + 1, events[1..], flatBound, n + 1);
          if ValidateSymbolName(f.package) { assert ([T.Put(f.name, n)] + rest)[1..] == rest; } else { assert [] + rest == rest; }
        case Lookup =>
          NamesNumbered(n, events[1..], if flatBound <= bound then bound else flatBound, bound);
          FlattenNumbered(NameMoves(n, events[1..]), flatBound, bound);
      }
    }
  }

  lemma {:induction false} PutsNumbered(keys: seq<ExtensionKey>, rest: seq<T.Move<ExtensionKey>>, n: nat, flatBound: nat, bound: nat)
    requires flatBound <= n && bound <= n + 1
    requires T.Numbered(rest, flatBound, bound) && T.Numbered(rest, flatBound, n + 1)
    ensures T.Numbered(Puts(keys, n) + rest, flatBound, bound)
    decreases |keys|
  {
    if keys == [] {
      assert Puts(keys, n) + rest == rest;
    } else {
      PutsNumbered(keys[1..], rest, n, flatBound, n + 1);
      assert (Puts(keys, n) + rest)[1..] == Puts(keys[1..], n) + rest;
    }
  }

  lemma {:induction false} AddPushes<V>(s: State<V>, f: File, v: V)
    ensures |Add(s, f, v).0.values| == |s.values| + 1
  {
    AddTables(s, f, v);
  }

  lemma {:induction false} ExtensionsNumbered<V>(s: State<V>, events: seq<Event<V>>, flatBound: nat, bound: nat)
    requires flatBound <= |s.values| && bound <= |s.values|
    ensures T.Numbered(ExtensionMoves(s, events), flatBound, bound)
    decreases |events|
  {
    if events != [] {
      match events[0] {
        case AddFile(f, v) =>
          AddPushes(s, f, v);
          ExtensionsNumbered(Add(s, f, v).0, events[1..], flatBound, bound);
          ExtensionsNumbered(Add(s, f, v).0, events[1..], flatBound, |s.values| + 1);
          PutsNumbered(KeysOfFile(s, f, v), ExtensionMoves(Add(s, f, v).0, events[1..]), |s.values|, flatBound, bound);
        case Lookup =>
          ExtensionsNumbered(EnsureFlat(s), events[1..], if flatBound <= bound then bound else flatBound, bound);
          FlattenNumbered(ExtensionMoves(EnsureFlat(s), events[1..]), flatBound, bound);
      }
    }
  }

  lemma {:induction false} FlattenNumbered<K>(rest: seq<T.Move<K>>, flatBound: nat, bound: nat)
    requires T.Numbered(rest, if flatBound <= bound then bound else flatBound, bound)
    ensures T.Numbered([T.Flatten] + rest, flatBound, bound)
  {
    assert ([T.Flatten] + rest)[1..] == rest;
  }

  function Pushed<V>(s: State<V>): seq<V> {
    seq(|s.values|, i requires 0 <= i < |s.values| => s.values[i].value)
  }

  lemma {:induction false} AddPushed<V>(s: State<V>, f: File, v: V)
    ensures Pushed(Add(s, f, v).0) == Pushed(s) + [v]
  {
    AddTables(s, f, v);
    OneMorePushed(s, Add(s, f, v).0, v);
  }

  lemma {:induction false} OneMorePushed<V>(s: State<V>, s1: State<V>, v: V)
    requires |s1.values| == |s.values| + 1 && s1.values[|s.values|].value == v
    requires forall i | 0 <= i < |s.values| :: s1.values[i] == s.values[i]
    ensures Pushed(s1) == Pushed(s) + [v]
  {
    forall i | 0 <= i < |s1.values| ensures Pushed(s1)[i] == (Pushed(s) + [v])[i] {}
  }

  /** The values pushed are those of the files, in order. */
  lemma {:induction false} PushedFollow<V>(s: State<V>, events: seq<Event<V>>)
    ensures Pushed(After(s, events)) == Pushed(s) + ValuesOf(events)
    decreases |events|
  {
    if events == [] {
      assert Pushed(s) + [] == Pushed(s);
    } else {
      match events[0] {
        case AddFile(f, v) =>
          PushedFollow(Add(s, f, v).0, events[1..]);
          AddPushed(s, f, v);
          Associative(Pushed(s), [v], ValuesOf(events[1..]));
        case Lookup =>
          PushedFollow(EnsureFlat(s), events[1..]);
          assert Pushed(EnsureFlat(s)) == Pushed(s);
      }
    }
  }

  lemma {:induction false} PushedParts<V>(s1: State<V>, s: State<V>, more: seq<V>)
    requires Pushed(s1) == Pushed(s) + more
    ensures |s1.values| == |s.values| + |more|
    ensures forall i | 0 <= i < |s.values| :: s1.values[i].value == s.values[i].value
    ensures forall i | 0 <= i < |more| :: s1.values[|s.values| + i].value == more[i]
  {
    assert |Pushed(s1)| == |s1.values| && |Pushed(s)| == |s.values|;
    forall i | 0 <= i < |s.values| ensures s1.values[i].value == s.values[i].value {
      assert Pushed(s1)[i] == Pushed(s)[i];
    }
    forall i | 0 <= i < |more| ensures s1.values[|s.values| + i].value == more[i] {
      assert Pushed(s1)[|s.values| + i] == more[i];
    }
  }

  lemma {:induction false} ValuesFollow<V>(s: State<V>, events: seq<Event<V>>)
    ensures var vs := After(s, events).values;
      && |vs| == |s.values| + |ValuesOf(events)|
      && (forall i | 0 <= i < |s.values| :: vs[i].value == s.values[i].value)
      && (forall i | 0 <= i < |ValuesOf(events)| :: vs[|s.values| + i].value == ValuesOf(events)[i])
  {
    PushedFollow(s, events);
    PushedParts(After(s, events), s, ValuesOf(events));
  }

  // ---------- first put and first offered ----------

  lemma {:induction false} FirstOfAppend<K, V>(a: seq<(K, V)>, b: seq<(K, V)>, k: K)
    ensures FirstOf(a + b, k) == if FirstOf(a, k).Some? then FirstOf(a, k) else FirstOf(b, k)
    decreases |a|
  {
    if a == [] {
      assert a + b == b;
    } else {
      assert (a + b)[0] == a[0] && (a + b)[1..] == a[1..] + b;
      FirstOfAppend(a[1..], b, k);
    }
  }

  lemma {:induction false} FirstOfOneFile<V>(keys: seq<ExtensionKey>, n: nat, v: V, k: ExtensionKey)
    ensures T.FirstPut(Puts(keys, n), k) == if k in keys then Some(n) else None
    ensures FirstOf(Offers(keys, v), k) == if k in keys then Some(v) else None
    decreases |keys|
  {
    if keys != [] {
      FirstOfOneFile(keys[1..], n, v, k);
      assert Puts(keys, n)[1..] == Puts(keys[1..], n) && Offers(keys, v)[1..] == Offers(keys[1..], v);
      assert keys == [keys[0]] + keys[1..];
    }
  }

  /** The first offset is that of the first offer. */
  ghost predicate SameFirst<V>(s: State<V>, put: Option<nat>, offer: Option<V>) {
    && (put.Some? <==> offer.Some?)
    && (put.Some? ==> put.value < |s.values| && s.values[put.value].value == offer.value)
  }

  lemma {:induction false} NamesFirst<V>(s: State<V>, events: seq<Event<V>>, k: string)
    ensures SameFirst(After(s, events), T.FirstPut(NameMoves(|s.values|, events), k), FirstOf(NameOffers(events), k))
    decreases |events|
  {
    if events != [] {
      match events[0] {
        case AddFile(f, v) =>
          var s1 := Add(s, f, v).0;
          AddTables(s, f, v);
          NamesFirst(s1, events[1..], k);
          ValuesFollow(s1, events[1..]);
          if ValidateSymbolName(f.package) {
            assert ([T.Put(f.name, |s.values|)] + NameMoves(|s.values| + 1, events[1..]))[1..] == NameMoves(|s.values| + 1, events[1..]);
            assert ([(f.name, v)] + NameOffers(events[1..]))[1..] == NameOffers(events[1..]);
          } else {
            assert [] + NameMoves(|s.values| + 1, events[1..]) == NameMoves(|s.values| + 1, events[1..]);
            assert [] + NameOffers(events[1..]) == NameOffers(events[1..]);
          }
        case Lookup =>
          NamesFirst(EnsureFlat(s), events[1..], k);
          assert ([T.Flatten] + NameMoves(|s.values|, events[1..]))[1..] == NameMoves(|s.values|, events[1..]);
      }
    }
  }

  lemma {:induction false} ExtensionsFirst<V>(s: State<V>, events: seq<Event<V>>, k: ExtensionKey)
    ensures SameFirst(After(s, events), T.FirstPut(ExtensionMoves(s, events), k), FirstOf(ExtensionOffers(s, events), k))
    decreases |events|
  {
    if events != [] {
      match events[0] {
        case AddFile(f, v) =>
          var s1, keys := Add(s, f, v).0, KeysOfFile(s, f, v);
          AddTables(s, f, v);
          ExtensionsFirst(s1, events[1..], k);
          ValuesFollow(s1, events[1..]);
          FirstOfOneFile(keys, |s.values|, v, k);
          T.FirstPutAppend(Puts(keys, |s.values|), ExtensionMoves(s1, events[1..]), k);
          FirstOfAppend(Offers(keys, v), ExtensionOffers(s1, events[1..]), k);
        case Lookup =>
          ExtensionsFirst(EnsureFlat(s), events[1..], k);
          var rest := ExtensionMoves(EnsureFlat(s), events[1..]);
          assert ([T.Flatten] + rest)[1..] == rest;
      }
    }
  }

  // ---------- what lookups find, over every run ----------

  /** An offset found is that of a file of the run. */
  lemma {:induction false} OffsetsOfFiles<K(!new)>(less: (K, K) -> bool, t: T.Table<K>, moves: seq<T.Move<K>>, n: nat)
    requires T.OffsetsBelow(t.tree, n) && T.OffsetsBelow(t.flat, n)
    requires forall i | 0 <= i < |moves| && moves[i].Put? :: moves[i].offset < n
    ensures T.OffsetsBelow(T.AfterMoves(less, t, moves).tree, n) && T.OffsetsBelow(T.AfterMoves(less, t, moves).flat, n)
    decreases |moves|
  {
    if moves != [] {
      T.BoundsKept(less, t, moves[0], n, n);
      OffsetsOfFiles(less, T.Moved(less, t, moves[0]), moves[1..], n);
    }
  }

  lemma {:induction false} NameMovesBelow<V>(n: nat, events: seq<Event<V>>)
    ensures forall i | 0 <= i < |NameMoves(n, events)| && NameMoves(n, events)[i].Put? ::
      NameMoves(n, events)[i].offset < n + |ValuesOf(events)|
    decreases |events|
  {
    if events != [] {
      match events[0] {
        case AddFile(_, _) => NameMovesBelow(n + 1, events[1..]);
        case Lookup => NameMovesBelow(n, events[1..]);
      }
    }
  }

  lemma {:induction false} ExtensionMovesBelow<V>(s: State<V>, events: seq<Event<V>>)
    ensures forall i | 0 <= i < |ExtensionMoves(s, events)| && ExtensionMoves(s, events)[i].Put? ::
      ExtensionMoves(s, events)[i].offset < |s.values| + |ValuesOf(events)|
    decreases |events|
  {
    if events != [] {
      match events[0] {
        case AddFile(f, v) =>
          AddTables(s, f, v);
          ExtensionMovesBelow(Add(s, f, v).0, events[1..]);
        case Lookup => ExtensionMovesBelow(EnsureFlat(s), events[1..]);
      }
    }
  }

  lemma {:induction false} DifferentValues<V>(s: State<V>, values: seq<V>, i: nat, j: nat)
    requires Pushed(s) == values && i < |s.values| && j < |s.values| && i != j
    ensures i < |values| && j < |values| && s.values[i].value == values[i] && s.values[j].value == values[j]
  {
    assert |Pushed(s)| == |s.values| && Pushed(s)[i] == s.values[i].value && Pushed(s)[j] == s.values[j].value;
  }

  /** Equal offsets mean equal values, and the other way round where all values differ. */
  lemma {:induction false} ValuesDecide<V>(s: State<V>, events: seq<Event<V>>, found: Option<nat>, first: Option<nat>, offer: Option<V>)
    requires s == After(Empty<V>(), events) && SameFirst(s, first, offer)
    requires (found.Some? <==> first.Some?) && (found.Some? ==> found.value < |s.values|)
    ensures found == first ==> ValueAt(s, found) == offer
    ensures DistinctValues(events) && ValueAt(s, found) == offer ==> found == first
  {
    PushedFollow(Empty<V>(), events);
    assert [] + ValuesOf(events) == ValuesOf(events);
    if found.Some? && found != first {
      DifferentValues(s, ValuesOf(events), found.value, first.value);
    }
  }

  lemma {:induction false} FoundInRange<K(!new)>(less: (K, K) -> bool, t: T.Table<K>, n: nat, k: K)
    requires StrictOrder(less) && T.TableOk(less, t) && T.OffsetsBelow(t.tree, n) && T.OffsetsBelow(t.flat, n)
    ensures T.Found(less, t, k).Some? ==> T.Found(less, t, k).value < n
  {
    T.FoundInEither(less, t, k);
    T.FoundBelow(less, t.tree, n, k);
    T.FoundBelow(less, t.flat, n, k);
  }

  /** The name table after any run. */
  lemma {:induction false} NamesAfter<V>(events: seq<Event<V>>, name: string)
    ensures var s := After(Empty<V>(), events);
      && T.TableOk(Less, NamesOf(s)) && T.OffsetsBelow(s.names, |s.values|) && T.OffsetsBelow(s.namesFlat, |s.values|)
      && var found, first := T.Found(Less, NamesOf(s), name), T.FirstPut(NameMoves(0, events), name);
      && SameFirst(s, first, FirstOf(NameOffers(events), name))
      && (found.Some? <==> first.Some?) && (found.Some? ==> found.value < |s.values|)
      && (found == first <==> name !in ShadowedNames(events))
  {
    var s := After(Empty<V>(), events);
    SymbolTable.NameOrder();
    NamesFollow(Empty<V>(), events);
    NamesNumbered(0, events, 0, 0);
    NamesFirst(Empty<V>(), events, name);
    ValuesFollow(Empty<V>(), events);
    NameMovesBelow(0, events);
    OffsetsOfFiles(Less, T.Table([], []), NameMoves(0, events), |s.values|);
    T.FirstFoundIffNotShadowed(Less, NameMoves(0, events), name);
    FoundInRange(Less, NamesOf(s), |s.values|, name);
  }

  lemma {:induction false} ExtensionsAfter<V>(events: seq<Event<V>>, key: ExtensionKey)
    ensures var s := After(Empty<V>(), events);
      && T.TableOk(ExtensionLess, ExtensionsOf(s))
      && T.OffsetsBelow(s.extensions, |s.values|) && T.OffsetsBelow(s.extensionsFlat, |s.values|)
      && var found, first := T.Found(ExtensionLess, ExtensionsOf(s), key), T.FirstPut(ExtensionMoves(Empty<V>(), events), key);
      && SameFirst(s, first, FirstOf(ExtensionOffers(Empty<V>(), events), key))
      && (found.Some? <==> first.Some?) && (found.Some? ==> found.value < |s.values|)
      && (found == first <==> key !in ShadowedExtensions(events))
      && T.CountKey(EnsureFlat(s).extensionsFlat, key) == T.Times(first) + multiset(ShadowedExtensions(events))[key]
  {
    var s, moves := After(Empty<V>(), events), ExtensionMoves(Empty<V>(), events);
    ExtensionOrder();
    ExtensionsFollow(Empty<V>(), events);
    ExtensionsNumbered(Empty<V>(), events, 0, 0);
    ExtensionsFirst(Empty<V>(), events, key);
    ValuesFollow(Empty<V>(), events);
    ExtensionMovesBelow(Empty<V>(), events);
    OffsetsOfFiles(ExtensionLess, T.Table([], []), moves, |s.values|);
    T.FirstFoundIffNotShadowed(ExtensionLess, moves, key);
    FoundInRange(ExtensionLess, ExtensionsOf(s), |s.values|, key);
  }

  /** After any run at all, a file lookup finds the first file of that name, unless the name was put again after it
      had been flattened; and with values that all differ, only then. */
  lemma {:induction false} FirstFileFoundIffNotShadowed<V>(events: seq<Event<V>>, name: string)
    ensures var found := FindFile(EnsureFlat(After(Empty<V>(), events)), name);
      && (name !in ShadowedNames(events) ==> found == FirstOf(NameOffers(events), name))
      && (DistinctValues(events) && found == FirstOf(NameOffers(events), name) ==> name !in ShadowedNames(events))
  {
    var s := After(Empty<V>(), events);
    NamesAfter(events, name);
    ValuesDecide(s, events, T.Found(Less, NamesOf(s), name), T.FirstPut(NameMoves(0, events), name), FirstOf(NameOffers(events), name));
    assert FindFile(EnsureFlat(s), name) == ValueAt(s, T.Found(Less, NamesOf(s), name));
  }

  /** The same for extensions. */
  lemma {:induction false} FirstExtensionFoundIffNotShadowed<V>(events: seq<Event<V>>, key: ExtensionKey)
    ensures var found := EncodedIndex.FindExtension(EnsureFlat(After(Empty<V>(), events)), key);
      && (key !in ShadowedExtensions(events) ==> found == FirstOf(ExtensionOffers(Empty<V>(), events), key))
      && (DistinctValues(events) && found == FirstOf(ExtensionOffers(Empty<V>(), events), key) ==> key !in ShadowedExtensions(events))
  {
    var s := After(Empty<V>(), events);
    ExtensionsAfter(events, key);
    ValuesDecide(s, events, T.Found(ExtensionLess, ExtensionsOf(s), key), T.FirstPut(ExtensionMoves(Empty<V>(), events), key),
      FirstOf(ExtensionOffers(Empty<V>(), events), key));
    assert EncodedIndex.FindExtension(EnsureFlat(s), key) == ValueAt(s, T.Found(ExtensionLess, ExtensionsOf(s), key));
  }

  ghost predicate FirstFileFound<V>(events: seq<Event<V>>, name: string) {
    FindFile(EnsureFlat(After(Empty<V>(), events)), name) == FirstOf(NameOffers(events), name)
  }

  ghost predicate FirstExtensionFound<V>(events: seq<Event<V>>, key: ExtensionKey) {
    EncodedIndex.FindExtension(EnsureFlat(After(Empty<V>(), events)), key) == FirstOf(ExtensionOffers(Empty<V>(), events), key)
  }

  /** After any run of files with values that all differ, accepted or not, every file and extension lookup finds
      who came first if and only if nothing was ever put again after it had been flattened. */
  lemma {:induction false} FirstAlwaysFoundIffNoneShadowed<V>(events: seq<Event<V>>)
    requires DistinctValues(events)
    ensures (forall name :: FirstFileFound(events, name)) && (forall key :: FirstExtensionFound(events, key)) <==>
      ShadowedNames(events) == [] && ShadowedExtensions(events) == []
  {
    forall name ensures FirstFileFound(events, name) <==> name !in ShadowedNames(events) {
      FirstFileFoundIffNotShadowed(events, name);
    }
    forall key ensures FirstExtensionFound(events, key) <==> key !in ShadowedExtensions(events) {
      FirstExtensionFoundIffNotShadowed(events, key);
    }
    if ShadowedNames(events) != [] { assert ShadowedNames(events)[0] in ShadowedNames(events); }
    if ShadowedExtensions(events) != [] { assert ShadowedExtensions(events)[0] in ShadowedExtensions(events); }
  }

  // ---------- runs of accepted adds ----------

  lemma {:induction false} AcceptedNames<V>(s: State<V>, events: seq<Event<V>>)
    requires AllAccepted(Verdicts(s, events))
    ensures T.Shadowed(Less, NamesOf(s), NameMoves(|s.values|, events)) == []
    decreases |events|
  {
    if events != [] {
      match events[0] {
        case AddFile(f, v) =>
          var s1 := Add(s, f, v).0;
          AllAcceptedHead(Add(s, f, v).1, Verdicts(s1, events[1..]));
          AddTables(s, f, v);
          AcceptedNames(s1, events[1..]);
          T.ShadowedAppend(Less, NamesOf(s), NamePut(s, f), NameMoves(|s.values| + 1, events[1..]));
          assert NamePut(s, f)[1..] == [];
        case Lookup =>
          AcceptedNames(EnsureFlat(s), events[1..]);
          FlattenFirst(Less, NamesOf(s), NameMoves(|s.values|, events[1..]));
      }
    }
  }

  lemma {:induction false} AcceptedOps<V>(s: State<V>, ops: seq<Op>)
    requires s.values != [] && Run(s, ops).1
    ensures ReachedKeys(s, ops) == QualifiedKeys(ops)
    ensures T.Shadowed(ExtensionLess, ExtensionsOf(s), Puts(ReachedKeys(s, ops), |s.values| - 1)) == []
    decreases |ops|
  {
    if ops != [] {
      var (s1, ok) := Step(s, ops[0]);
      var n := |s.values| - 1;
      StepTables(s, ops[0]);
      AcceptedOps(s1, ops[1..]);
      PutsAppend(OwnKeys(ops[0]), ReachedKeys(s1, ops[1..]), n);
      T.ShadowedAppend(ExtensionLess, ExtensionsOf(s), Puts(OwnKeys(ops[0]), n), Puts(ReachedKeys(s1, ops[1..]), n));
      if OwnKeys(ops[0]) != [] { assert Puts(OwnKeys(ops[0]), n)[1..] == []; }
    }
  }

  lemma {:induction false} AcceptedExtensions<V>(s: State<V>, events: seq<Event<V>>)
    requires AllAccepted(Verdicts(s, events))
    ensures T.Shadowed(ExtensionLess, ExtensionsOf(s), ExtensionMoves(s, events)) == []
    ensures ExtensionOffers(s, events) == DeclaredExtensions(events)
    decreases |events|
  {
    if events != [] {
      match events[0] {
        case AddFile(f, v) =>
          var s1 := Add(s, f, v).0;
          AllAcceptedHead(Add(s, f, v).1, Verdicts(s1, events[1..]));
          AddTables(s, f, v);
          AcceptedOps(Opened(s, f, v).value, FileOps(f));
          AcceptedExtensions(s1, events[1..]);
          T.ShadowedAppend(ExtensionLess, ExtensionsOf(s), Puts(KeysOfFile(s, f, v), |s.values|), ExtensionMoves(s1, events[1..]));
        case Lookup =>
          AcceptedExtensions(EnsureFlat(s), events[1..]);
          FlattenFirst(ExtensionLess, ExtensionsOf(s), ExtensionMoves(EnsureFlat(s), events[1..]));
      }
    }
  }

  /** When every file was accepted, file and extension lookups agree with plain lists of what the files declare,
      searched key by key, wherever in the run lookups flattened the tables and whatever the symbol checks missed;
      where they missed nothing, that is what the plain index answers too. */
  lemma {:induction false} FilesAndExtensionsRefinePlain<V(!new)>(events: seq<Event<V>>, name: string, key: ExtensionKey)
    requires AllAccepted(Verdicts(Empty<V>(), events))
    ensures var s := EnsureFlat(After(Empty<V>(), events));
      && FindFile(s, name) == FirstOf(NameOffers(events), name)
      && EncodedIndex.FindExtension(s, key) == FirstOf(DeclaredExtensions(events), key)
    ensures NamedRun(events) && NoneMissedInRun(Empty<V>(), events) ==>
      var s, p := EnsureFlat(After(Empty<V>(), events)), PlainAfter(EmptyPlain<V>(), events);
      && FindFile(s, name) == PlainFindFile(p, name)
      && EncodedIndex.FindExtension(s, key) == PlainFindExtension(p, key)
  {
    AcceptedNames(Empty<V>(), events);
    AcceptedExtensions(Empty<V>(), events);
    FirstFileFoundIffNotShadowed(events, name);
    FirstExtensionFoundIffNotShadowed(events, key);
    if NamedRun(events) && NoneMissedInRun(Empty<V>(), events) { PlainIndexAgrees(events, name, key); }
  }

  // ---------- a rejected duplicate, in any state a run can reach ----------

  /** Sorted tables with offsets of pushed files. */
  ghost predicate Tabled<V>(s: State<V>) {
    && T.TableOk(Less, NamesOf(s)) && T.OffsetsBelow(s.names, |s.values|) && T.OffsetsBelow(s.namesFlat, |s.values|)
    && T.TableOk(ExtensionLess, ExtensionsOf(s))
    && T.OffsetsBelow(s.extensions, |s.values|) && T.OffsetsBelow(s.extensionsFlat, |s.values|)
  }

  lemma {:induction false} EveryRunTabled<V>(events: seq<Event<V>>)
    ensures Tabled(After(Empty<V>(), events))
  {
    NamesAfter(events, "");
    ExtensionsAfter(events, ("", 0));
  }

  /** A file of a known name is rejected; and yet its own value is what the name finds afterwards, unless the tree
      still holds the name. */
  lemma {:induction false} DuplicateShadows<V>(s: State<V>, f: File, v: V)
    requires Tabled(s) && ValidateSymbolName(f.package) && FindFile(EnsureFlat(s), f.name).Some?
    ensures !Add(s, f, v).1
    ensures FindFile(EnsureFlat(Add(s, f, v).0), f.name) ==
      if HasKey(s.names, f.name) then FindFile(EnsureFlat(s), f.name) else Some(v)
  {
    SymbolTable.NameOrder();
    var t, s1 := NamesOf(s), Add(s, f, v).0;
    T.FoundInEither(Less, t, f.name);
    FoundInRange(Less, t, |s.values|, f.name);
    T.PutChanges(Less, t, f.name, |s.values|, f.name);
    AddTables(s, f, v);
    assert NamePut(s, f)[1..] == [];
    assert FindFile(EnsureFlat(s1), f.name) == ValueAt(s1, T.Found(Less, NamesOf(s1), f.name));
  }

  /** The same for an extension number declared twice; `v` is the value of the file being added. */
  lemma {:induction false} DuplicateExtensionShadows<V>(s: State<V>, extendee: string, number: int, v: V)
    requires Tabled(s) && s.values != [] && s.values[|s.values| - 1].value == v && Qualified(extendee)
    requires EncodedIndex.FindExtension(EnsureFlat(s), (extendee[1..], number)).Some?
    ensures var key := (extendee[1..], number); var (s1, ok) := Step(s, Extension(extendee, number));
      && !ok
      && EncodedIndex.FindExtension(EnsureFlat(s1), key) ==
        if HasKey(s.extensions, key) then EncodedIndex.FindExtension(EnsureFlat(s), key) else Some(v)
  {
    ExtensionOrder();
    var key, t := (extendee[1..], number), ExtensionsOf(s);
    T.FoundInEither(ExtensionLess, t, key);
    FoundInRange(ExtensionLess, t, |s.values|, key);
    T.PutChanges(ExtensionLess, t, key, |s.values| - 1, key);
    StepTables(s, Extension(extendee, number));
    OnePut(t, key, |s.values| - 1);
  }

  // ---------- extension numbers ----------

  lemma {:induction false} NumbersAt<W>(s: seq<Entry<ExtensionKey, W>>, i: nat, type_: string, k: nat)
    requires i <= |s| && k < |SimpleIndex.NumbersFrom(s, i, type_)|
    ensures i + k < |s| && s[i + k].key == (type_, SimpleIndex.NumbersFrom(s, i, type_)[k])
    decreases k
  {
    if k > 0 { NumbersAt(s, i + 1, type_, k - 1); }
  }

  /** Every later entry of the type is listed. */
  lemma {:induction false} TypeIsListed<W>(s: seq<Entry<ExtensionKey, W>>, i: nat, type_: string, j: nat)
    requires Sorted(ExtensionLess, s) && i <= j < |s| && s[j].key.0 == type_
    requires type_ == s[i].key.0 || Less(type_, s[i].key.0)
    ensures j - i < |SimpleIndex.NumbersFrom(s, i, type_)|
    decreases j - i
  {
    LessIrreflexive(type_);
    LessTotal(s[i].key.0, type_);
    if i < j {
      LessTotal(type_, s[i + 1].key.0);
      LessTotal(s[i + 1].key.0, s[i].key.0);
      TypeIsListed(s, i + 1, type_, j);
    }
  }

  lemma {:induction false} ListedFrom<W>(s: seq<Entry<ExtensionKey, W>>, type_: string, j: nat)
    requires Sorted(ExtensionLess, s) && j < |s| && s[j].key.0 == type_
    ensures var i := LowerBound(ExtensionLess, s, (type_, 0));
      if s[j].key.1 >= 0 then i <= j && j - i < |SimpleIndex.Numbers(s, type_)| && SimpleIndex.Numbers(s, type_)[j - i] == s[j].key.1
      else j < i
  {
    ExtensionOrder();
    LowerBoundSplits(ExtensionLess, s, (type_, 0));
    var i := LowerBound(ExtensionLess, s, (type_, 0));
    LessIrreflexive(type_);
    if s[j].key.1 >= 0 {
      LessTotal(type_, s[i].key.0);
      TypeIsListed(s, i, type_, j);
      NumbersAt(s, i, type_, j - i);
    }
  }

  lemma {:induction false} ListedAt<W>(s: seq<Entry<ExtensionKey, W>>, type_: string, k: nat)
    requires Sorted(ExtensionLess, s) && k < |SimpleIndex.Numbers(s, type_)|
    ensures var i := LowerBound(ExtensionLess, s, (type_, 0));
      && i + k < |s| && s[i + k].key == (type_, SimpleIndex.Numbers(s, type_)[k])
      && SimpleIndex.Numbers(s, type_)[k] >= 0
  {
    ExtensionOrder();
    LowerBoundSplits(ExtensionLess, s, (type_, 0));
    LessIrreflexive(type_);
    NumbersAt(s, LowerBound(ExtensionLess, s, (type_, 0)), type_, k);
  }

  /** The numbers listed are those of the stored keys, and ascend strictly if and only if no key is stored twice. */
  lemma {:induction false} NumbersOfSorted<W>(s: seq<Entry<ExtensionKey, W>>, type_: string)
    requires Sorted(ExtensionLess, s)
    ensures forall n :: n in SimpleIndex.Numbers(s, type_) <==> n >= 0 && HasKey(s, (type_, n))
    ensures SimpleIndex.Ascending(SimpleIndex.Numbers(s, type_)) <==> forall n | n >= 0 :: T.CountKey(s, (type_, n)) <= 1
  {
    var ns, i := SimpleIndex.Numbers(s, type_), LowerBound(ExtensionLess, s, (type_, 0));
    forall n ensures n in ns <==> n >= 0 && HasKey(s, (type_, n)) {
      if n in ns {
        var k :| 0 <= k < |ns| && ns[k] == n;
        ListedAt(s, type_, k);
      }
      if n >= 0 && HasKey(s, (type_, n)) {
        var j :| 0 <= j < |s| && s[j].key == (type_, n);
        ListedFrom(s, type_, j);
      }
    }
    if SimpleIndex.Ascending(ns) {
      forall n | n >= 0 ensures T.CountKey(s, (type_, n)) <= 1 { AscendingCountsOnce(s, type_, n); }
    } else {
      RepeatIsCountedTwice(s, type_);
    }
  }

  lemma {:induction false} AscendingCountsOnce<W>(s: seq<Entry<ExtensionKey, W>>, type_: string, n: int)
    requires Sorted(ExtensionLess, s) && n >= 0 && SimpleIndex.Ascending(SimpleIndex.Numbers(s, type_))
    ensures T.CountKey(s, (type_, n)) <= 1
  {
    T.CountTwice(s, (type_, n));
    if a, b :| 0 <= a < b < |s| && s[a].key == (type_, n) && s[b].key == (type_, n) {
      ListedFrom(s, type_, a);
      ListedFrom(s, type_, b);
    }
  }

  lemma {:induction false} RepeatIsCountedTwice<W>(s: seq<Entry<ExtensionKey, W>>, type_: string)
    requires Sorted(ExtensionLess, s) && !SimpleIndex.Ascending(SimpleIndex.Numbers(s, type_))
    ensures exists n :: n >= 0 && T.CountKey(s, (type_, n)) > 1
  {
    var ns, i := SimpleIndex.Numbers(s, type_), LowerBound(ExtensionLess, s, (type_, 0));
    forall k | 0 <= k < |ns| ensures i + k < |s| && s[i + k].key == (type_, ns[k]) && ns[k] >= 0 {
      ListedAt(s, type_, k);
    }
    RepeatIsHeldTwice(s, type_, ns, i);
  }

  lemma {:induction false} RepeatIsHeldTwice<W>(s: seq<Entry<ExtensionKey, W>>, type_: string, ns: seq<int>, i: nat)
    requires Sorted(ExtensionLess, s) && !SimpleIndex.Ascending(ns)
    requires forall k | 0 <= k < |ns| :: i + k < |s| && s[i + k].key == (type_, ns[k]) && ns[k] >= 0
    ensures exists n :: n >= 0 && T.CountKey(s, (type_, n)) > 1
  {
    var a, b :| 0 <= a < b < |ns| && ns[a] >= ns[b];
    HeldTwice(s, type_, i + a, i + b);
    assert s[i + a].key == (type_, ns[a]);
  }

  lemma {:induction false} HeldTwice<W>(s: seq<Entry<ExtensionKey, W>>, type_: string, i: nat, j: nat)
    requires Sorted(ExtensionLess, s) && i < j < |s| && s[i].key.0 == type_ && s[j].key.0 == type_
    requires s[i].key.1 >= s[j].key.1
    ensures T.CountKey(s, s[i].key) > 1
  {
    SortedPair(s, type_, i, j);
    assert s[j].key == s[i].key;
    T.CountTwice(s, s[i].key);
  }

  lemma {:induction false} SortedPair<W>(s: seq<Entry<ExtensionKey, W>>, type_: string, i: nat, j: nat)
    requires Sorted(ExtensionLess, s) && i < j < |s| && s[i].key.0 == type_ && s[j].key.0 == type_
    ensures s[i].key.1 <= s[j].key.1
  {
    SameType(type_, s[j].key.1, s[i].key.1);
    assert s[i].key == (type_, s[i].key.1) && s[j].key == (type_, s[j].key.1);
  }

  lemma {:induction false} SameType(type_: string, x: int, y: int)
    ensures ExtensionLess((type_, x), (type_, y)) <==> x < y
  {
    LessIrreflexive(type_);
  }

  /** After any run, the numbers listed for a type are exactly the non-negative ones whose extension is found; and
      they ascend without repeats if and only if none of them was put again after it had been flattened. */
  lemma {:induction false} NumbersAscendIffNotShadowed<V>(events: seq<Event<V>>, type_: string)
    ensures var s := EnsureFlat(After(Empty<V>(), events));
      var ns := SimpleIndex.Numbers(s.extensionsFlat, type_);
      && (forall n :: n in ns <==> n >= 0 && EncodedIndex.FindExtension(s, (type_, n)).Some?)
      && (SimpleIndex.Ascending(ns) <==> forall n | n >= 0 :: (type_, n) !in ShadowedExtensions(events))
  {
    var s := EnsureFlat(After(Empty<V>(), events));
    ExtensionOrder();
    ExtensionsAfter(events, ("", 0));
    T.FlattenKeeps(ExtensionLess, ExtensionsOf(After(Empty<V>(), events)), ("", 0));
    NumbersOfSorted(s.extensionsFlat, type_);
    forall n ensures HasKey(s.extensionsFlat, (type_, n)) <==> EncodedIndex.FindExtension(s, (type_, n)).Some? {
      ExtensionsAfter(events, (type_, n));
      LookupFinds(ExtensionLess, s.extensionsFlat, (type_, n));
    }
    forall n | n >= 0 ensures T.CountKey(s.extensionsFlat, (type_, n)) <= 1 <==> (type_, n) !in ShadowedExtensions(events) {
      OnceIffNotShadowed(events, (type_, n));
    }
  }

  lemma {:induction false} OnceIffNotShadowed<V>(events: seq<Event<V>>, key: ExtensionKey)
    ensures T.CountKey(EnsureFlat(After(Empty<V>(), events)).extensionsFlat, key) <= 1 <==> key !in ShadowedExtensions(events)
  {
    var log, moves := ShadowedExtensions(events), ExtensionMoves(Empty<V>(), events);
    ExtensionsAfter(events, key);
    if key in log {
      assert multiset(log)[key] >= 1;
      ShadowedWasPut(ExtensionLess, T.Table([], []), moves, key);
    } else {
      assert multiset(log)[key] == 0;
    }
  }

  lemma {:induction false} ShadowedWasPut<K(!new)>(less: (K, K) -> bool, t: T.Table<K>, moves: seq<T.Move<K>>, k: K)
    requires k in T.Shadowed(less, t, moves)
    ensures T.FirstPut(moves, k).Some?
    decreases |moves|
  {
    var rest := T.Shadowed(less, T.Moved(less, t, moves[0]), moves[1..]);
    T.LogHead(T.Shadows(less, t, moves[0]), moves[0], rest, k);
    if !(moves[0].Put? && moves[0].key == k) { ShadowedWasPut(less, T.Moved(less, t, moves[0]), moves[1..], k); }
  }
}
