/** What the packet generator reads out of the lines of a .proto file. */
module ProtoText {
  import opened Sequences
  import opened Options
  import opened PacketIds
  import opened Messages
  import opened Dispatch

  // ---------- characters ----------

  /** Space, tab and the line ends separate words; letters, digits, the underscore and all other visible ASCII
      characters do not. */
  lemma {:induction false} BlankCharacters(c: char)
    ensures c in " \t\n\r" ==> Blank(c)
    ensures 'a' <= c <= 'z' || 'A' <= c <= 'Z' || '0' <= c <= '9' || c == '_' ==> !Blank(c)
    ensures '!' <= c <= '~' ==> !Blank(c)
    ensures Blank(c) <==> c as int in {9, 10, 11, 12, 13, 28, 29, 30, 31, 32, 133, 160, 5760, 8192, 8193, 8194, 8195, 8196,
      8197, 8198, 8199, 8200, 8201, 8202, 8232, 8233, 8239, 8287, 12288}
  {
  }

  predicate Gap(g: string) {
    forall c | c in g :: Blank(c)
  }

  predicate Word(w: string) {
    w != [] && forall c | c in w :: !Blank(c)
  }

  /** Nothing, or something that ends a word. */
  predicate Ends(tail: string) {
    tail == [] || Blank(tail[0])
  }

  // ---------- splitting ----------

  lemma {:induction false} RunLengthIs(a: string, b: string, blank: bool)
    requires (forall c | c in a :: Blank(c) == blank) && (b == [] || Blank(b[0]) != blank)
    ensures RunLength(a + b, blank) == |a|
    decreases |a|
  {
    if a == [] {
      assert a + b == b;
    } else {
      assert (a + b)[0] == a[0] && (a + b)[1..] == a[1..] + b && a[0] in a;
      forall c | c in a[1..] ensures Blank(c) == blank { assert c in a; }
      RunLengthIs(a[1..], b, blank);
    }
  }

  lemma {:induction false} RunIsAlike(s: string, blank: bool)
    ensures var n := RunLength(s, blank);
      && (forall i | 0 <= i < n :: Blank(s[i]) == blank)
      && (n < |s| ==> Blank(s[n]) != blank)
  {
    if s != [] && Blank(s[0]) == blank { RunIsAlike(s[1..], blank); }
  }

  /** The first word of a line that starts with it, after any blanks. */
  lemma {:induction false} FirstWord(gap: string, word: string, tail: string)
    requires Gap(gap) && Word(word) && Ends(tail)
    ensures Words(gap + word + tail) == [word] + Words(tail)
  {
    var s := gap + word + tail;
    assert s == gap + (word + tail) && (word + tail)[0] == word[0] && word[0] in word;
    RunLengthIs(gap, word + tail, true);
    assert s[|gap|..] == word + tail;
    RunLengthIs(word, tail, false);
    assert (word + tail)[..|word|] == word && (word + tail)[|word|..] == tail;
  }

  lemma {:induction false} NoWord(gap: string)
    requires Gap(gap)
    ensures Words(gap) == []
  {
    RunLengthIs(gap, [], true);
    assert gap + [] == gap && gap[|gap|..] == [];
  }

  /** Words with gaps around them. */
  function Spread(gaps: seq<string>, words: seq<string>): string
    requires |gaps| == |words| + 1
  {
    if words == [] then gaps[0] else gaps[0] + words[0] + Spread(gaps[1..], words[1..])
  }

  /** Between two words there is at least one blank. */
  ghost predicate Separate(gaps: seq<string>, words: seq<string>) {
    && |gaps| == |words| + 1
    && (forall i | 0 <= i < |gaps| :: Gap(gaps[i])) && (forall i | 0 <= i < |words| :: Word(words[i]))
    && (forall i | 0 < i < |words| :: gaps[i] != [])
  }

  lemma {:induction false} SpreadEnds(gaps: seq<string>, words: seq<string>)
    requires |gaps| == |words| + 1 && (forall i | 0 <= i < |gaps| :: Gap(gaps[i])) && (words != [] ==> gaps[0] != [])
    ensures Ends(Spread(gaps, words))
  {
    assert gaps[0] != [] ==> gaps[0][0] in gaps[0];
  }

  lemma {:induction false} RunSplit(s: string, blank: bool) returns (front: string, back: string)
    ensures s == front + back && (back == [] || Blank(back[0]) != blank)
    ensures forall c | c in front :: Blank(c) == blank
  {
    RunIsAlike(s, blank);
    front, back := s[..RunLength(s, blank)], s[RunLength(s, blank)..];
  }

  /** The blanks, the word behind them, and what follows; or there are only blanks. */
  lemma {:induction false} FirstSplit(s: string) returns (gap: string, word: string, tail: string)
    ensures s == gap + word + tail && Gap(gap) && Ends(tail)
    ensures word == [] ==> tail == []
    ensures word != [] ==> Word(word)
  {
    var behind;
    gap, behind := RunSplit(s, true);
    word, tail := RunSplit(behind, false);
    Associative(gap, word, tail);
  }

  /** A string splits into its words: they hold no blank, they come in order, and there are only blanks around and at
      least one between them. */
  lemma {:induction false} SplitsIntoWords(s: string) returns (gaps: seq<string>)
    ensures Separate(gaps, Words(s)) && s == Spread(gaps, Words(s))
    decreases |s|
  {
    var gap, word, tail := FirstSplit(s);
    if word == [] {
      assert s == gap;
      NoWord(s);
      gaps := [s];
    } else {
      var rest := SplitsIntoWords(tail);
      FirstWord(gap, word, tail);
      BehindWord(tail, rest, Words(tail));
      gaps := [gap] + rest;
      OneMoreWord(gap, word, rest, Words(tail));
    }
  }

  lemma {:induction false} OneMoreWord(gap: string, word: string, gaps: seq<string>, words: seq<string>)
    requires Gap(gap) && Word(word) && Separate(gaps, words) && (words != [] ==> gaps[0] != [])
    ensures Separate([gap] + gaps, [word] + words)
    ensures Spread([gap] + gaps, [word] + words) == gap + word + Spread(gaps, words)
  {
    assert ([gap] + gaps)[1..] == gaps && ([word] + words)[1..] == words;
  }

  /** What follows a word starts with a blank, so the gap there is not empty. */
  lemma {:induction false} BehindWord(tail: string, gaps: seq<string>, words: seq<string>)
    requires Ends(tail) && Separate(gaps, words) && tail == Spread(gaps, words)
    ensures words != [] ==> gaps[0] != []
  {
  }

  lemma {:induction false} SeparateTail(gaps: seq<string>, words: seq<string>)
    requires Separate(gaps, words) && words != []
    ensures Separate(gaps[1..], words[1..]) && Gap(gaps[0]) && Word(words[0])
    ensures words[1..] != [] ==> gaps[1..][0] != []
  {
  }

  /** And there is only one way to split it. */
  lemma {:induction false} OnlyTheseWords(gaps: seq<string>, words: seq<string>)
    requires Separate(gaps, words)
    ensures Words(Spread(gaps, words)) == words
    decreases |words|
  {
    if words == [] {
      NoWord(gaps[0]);
    } else {
      SeparateTail(gaps, words);
      OnlyTheseWords(gaps[1..], words[1..]);
      SpreadEnds(gaps[1..], words[1..]);
      FirstWord(gaps[0], words[0], Spread(gaps[1..], words[1..]));
    }
  }

  // ---------- lines ----------

  /** A line that declares a message; and any other. */
  datatype Line = Declares(gap: string, name: string, tail: string) | Other(text: string)

  function Text(l: Line): string {
    match l
    case Declares(gap, name, tail) => "message" + gap + name + tail
    case Other(text) => text
  }

  /** At least one blank before the name, and a blank or nothing behind it. */
  predicate Proper(l: Line) {
    match l
    case Declares(gap, name, tail) => gap != [] && Gap(gap) && Word(name) && Ends(tail)
    case Other(text) => !StartsWith(text, "message")
  }

  function Texts(lines: seq<Line>): seq<string> {
    seq(|lines|, i requires 0 <= i < |lines| => Text(lines[i]))
  }

  /** The declared names, in upper case and in order. */
  function Announced(upper: Upper, lines: seq<Line>): seq<string> {
    if lines == [] then []
    else (if lines[0].Declares? then [upper(lines[0].name)] else []) + Announced(upper, lines[1..])
  }

  lemma {:induction false} MessageIsWord()
    ensures Word("message")
  {
    forall i | 0 <= i < 7 ensures !Blank("message"[i]) { BlankCharacters("message"[i]); }
  }

  /** "message", blanks, a name: the line declares that name, in upper case. */
  lemma {:induction false} LineDeclares(upper: Upper, gap: string, name: string, tail: string)
    requires gap != [] && Gap(gap) && Word(name) && Ends(tail)
    ensures var line := "message" + gap + name + tail;
      StartsWith(line, "message") && DeclaredName(upper, line) == Some(upper(name))
  {
    var line, behind := "message" + gap + name + tail, gap + name + tail;
    MessageIsWord();
    assert gap[0] in gap;
    assert line == [] + "message" + behind && line[..7] == "message";
    FirstWord([], "message", behind);
    FirstWord(gap, name, tail);
    assert Words(line) == ["message"] + ([name] + Words(tail));
  }

  lemma {:induction false} AnnouncedAppends(upper: Upper, lines: seq<Line>, l: Line)
    ensures Announced(upper, lines + [l]) ==
      Announced(upper, lines) + if l.Declares? then [upper(l.name)] else []
    decreases |lines|
  {
    if lines == [] {
      assert [l][1..] == [];
    } else {
      assert (lines + [l])[0] == lines[0] && (lines + [l])[1..] == lines[1..] + [l];
      AnnouncedAppends(upper, lines[1..], l);
    }
  }

  /** A file of such lines declares exactly these names, in order. */
  lemma {:induction false} FileDeclares(upper: Upper, lines: seq<Line>)
    requires forall i | 0 <= i < |lines| :: Proper(lines[i])
    ensures Names(upper, Texts(lines)) == Some(Announced(upper, lines))
    decreases |lines|
  {
    if lines != [] {
      var front, last := lines[..|lines| - 1], lines[|lines| - 1];
      FileDeclares(upper, front);
      AnnouncedAppends(upper, front, last);
      assert lines == front + [last] && Texts(lines)[..|lines| - 1] == Texts(front);
      assert Texts(lines)[|lines| - 1] == Text(last) && Proper(last);
      assert Announced(upper, front) + [] == Announced(upper, front);
      if last.Declares? { LineDeclares(upper, last.gap, last.name, last.tail); }
    }
  }

  // ---------- packets ----------

  /** The names that get a packet. */
  function WithPrefix(r: string, s: string, names: seq<string>): seq<string> {
    if names == [] then []
    else (if StartsWith(names[0], r) || StartsWith(names[0], s) then [names[0]] else []) + WithPrefix(r, s, names[1..])
  }

  function NamesOf(packets: seq<Packet>): seq<string> {
    seq(|packets|, i requires 0 <= i < |packets| => packets[i].name)
  }

  lemma {:induction false} WithPrefixAppends(r: string, s: string, names: seq<string>, name: string)
    ensures WithPrefix(r, s, names + [name]) ==
      WithPrefix(r, s, names) + if StartsWith(name, r) || StartsWith(name, s) then [name] else []
    decreases |names|
  {
    if names == [] {
      assert [name][1..] == [];
    } else {
      assert (names + [name])[0] == names[0] && (names + [name])[1..] == names[1..] + [name];
      WithPrefixAppends(r, s, names[1..], name);
    }
  }

  /** All names with one of the prefixes get a packet, in the order of the file, and no other name does. */
  lemma {:induction false} PacketsInOrder(r: string, s: string, startId: nat, names: seq<string>)
    ensures NamesOf(Assign(r, s, startId, names).total) == WithPrefix(r, s, names)
    decreases |names|
  {
    if names != [] {
      var front, last := names[..|names| - 1], names[|names| - 1];
      PacketsInOrder(r, s, startId, front);
      WithPrefixAppends(r, s, front, last);
      assert names == front + [last];
    }
  }

  lemma {:induction false} AddsReceived(l: Lists, name: string)
    requires |name| >= 2 && name[0] == 'C' && name[1] == '_'
    ensures var p := Packet(name, 1000 + |l.total|);
      Added("C_", "S_", 1000, l, name) == Lists(l.recv + [p], l.send, l.total + [p])
  {
    assert name[..2] == "C_";
  }

  lemma {:induction false} AddsSent(l: Lists, name: string)
    requires |name| >= 2 && name[0] == 'S' && name[1] == '_'
    ensures var p := Packet(name, 1000 + |l.total|);
      Added("C_", "S_", 1000, l, name) == Lists(l.recv, l.send + [p], l.total + [p])
  {
    assert name[..2] == "S_" && name[..2][0] != "C_"[0];
  }

  /** A request and its answer at the end of a list of names. */
  lemma {:induction false} AddsPair(names: seq<string>, c: string, s: string)
    requires |c| >= 2 && c[0] == 'C' && c[1] == '_' && |s| >= 2 && s[0] == 'S' && s[1] == '_'
    ensures var l, l2 := Assign("C_", "S_", 1000, names), Assign("C_", "S_", 1000, names + [c, s]);
      var p, q := Packet(c, 1000 + |l.total|), Packet(s, 1001 + |l.total|);
      l2 == Lists(l.recv + [p], l.send + [q], l.total + [p, q])
  {
    var l := Assign("C_", "S_", 1000, names);
    AssignStep("C_", "S_", 1000, names, c);
    AddsReceived(l, c);
    AssignStep("C_", "S_", 1000, names + [c], s);
    AddsSent(Assign("C_", "S_", 1000, names + [c]), s);
    assert names + [c] + [s] == names + [c, s];
  }

  /** The game's messages get the ids of the generated headers. */
  lemma {:induction false} GameIds()
    ensures Assign("C_", "S_", 1000, ["C_LOGIN", "S_LOGIN"] + ["C_ENTER_GAME", "S_ENTER_GAME"] + ["C_CHAT", "S_CHAT"]) ==
      Lists([Packet("C_LOGIN", 1000), Packet("C_ENTER_GAME", 1002), Packet("C_CHAT", 1004)],
        [Packet("S_LOGIN", 1001), Packet("S_ENTER_GAME", 1003), Packet("S_CHAT", 1005)],
        [Packet("C_LOGIN", 1000), Packet("S_LOGIN", 1001), Packet("C_ENTER_GAME", 1002), Packet("S_ENTER_GAME", 1003),
         Packet("C_CHAT", 1004), Packet("S_CHAT", 1005)])
  {
    var one := ["C_LOGIN", "S_LOGIN"];
    AddsPair([], "C_LOGIN", "S_LOGIN");
    assert [] + one == one;
    AddsPair(one, "C_ENTER_GAME", "S_ENTER_GAME");
    AddsPair(one + ["C_ENTER_GAME", "S_ENTER_GAME"], "C_CHAT", "S_CHAT");
  }

  /** Each handler is registered and each message sent under its own name. */
  lemma {:induction false} GameNames()
    ensures NameOf(CLogin) == "C_LOGIN" && TypeNamed("C_LOGIN") == Some(CLogin)
    ensures TypeNamed("S_LOGIN") == Some(SLogin(false, [])) && TypeNamed("C_ENTER_GAME") == Some(CEnterGame(0))
    ensures TypeNamed("S_ENTER_GAME") == Some(SEnterGame(false, 0))
    ensures TypeNamed("C_CHAT") == Some(CChat(0, [])) && TypeNamed("S_CHAT") == Some(SChat(0, [], 0))
  {
  }
}
