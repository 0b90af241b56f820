/** Insert mode as a text with a gap in it. */
module ViTyping {
  import opened Text
  import opened ViBuffer
  import opened ViKeys
  import opened ViUndo
  import opened ViChanges

  // ----- insert mode

  /** The file as one text, cut at the cursor. */
  datatype Gap = Gap(before: string, after: string)

  function GapOf(t: Buffer): Gap {
    Gap(Unlines(t.lines[..t.cy]) + Line(t)[..t.cx],
        Line(t)[t.cx..] + "\n" + Unlines(t.lines[t.cy + 1..]))
  }

  lemma GapIsText(t: Buffer)
    ensures GapOf(t).before + GapOf(t).after == Unlines(t.lines)
  {
    LinesAround(t.lines, t.cy);
    var x, l, y := Unlines(t.lines[..t.cy]), Line(t), Unlines(t.lines[t.cy + 1..]);
    assert l[..t.cx] + l[t.cx..] == l;
    AroundGap(x, l[..t.cx], l[t.cx..], "\n", y);
  }

  lemma AroundGap(x: string, l: string, m: string, n: string, y: string)
    ensures (x + l) + (m + n + y) == x + (l + m) + n + y
  {
  }

  lemma LinesAround(lines: seq<string>, k: nat)
    requires k < |lines|
    ensures Unlines(lines) == Unlines(lines[..k]) + lines[k] + "\n" + Unlines(lines[k + 1..])
  {
    assert lines == lines[..k] + lines[k..];
    UnlinesAppend(lines[..k], lines[k..]);
    UnlinesFrom(lines, k);
    Append(Unlines(lines[..k]), lines[k], "\n", Unlines(lines[k + 1..]));
  }

  lemma UnlinesFrom(lines: seq<string>, k: nat)
    requires k < |lines|
    ensures Unlines(lines[k..]) == lines[k] + "\n" + Unlines(lines[k + 1..])
  {
    assert lines[k..][1..] == lines[k + 1..];
  }

  lemma Append(x: string, l: string, n: string, y: string)
    ensures x + (l + n + y) == x + l + n + y
  {
  }

  /** A byte typed into the gap: a newline, one byte less, or the byte. */
  function Type(g: Gap, b: Byte): Gap {
    if b == '\r' || b == '\n' then g.(before := g.before + "\n")
    else if b == DEL || b == BS then g.(before := DropLast(g.before))
    else g.(before := g.before + [b])
  }

  function TypeAll(g: Gap, bs: seq<Byte>): Gap
    decreases |bs|
  {
    if bs == [] then g else TypeAll(Type(g, bs[0]), bs[1..])
  }

  lemma SplitTypes(t: Buffer)
    ensures GapOf(SplitLine(t)) == Gap(GapOf(t).before + "\n", GapOf(t).after)
  {
    var r, l := SplitLine(t), Line(t);
    var head, tail := l[..t.cx], l[t.cx..];
    assert r.lines[..r.cy] == t.lines[..t.cy] + [head];
    UnlinesSnoc(t.lines[..t.cy], head);
    assert r.lines[r.cy] == tail && r.lines[r.cy + 1..] == t.lines[t.cy + 1..];
    assert GapOf(r).before + "" == GapOf(r).before;
  }

  lemma RuneTypes(t: Buffer, b: Byte)
    requires b != '\n'
    ensures b < '\U{80}' ==> GapOf(InsertRune(t, b)) == Gap(GapOf(t).before + [b], GapOf(t).after)
    ensures var r := GapOf(InsertRune(t, b)); |r.before| + |r.after| == |GapOf(t).before| + |GapOf(t).after| + |Utf8(b)|
  {
    var r, l := InsertRune(t, b), Line(t);
    assert r.lines[..r.cy] == t.lines[..t.cy] && r.lines[r.cy + 1..] == t.lines[t.cy + 1..];
    assert r.lines[r.cy] == l[..t.cx] + Utf8(b) + l[t.cx..];
    if b < '\U{80}' {
      assert r.lines[r.cy][..t.cx + 1] == l[..t.cx] + [b] && r.lines[r.cy][t.cx + 1..] == l[t.cx..];
      assert Unlines(t.lines[..t.cy]) + (l[..t.cx] + [b]) == GapOf(t).before + [b];
    }
  }

  /** Any byte is stored as the UTF-8 form of the character with its number; the cursor
      goes one byte on, also if that has two. */
  lemma RuneStored(t: Buffer, b: Byte)
    requires b != '\n'
    ensures Unlines(InsertRune(t, b).lines) == GapOf(t).before + Utf8(b) + GapOf(t).after
    ensures InsertRune(t, b).cy == t.cy && InsertRune(t, b).cx == t.cx + 1
    ensures var u := Utf8(b);
      if |u| == 1 then u[0] == b
      else (u[0] as int - 0xC0) * 64 + (u[1] as int - 0x80) == b as int && '\U{C2}' <= u[0] <= '\U{C3}' && '\U{80}' <= u[1] <= '\U{BF}'
  {
    var r, l, x, y := InsertRune(t, b), Line(t), Unlines(t.lines[..t.cy]), Unlines(t.lines[t.cy + 1..]);
    LinesAround(r.lines, t.cy);
    assert r.lines[..t.cy] == t.lines[..t.cy] && r.lines[t.cy + 1..] == t.lines[t.cy + 1..];
    assert r.lines[t.cy] == l[..t.cx] + Utf8(b) + l[t.cx..];
    assert x + (l[..t.cx] + Utf8(b) + l[t.cx..]) + "\n" + y == (x + l[..t.cx]) + Utf8(b) + (l[t.cx..] + "\n" + y);
  }

  lemma BackspaceTypes(t: Buffer)
    ensures GapOf(Backspace(t)) == Gap(DropLast(GapOf(t).before), GapOf(t).after)
  {
    var r, l := Backspace(t), Line(t);
    if t.cx > 0 {
      assert r.lines[..r.cy] == t.lines[..t.cy] && r.lines[r.cy + 1..] == t.lines[t.cy + 1..];
      assert r.lines[r.cy][..r.cx] == l[..t.cx - 1] && r.lines[r.cy][r.cx..] == l[t.cx..];
      assert Unlines(t.lines[..t.cy]) + l[..t.cx - 1] == DropLast(GapOf(t).before);
    } else if t.cy > 0 {
      JoinTypes(t);
    }
  }

  lemma JoinTypes(t: Buffer)
    requires t.cx == 0 && t.cy > 0
    ensures GapOf(Backspace(t)) == Gap(DropLast(GapOf(t).before), GapOf(t).after)
  {
    var r, l, prev, k := Backspace(t), Line(t), t.lines[t.cy - 1], t.cy - 1;
    assert r.lines[..k] == t.lines[..k] && r.lines[k + 1..] == t.lines[t.cy + 1..];
    assert r.lines[k] == prev + l;
    assert (prev + l)[..|prev|] == prev && (prev + l)[|prev|..] == l == l[0..];
    assert t.lines[..t.cy] == t.lines[..k] + [prev];
    UnlinesSnoc(t.lines[..k], prev);
    assert l[..0] == [];
    assert GapOf(t).before == Unlines(t.lines[..k]) + prev + "\n";
  }

  predicate IsAscii(b: Byte) {
    b < '\U{80}'
  }

  lemma ByteTypes(s: State, b: Byte)
    requires IsAscii(b)
    ensures GapOf(FeedInsert(s, b).at) == Type(GapOf(s.at), b)
  {
    if b == '\r' || b == '\n' {
      SplitTypes(s.at);
    } else if b == DEL || b == BS {
      BackspaceTypes(s.at);
    } else {
      RuneTypes(s.at, b);
    }
  }

  /** In insert mode, typing ASCII text, Enter and Backspace edits the whole file as one
      text at the cursor, across lines. */
  lemma {:induction false} TypingRefines(s: State, bs: seq<Byte>)
    requires Safe(s) && s.mode == Insert && s.keys.esc == NoEsc && !s.quit
    requires ESC !in bs && forall b :: b in bs ==> IsAscii(b)
    ensures GapOf(Run(s, bs).at) == TypeAll(GapOf(s.at), bs)
    decreases |bs|
  {
    if bs != [] {
      var t := InsertThen(s, bs);
      ByteTypes(s, bs[0]);
      TypingRefines(t, bs[1..]);
    }
  }

  lemma InsertThen(s: State, bs: seq<Byte>) returns (t: State)
    requires Safe(s) && s.mode == Insert && s.keys.esc == NoEsc && !s.quit && ESC !in bs && bs != []
    ensures t == FeedInsert(s, bs[0]) && Run(s, bs) == Run(t, bs[1..])
    ensures Safe(t) && t.mode == Insert && t.keys.esc == NoEsc && !t.quit && ESC !in bs[1..]
  {
    assert bs[0] in bs;
    t := FeedInsert(s, bs[0]);
    assert Feed(s, bs[0]) == t;
  }

  // ----- text of any bytes

  predicate IsText(bs: seq<Byte>) {
    ESC !in bs && DEL !in bs && BS !in bs
  }

  /** The bytes as they stand in the file: both line ends are newlines. */
  function Normalized(bs: seq<Byte>): string {
    if bs == [] then "" else [if bs[0] == '\r' then '\n' else bs[0]] + Normalized(bs[1..])
  }

  lemma OneByOne(x: string, c: char, y: string)
    ensures (x + [c]) + y == x + ([c] + y)
  {
  }

  lemma {:induction false} TypeAllText(g: Gap, bs: seq<Byte>)
    requires IsText(bs)
    ensures TypeAll(g, bs) == Gap(g.before + Normalized(bs), g.after)
    decreases |bs|
  {
    if bs == [] {
      assert g.before + "" == g.before;
    } else {
      assert bs[0] in bs;
      TypeAllText(Type(g, bs[0]), bs[1..]);
      var c := if bs[0] == '\r' then '\n' else bs[0];
      OneByOne(g.before, c, Normalized(bs[1..]));
      assert Type(g, bs[0]).before == g.before + [c];
    }
  }

  function Length(t: Buffer): nat {
    |GapOf(t).before| + |GapOf(t).after|
  }

  /** How many bytes each typed byte adds: two from 0x80 on. */
  function Added(bs: seq<Byte>): nat {
    if bs == [] then 0 else (if IsAscii(bs[0]) then 1 else 2) + Added(bs[1..])
  }

  lemma {:induction false} AddedAll(bs: seq<Byte>)
    ensures |Normalized(bs)| == |bs| <= Added(bs)
    ensures Added(bs) == |bs| <==> forall b :: b in bs ==> IsAscii(b)
    decreases |bs|
  {
    if bs != [] {
      AddedAll(bs[1..]);
      assert forall b :: b in bs <==> b == bs[0] || b in bs[1..];
    }
  }

  lemma ByteLength(s: State, b: Byte)
    requires b != DEL && b != BS
    ensures Length(FeedInsert(s, b).at) == Length(s.at) + if IsAscii(b) then 1 else 2
  {
    if b == '\r' || b == '\n' {
      SplitTypes(s.at);
    } else {
      RuneTypes(s.at, b);
    }
  }

  lemma {:induction false} TypingLength(s: State, bs: seq<Byte>)
    requires Safe(s) && s.mode == Insert && s.keys.esc == NoEsc && !s.quit && IsText(bs)
    ensures Length(Run(s, bs).at) == Length(s.at) + Added(bs)
    decreases |bs|
  {
    if bs != [] {
      var t := InsertThen(s, bs);
      assert bs[0] in bs;
      ByteLength(s, bs[0]);
      TypingLength(t, bs[1..]);
    }
  }

  /** Text typed in insert mode is in the file at the cursor, byte for byte, if and only
      if it is ASCII: a byte from 0x80 on is stored as two. */
  lemma TypedText(s: State, bs: seq<Byte>)
    requires Safe(s) && s.mode == Insert && s.keys.esc == NoEsc && !s.quit && IsText(bs)
    ensures Content(Run(s, bs)) == GapOf(s.at).before + Normalized(bs) + GapOf(s.at).after
       <==> forall b :: b in bs ==> IsAscii(b)
  {
    var r := Run(s, bs).at;
    GapIsText(r);
    AddedAll(bs);
    if forall b :: b in bs ==> IsAscii(b) {
      TypingRefines(s, bs);
      TypeAllText(GapOf(s.at), bs);
    } else {
      TypingLength(s, bs);
      assert |Unlines(r.lines)| == Length(r);
    }
  }

  lemma InsertTyped(s: State)
    requires Ready(s)
    ensures var t := Feed(s, 'i'); t.mode == Insert && t.keys.esc == NoEsc && !t.quit && t.at == s.at
  {
  }

  lemma EscapeKeepsText(s: State)
    requires Safe(s) && s.keys.esc == NoEsc && !s.quit
    ensures Content(Run(s, [ESC])) == Content(s)
  {
    RunOne(s, ESC);
  }

  /** Where an insert key opens the text: at the cursor, behind the byte under it, at the
      end of the line, on a new line below, and on one above. */
  function OpenedBy(t: Buffer, key: Byte): Gap
    requires IsInsertKey(key)
  {
    var above, below := Unlines(t.lines[..t.cy]), Unlines(t.lines[t.cy + 1..]);
    match key
    case 'i' => GapOf(t)
    case 'a' =>
      if t.cx < |Line(t)| then Gap(GapOf(t).before + [Line(t)[t.cx]], GapOf(t).after[1..]) else GapOf(t)
    case 'A' => Gap(above + Line(t), "\n" + below)
    case 'o' => Gap(above + Line(t) + "\n", "\n" + below)
    case _ => Gap(above, "\n" + (Line(t) + "\n" + below))
  }

  lemma BehindByte(t: Buffer)
    requires t.cx < |Line(t)|
    ensures GapOf(t.(cx := t.cx + 1)) == OpenedBy(t, 'a')
  {
    var l := Line(t);
    assert l[..t.cx + 1] == l[..t.cx] + [l[t.cx]] && l[t.cx..] == [l[t.cx]] + l[t.cx + 1..];
    assert (l[t.cx..] + "\n" + Unlines(t.lines[t.cy + 1..]))[1..] == l[t.cx + 1..] + "\n" + Unlines(t.lines[t.cy + 1..]);
    OneByOne(Unlines(t.lines[..t.cy]) + l[..t.cx], l[t.cx], "");
    assert Unlines(t.lines[..t.cy]) + (l[..t.cx] + [l[t.cx]]) == Unlines(t.lines[..t.cy]) + l[..t.cx] + [l[t.cx]];
  }

  lemma AtLineEnd(t: Buffer)
    ensures GapOf(t.(cx := |Line(t)|)) == OpenedBy(t, 'A')
  {
    var l := Line(t);
    assert l[..|l|] == l && l[|l|..] == "";
    assert "" + "\n" == "\n";
  }

  lemma NewLineBelow(t: Buffer)
    ensures GapOf(OpenBelow(t)) == OpenedBy(t, 'o')
  {
    var r := OpenBelow(t);
    assert r.lines[..r.cy] == t.lines[..t.cy] + [Line(t)] && r.lines[r.cy + 1..] == t.lines[t.cy + 1..];
    UnlinesSnoc(t.lines[..t.cy], Line(t));
    assert Line(r)[..0] == "" && Line(r)[0..] == "" && "" + "\n" == "\n";
    assert GapOf(r).before == Unlines(r.lines[..r.cy]) + "" == Unlines(r.lines[..r.cy]);
  }

  lemma NewLineAbove(t: Buffer)
    ensures GapOf(OpenAbove(t)) == OpenedBy(t, 'O')
  {
    var r := OpenAbove(t);
    assert r.lines[..r.cy] == t.lines[..t.cy] && r.lines[r.cy + 1..] == t.lines[t.cy..];
    UnlinesFrom(t.lines, t.cy);
    assert Line(r)[..0] == "" && Line(r)[0..] == "" && "" + "\n" == "\n";
    assert GapOf(r).before == Unlines(r.lines[..r.cy]) + "" == Unlines(r.lines[..r.cy]);
  }

  lemma InsertStarted(s: State, key: Byte)
    requires Ready(s) && IsInsertKey(key)
    ensures var t := Feed(s, key);
      t.mode == Insert && t.keys.esc == NoEsc && !t.quit && t.at == StartInsert(Save(s), key).at
  {
    KeyTyped(s, key);
  }

  lemma KeyOpens(s: State, key: Byte)
    requires Ready(s) && IsInsertKey(key)
    ensures GapOf(StartInsert(Save(s), key).at) == OpenedBy(s.at, key)
  {
    match key
    case 'i' =>
    case 'a' =>
      if s.at.cx < |Line(s.at)| {
        BehindByte(s.at);
      }
    case 'A' => AtLineEnd(s.at);
    case 'o' => NewLineBelow(s.at);
    case _ => NewLineAbove(s.at);
  }

  /** An insert key, text, Escape: the text is in the file where the key opens it, and
      nothing else has changed, if and only if it is ASCII. */
  lemma InsertedText(s: State, key: Byte, bs: seq<Byte>)
    requires Ready(s) && IsInsertKey(key) && IsText(bs)
    ensures Content(Run(s, [key] + bs + [ESC]))
         == OpenedBy(s.at, key).before + Normalized(bs) + OpenedBy(s.at, key).after
       <==> forall b :: b in bs ==> IsAscii(b)
  {
    var t := Feed(s, key);
    InsertStarted(s, key);
    KeyOpens(s, key);
    RunSplit(s, [key] + bs, [ESC]);
    RunSplit(s, [key], bs);
    RunOne(s, key);
    TypedText(t, bs);
    TypingInserts(t, bs);
    EscapeKeepsText(Run(t, bs));
  }

  /** After the Escape the cursor is on the byte before the gap, or stays at the start of
      its line. */
  lemma EscapeStepsBack(s: State)
    requires Safe(s) && s.mode == Insert && s.keys.esc == NoEsc && !s.quit
    ensures var r := Settled(Run(s, [ESC])); var g := GapOf(s.at);
      && r.mode == Normal && r.undo == s.undo
      && GapOf(r.at) == if s.at.cx == 0 then g else Gap(DropLast(g.before), [g.before[|g.before| - 1]] + g.after)
  {
    RunOne(s, ESC);
    if s.at.cx > 0 {
      StepBack(s.at);
    }
  }

  lemma StepBack(t: Buffer)
    requires t.cx > 0
    ensures var g := GapOf(t);
      g.before != "" && GapOf(MoveLeft(t)) == Gap(DropLast(g.before), [g.before[|g.before| - 1]] + g.after)
  {
    var l, x, y := Line(t), Unlines(t.lines[..t.cy]), Unlines(t.lines[t.cy + 1..]);
    assert l[..t.cx] == l[..t.cx - 1] + [l[t.cx - 1]] && l[t.cx - 1..] == [l[t.cx - 1]] + l[t.cx..];
    assert x + l[..t.cx] == x + l[..t.cx - 1] + [l[t.cx - 1]];
    assert [l[t.cx - 1]] + l[t.cx..] + "\n" + y == [l[t.cx - 1]] + (l[t.cx..] + "\n" + y);
  }

  lemma InsertedOne(s: State, b: Byte)
    requires Ready(s) && b != ESC
    ensures Content(Run(s, ['i', b, ESC])) == Content(FeedInsert(Feed(s, 'i'), b))
  {
    var t := Feed(s, 'i');
    InsertTyped(s);
    RunCons(s, 'i', [b, ESC]);
    RunCons(t, b, [ESC]);
    EscapeKeepsText(FeedInsert(t, b));
  }

  /** An e with an acute accent in Latin-1 is one byte, and two in the file. */
  lemma AccentTyped()
    ensures Content(Run(Loaded(""), ['i', '\U{E9}', ESC])) == "\U{C3}\U{A9}\n"
  {
    var t := Feed(Loaded(""), 'i');
    InsertTyped(Loaded(""));
    InsertedOne(Loaded(""), '\U{E9}');
    assert Utf8('\U{E9}') == "\U{C3}\U{A9}";
    var r := InsertRune(t.at, '\U{E9}');
    assert r.lines[0] == "" + "\U{C3}\U{A9}" + "" == "\U{C3}\U{A9}";
    assert r.lines == ["\U{C3}\U{A9}"];
    assert FeedInsert(t, '\U{E9}').at == r;
  }
}
