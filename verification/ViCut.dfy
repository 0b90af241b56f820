/** What a counted dd removes, and when p or P brings it back. */
module ViCut {
  import opened Text
  import opened ViBuffer
  import opened ViKeys
  import opened ViUndo
  import opened ViChanges

  /** n lines from row y on are gone; if there are not as many, lines above go instead, up
      to the last, which is emptied. */
  function Without(lines: Lines, y: nat, n: nat): (r: seq<string>)
    requires y < |lines|
  {
    if n >= |lines| then [""]
    else if y + n <= |lines| then lines[..y] + lines[y + n..]
    else lines[..|lines| - n]
  }

  /** The buffer is what n deletions from row y on leave. */
  predicate IsWithout(t: Buffer, lines: Lines, y: nat, n: nat) {
    && y < |lines| && t.lines == Without(lines, y, n)
    && t.cy == if n > 0 && y >= |t.lines| then |t.lines| - 1 else y
  }

  lemma NoneCut(t: Buffer)
    ensures IsWithout(t, t.lines, t.cy, 0)
  {
    assert t.lines[..t.cy] + t.lines[t.cy..] == t.lines;
  }

  lemma NextCut(s: State, n: nat)
    requires n > 0
    ensures Times(s, EraseLine, n).at == DeleteLine(Times(s, EraseLine, n - 1).at)
  {
  }

  lemma {:induction false} CutRemoves(s: State, n: nat)
    ensures IsWithout(Times(s, EraseLine, n).at, s.at.lines, s.at.cy, n)
    decreases n
  {
    if n == 0 {
      NoneCut(s.at);
    } else {
      CutRemoves(s, n - 1);
      OneMore(s.at.lines, s.at.cy, n - 1, Times(s, EraseLine, n - 1).at);
      NextCut(s, n);
    }
  }

  lemma OneMore(lines: Lines, y: nat, n: nat, t: Buffer)
    requires IsWithout(t, lines, y, n)
    ensures IsWithout(DeleteLine(t), lines, y, n + 1)
  {
    if n + 1 < |lines| {
      if y + n + 1 <= |lines| {
        assert t.lines == lines[..y] + lines[y + n..];
        assert t.lines[..y] == lines[..y] && t.lines[y + 1..] == lines[y + n + 1..];
      } else if y + n <= |lines| {
        assert lines[y + n..] == [] && t.lines == lines[..|lines| - n];
      }
    }
  }

  /** The lines n from row y on, or as many as there are. */
  function Held(lines: Lines, y: nat, n: nat): seq<string>
    requires y < |lines|
  {
    lines[y..if y + n > |lines| then |lines| else y + n]
  }

  /** The register holds the lines from the cursor on, as many as there are. */
  lemma YankedLines(t: Buffer, n: nat)
    requires n > 0
    ensures LinesOf(Yanked(t, n)) == Held(t.lines, t.cy, n) && Yanked(t, n) != ""
  {
    var ls: Lines := Held(t.lines, t.cy, n);
    JoinSplit(ls);
    UnlinesEnds(ls);
  }

  /** Text and cursor after dd with a count, and what it puts in the register. */
  lemma CountedCut(s: State)
    requires Ready(s)
    ensures var r := Run(s, ['d', 'd']); var n := CountOf(s);
      && r.at.lines == Without(s.at.lines, s.at.cy, n)
      && r.at.cy == (if s.at.cy >= |r.at.lines| then |r.at.lines| - 1 else s.at.cy)
      && r.memory == s.memory.(register := Yanked(s.at, n), linewise := true)
  {
    CutRuns(s);
    var t := Yank(Save(s.Counted(0)), CountOf(s));
    CutRemoves(t, CountOf(s));
  }

  lemma PutKeys(s: State)
    requires Ready(s) && s.keys.count == 0 && HoldsLines(s.memory)
    ensures Feed(s, 'p').at == PasteBelow(s.at, s.memory.register)
    ensures Feed(s, 'P').at == PasteAbove(s.at, s.memory.register)
  {
    PutKey(s, 'p', PutBelow);
    PutKey(s, 'P', PutAbove);
  }

  lemma PutKey(s: State, b: Byte, op: Op)
    requires Ready(s) && s.keys.count == 0
    requires (b == 'p' && op == PutBelow) || (b == 'P' && op == PutAbove)
    ensures Feed(s, b) == Once(Save(s.Counted(0)), op)
  {
    KeyTyped(s, b);
    TimesOne(Save(s.Counted(0)), op);
  }

  lemma TimesOne(s: State, op: Op)
    ensures Times(s, op, 1) == Once(s, op)
  {
    assert Times(s, op, 0) == s;
  }

  /** After a counted dd one of the keys p and P brings the text back if and only if no
      more lines were to go than stand from the cursor on, and not all of them, or the
      cursor is in the second line, the first is empty, and all were to go. */
  lemma PutBack(s: State)
    requires Ready(s)
    ensures var t := Run(s, ['d', 'd']); var n := CountOf(s);
      Ready(t) &&
      ((Feed(t, 'p').at.lines == s.at.lines || Feed(t, 'P').at.lines == s.at.lines)
       <==> if n < |s.at.lines| then s.at.cy + n <= |s.at.lines| else s.at.cy == 1 && s.at.lines[0] == "")
  {
    var t := Cut(s);
    PutEither(t, s.at.lines, s.at.cy, CountOf(s));
  }

  /** What a counted dd leaves: n lines from row y on are in the register only. */
  predicate HasCut(t: State, lines: Lines, y: nat, n: nat) {
    && y < |lines| && Ready(t) && t.keys.count == 0 && HoldsLines(t.memory)
    && LinesOf(t.memory.register) == Held(lines, y, n)
    && t.at.lines == Without(lines, y, n)
    && t.at.cy == if y >= |t.at.lines| then |t.at.lines| - 1 else y
  }

  lemma Cut(s: State) returns (t: State)
    requires Ready(s)
    ensures t == Run(s, ['d', 'd']) && HasCut(t, s.at.lines, s.at.cy, CountOf(s))
  {
    t := CutLines(s.Counted(0), CountOf(s));
    CutRuns(s);
    CutStacks(s);
    CountedCut(s);
    YankedLines(s.at, CountOf(s));
  }

  lemma PutEither(t: State, lines: Lines, y: nat, n: nat)
    requires n > 0 && HasCut(t, lines, y, n)
    ensures (Feed(t, 'p').at.lines == lines || Feed(t, 'P').at.lines == lines)
       <==> if n < |lines| then y + n <= |lines| else y == 1 && lines[0] == ""
  {
    PutKeys(t);
    PutLines(lines, y, n, t.at.lines, t.at.cy, Held(lines, y, n));
  }

  lemma PutLines(lines: Lines, y: nat, n: nat, left: Lines, cy: nat, ls: Lines)
    requires n > 0 && y < |lines| && left == Without(lines, y, n)
    requires cy == if y >= |left| then |left| - 1 else y
    requires ls == Held(lines, y, n)
    ensures (InsertLines(left, cy + 1, ls) == lines || InsertLines(left, cy, ls) == lines)
       <==> if n < |lines| then y + n <= |lines| else y == 1 && lines[0] == ""
  {
    if n >= |lines| {
      AllCut(lines, y, ls);
    } else if y + n > |lines| {
      assert |InsertLines(left, cy + 1, ls)| < |lines| && |InsertLines(left, cy, ls)| < |lines|;
    } else if y + n == |lines| {
      assert lines[y + n..] == [] && left == lines[..y];
      EndCut(lines, y, left, ls);
    } else {
      MiddleCut(lines, y, y + n, left, ls);
    }
  }

  lemma MiddleCut(lines: Lines, y: nat, end: nat, left: Lines, ls: seq<string>)
    requires y <= end < |lines| && left == lines[..y] + lines[end..] && ls == lines[y..end]
    requires NoBreaks(ls)
    ensures InsertLines(left, y, ls) == lines
  {
    assert left[..y] == lines[..y] && left[y..] == lines[end..];
    assert lines[..y] + lines[y..end] + lines[end..] == lines;
  }

  lemma EndCut(lines: Lines, y: nat, left: Lines, ls: seq<string>)
    requires y < |lines| && left == lines[..y] && ls == lines[y..|lines|] && NoBreaks(ls)
    ensures InsertLines(left, |left|, ls) == lines
  {
    assert left[..|left|] == left && left[|left|..] == [];
    assert lines[..y] + lines[y..|lines|] + [] == lines;
  }

  /** Everything is gone but one empty line. */
  lemma AllCut(lines: Lines, y: nat, ls: Lines)
    requires y < |lines| && ls == lines[y..|lines|]
    ensures (InsertLines([""], 1, ls) == lines || InsertLines([""], 0, ls) == lines) <==> y == 1 && lines[0] == ""
  {
    var one: Lines := [""];
    assert one[..1] == one && one[1..] == [] && one[..0] == [] && one[0..] == one;
    assert one + ls + [] == one + ls && [] + ls + one == ls + one;
    assert InsertLines(one, 1, ls) == one + ls && InsertLines(one, 0, ls) == ls + one;
    if y == 1 {
      assert ls == lines[1..];
      assert lines == [lines[0]] + ls;
      assert (one + ls)[0] == "";
      if lines[0] != "" {
        AboveShifts(lines);
      }
    } else {
      assert |one + ls| != |lines| && |ls + one| != |lines|;
    }
  }

  /** Moving the first line to the end changes something unless all lines are the same. */
  lemma AboveShifts(lines: seq<string>)
    requires |lines| > 1 && lines[0] != ""
    ensures lines[1..] + [""] != lines
  {
    if lines[1..] + [""] == lines {
      Rotated(lines, |lines| - 1);
      assert false;
    }
  }

  lemma {:induction false} Rotated(lines: seq<string>, k: nat)
    requires k < |lines| && lines[1..] + [""] == lines
    ensures lines[|lines| - 1 - k] == ""
  {
    if k > 0 {
      Rotated(lines, k - 1);
      assert (lines[1..] + [""])[|lines| - 1 - k] == lines[|lines| - k];
    }
  }

  /** 2dd on a file of two lines: neither p nor P brings them back. */
  lemma BothCut()
    ensures var s := Feed(Loaded("a\nb"), '2'); var t := Run(s, ['d', 'd']);
      && s.at.lines == ["a", "b"] && Ready(t)
      && Feed(t, 'p').at.lines != ["a", "b"] && Feed(t, 'P').at.lines != ["a", "b"]
  {
    var s := Loaded("a\nb");
    LoadedTwoLines();
    DigitTyped(s, '2');
    PutBack(s.Counted(2));
  }

  lemma LoadedTwoLines()
    ensures Loaded("a\nb").at == Snapshot(["a", "b"], 0, 0)
  {
    assert "b"[1..] == "" && Split("") == [""] && ['b'] + "" == "b" && [""][1..] == [];
    assert Split("b") == ["b"];
    assert "\nb"[1..] == "b" && "a\nb"[1..] == "\nb";
    assert Split("\nb") == ["", "b"];
    assert ["", "b"][1..] == ["b"] && ['a'] + "" == "a";
    assert Split("a\nb") == ["a", "b"];
  }

  lemma YankTyped(s: State)
    requires Ready(s)
    ensures Feed(s, 'y') == s.Awaiting('y')
    ensures Feed(s.Awaiting('y'), 'y') == Yank(s.Counted(0), CountOf(s))
  {
    assert s.Awaiting('y').Awaiting(NONE).Counted(0) == s.Counted(0);
  }

  /** yy with a count takes so many lines, or as many as there are, and changes nothing. */
  lemma YankRuns(s: State) returns (t: State)
    requires Ready(s)
    ensures t == Run(s, ['y', 'y']) && Ready(t) && t.at == s.at && t.undo == s.undo && t.keys.count == 0
    ensures t.memory.register == Yanked(s.at, CountOf(s)) && HoldsLines(t.memory)
  {
    YankTyped(s);
    RunCons(s, 'y', ['y']);
    RunOne(s.Awaiting('y'), 'y');
    assert ['y'] + ['y'] == ['y', 'y'];
    YankedLines(s.at, CountOf(s));
    t := Yank(s.Counted(0), CountOf(s));
  }

  /** The buffer with more lines in front of row y, and the cursor on the first of them. */
  predicate HasMore(t: Buffer, r: Buffer, y: nat, ls: seq<string>)
    requires y <= |t.lines|
  {
    r.lines == t.lines[..y] + ls + t.lines[y..] && r.cy == y && r.cx == 0
  }

  /** Then p puts the lines below the cursor's line, and P above it. */
  lemma YankThenPut(s: State)
    requires Ready(s)
    ensures var t := Run(s, ['y', 'y']); var ls := Held(s.at.lines, s.at.cy, CountOf(s));
      && Ready(t) && t.at == s.at && t.undo == s.undo
      && HasMore(s.at, Feed(t, 'p').at, s.at.cy + 1, ls) && HasMore(s.at, Feed(t, 'P').at, s.at.cy, ls)
  {
    var t := YankRuns(s);
    PutKeys(t);
    YankedLines(s.at, CountOf(s));
  }
}
