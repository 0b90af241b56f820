/** Where the motions with a count go, and which keys are the same motion. */
module ViMotions {
  import opened Text
  import opened ViBuffer
  import opened ViKeys
  import opened ViUndo

  /** The least of a column and the last columns of the lines from row lo to row hi,
      both included. */
  function Narrowest(lines: Lines, lo: nat, hi: nat, cx: nat): nat
    requires hi < |lines|
    decreases hi + 1 - lo
  {
    if lo > hi then cx
    else
      var x := Narrowest(lines, lo + 1, hi, cx);
      if LastCol(lines[lo]) < x then LastCol(lines[lo]) else x
  }

  lemma {:induction false} NarrowestSnoc(lines: Lines, lo: nat, hi: nat, cx: nat)
    requires lo <= hi + 1 && hi + 1 < |lines|
    ensures var x := Narrowest(lines, lo, hi, cx);
      Narrowest(lines, lo, hi + 1, cx) == if LastCol(lines[hi + 1]) < x then LastCol(lines[hi + 1]) else x
    decreases hi + 1 - lo
  {
    if lo <= hi {
      NarrowestSnoc(lines, lo + 1, hi, cx);
    }
  }

  function Minus(x: nat, n: nat): nat {
    if n <= x then x - n else 0
  }

  function AtMost(x: nat, y: nat): nat {
    if x <= y then x else y
  }

  // ----- what n steps do

  /** Nothing but the cursor is different, and the count is used up. */
  predicate OnlyMoved(s: State, r: State) {
    r == s.Counted(0).(at := r.at) && r.at.lines == s.at.lines
  }

  lemma {:induction false} OnlyMoves(s: State, op: Op, n: nat)
    requires IsMotion(op)
    ensures Times(s, op, n) == s.(at := Times(s, op, n).at)
    decreases n
  {
    if n > 0 {
      OnlyMoves(s, op, n - 1);
    }
  }

  lemma {:induction false} LeftMany(s: State, n: nat)
    ensures Times(s, Left, n).at == s.at.(cx := Minus(s.at.cx, n))
    decreases n
  {
    if n > 0 {
      LeftMany(s, n - 1);
    }
  }

  lemma {:induction false} RightMany(s: State, n: nat)
    requires Resting(s.at)
    ensures Times(s, Right, n).at == s.at.(cx := AtMost(s.at.cx + n, LastCol(Line(s.at))))
    decreases n
  {
    if n > 0 {
      RightMany(s, n - 1);
    }
  }

  /** The cursor goes down n rows, or to the last, and to the left as far as the lines on
      the way are shorter. */
  predicate IsBelow(t: Buffer, r: Buffer, n: nat) {
    && r.lines == t.lines && r.cy == AtMost(t.cy + n, |t.lines| - 1)
    && r.cx == Narrowest(t.lines, t.cy + 1, r.cy, t.cx)
  }

  lemma BelowOneMore(t: Buffer, r: Buffer, n: nat)
    requires IsBelow(t, r, n)
    ensures IsBelow(t, MoveDown(r), n + 1)
  {
    if r.cy < |t.lines| - 1 {
      NarrowestSnoc(t.lines, t.cy + 1, r.cy, t.cx);
    }
  }

  lemma {:induction false} DownMany(s: State, n: nat)
    ensures IsBelow(s.at, Times(s, Down, n).at, n)
    decreases n
  {
    if n > 0 {
      DownMany(s, n - 1);
      BelowOneMore(s.at, Times(s, Down, n - 1).at, n - 1);
    }
  }

  predicate IsAbove(t: Buffer, r: Buffer, n: nat) {
    && r.lines == t.lines && r.cy == Minus(t.cy, n)
    && r.cx == (if r.cy < t.cy then Narrowest(t.lines, r.cy, t.cy - 1, t.cx) else t.cx)
  }

  lemma AboveOneMore(t: Buffer, r: Buffer, n: nat)
    requires IsAbove(t, r, n)
    ensures IsAbove(t, MoveUp(r), n + 1)
  {
  }

  lemma {:induction false} UpMany(s: State, n: nat)
    ensures IsAbove(s.at, Times(s, Up, n).at, n)
    decreases n
  {
    if n > 0 {
      UpMany(s, n - 1);
      AboveOneMore(s.at, Times(s, Up, n - 1).at, n - 1);
    }
  }

  // ----- the keys

  lemma LeftFed(s: State)
    requires Ready(s)
    ensures Feed(s, 'h') == Times(s.Counted(0), Left, CountOf(s))
  {
  }

  lemma RightFed(s: State)
    requires Ready(s)
    ensures Feed(s, 'l') == Times(s.Counted(0), Right, CountOf(s))
  {
  }

  lemma DownFed(s: State)
    requires Ready(s)
    ensures Feed(s, 'j') == Times(s.Counted(0), Down, CountOf(s))
  {
  }

  lemma UpFed(s: State)
    requires Ready(s)
    ensures Feed(s, 'k') == Times(s.Counted(0), Up, CountOf(s))
  {
  }

  /** h and l with a count go so many columns, or as far as they can. */
  lemma GoesLeft(s: State)
    requires Ready(s)
    ensures OnlyMoved(s, Feed(s, 'h'))
    ensures Feed(s, 'h').at == s.at.(cx := Minus(s.at.cx, CountOf(s)))
  {
    LeftFed(s);
    OnlyMoves(s.Counted(0), Left, CountOf(s));
    LeftMany(s.Counted(0), CountOf(s));
  }

  lemma GoesRight(s: State)
    requires Ready(s)
    ensures OnlyMoved(s, Feed(s, 'l'))
    ensures Feed(s, 'l').at == s.at.(cx := AtMost(s.at.cx + CountOf(s), LastCol(Line(s.at))))
  {
    RightFed(s);
    OnlyMoves(s.Counted(0), Right, CountOf(s));
    RightMany(s.Counted(0), CountOf(s));
  }

  /** j and k with a count go so many rows, or as far as they can. */
  lemma GoesDown(s: State)
    requires Ready(s)
    ensures OnlyMoved(s, Feed(s, 'j'))
    ensures IsBelow(s.at, Feed(s, 'j').at, CountOf(s))
  {
    DownFed(s);
    OnlyMoves(s.Counted(0), Down, CountOf(s));
    DownMany(s.Counted(0), CountOf(s));
  }

  lemma GoesUp(s: State)
    requires Ready(s)
    ensures OnlyMoved(s, Feed(s, 'k'))
    ensures IsAbove(s.at, Feed(s, 'k').at, CountOf(s))
  {
    UpFed(s);
    OnlyMoves(s.Counted(0), Up, CountOf(s));
    UpMany(s.Counted(0), CountOf(s));
  }

  lemma ToLineStart(s: State)
    requires Ready(s) && s.keys.count == 0
    ensures OnlyMoved(s, Feed(s, '0'))
    ensures Feed(s, '0').at == s.at.(cx := 0)
  {
  }

  lemma ToLineEnd(s: State)
    requires Ready(s)
    ensures OnlyMoved(s, Feed(s, '$'))
    ensures Feed(s, '$').at == s.at.(cx := LastCol(Line(s.at)))
  {
  }

  /** G goes to the line of its count, without one to the last. */
  lemma GoesToLine(s: State)
    requires Ready(s)
    ensures OnlyMoved(s, Feed(s, 'G'))
    ensures var r := Feed(s, 'G').at;
      && r.lines == s.at.lines
      && r.cy == (if s.keys.count == 0 then |s.at.lines| - 1 else AtMost(s.keys.count, |s.at.lines|) - 1)
      && r.cx == AtMost(s.at.cx, LastCol(Line(r)))
  {
  }

  lemma GTyped(s: State)
    requires Ready(s)
    ensures Feed(s, 'g') == s.Awaiting('g')
    ensures Feed(s.Awaiting('g'), 'g') == s.Counted(0).(at := s.at.(cx := 0, cy := 0))
  {
    assert s.Awaiting('g').Awaiting(NONE).Counted(0) == s.Counted(0);
  }

  /** gg goes to the first byte. */
  lemma GoesToTop(s: State)
    requires Ready(s)
    ensures Run(s, ['g', 'g']) == s.Counted(0).(at := s.at.(cx := 0, cy := 0))
  {
    GTyped(s);
    RunCons(s, 'g', ['g']);
    RunOne(s.Awaiting('g'), 'g');
    assert ['g'] + ['g'] == ['g', 'g'];
  }

  lemma WordForwardFed(s: State)
    requires Ready(s)
    ensures Feed(s, 'w') == Times(s.Counted(0), WordForward, CountOf(s))
  {
  }

  lemma WordBackwardFed(s: State)
    requires Ready(s)
    ensures Feed(s, 'b') == Times(s.Counted(0), WordBackward, CountOf(s))
  {
  }

  lemma WordEndFed(s: State)
    requires Ready(s)
    ensures Feed(s, 'e') == Times(s.Counted(0), WordEnd, CountOf(s))
  {
  }

  lemma OneTime(s: State, op: Op)
    ensures Times(s, op, 1) == Once(s, op)
  {
    assert Times(s, op, 0) == s;
  }

  lemma GoesWordForward(s: State)
    requires Ready(s) && s.keys.count == 0
    ensures Feed(s, 'w') == s.(at := MoveWordForward(s.at))
  {
    WordForwardFed(s);
    OneTime(s, WordForward);
  }

  lemma GoesWordBackward(s: State)
    requires Ready(s) && s.keys.count == 0
    ensures Feed(s, 'b') == s.(at := MoveWordBackward(s.at))
  {
    WordBackwardFed(s);
    OneTime(s, WordBackward);
  }

  lemma GoesWordEnd(s: State)
    requires Ready(s) && s.keys.count == 0
    ensures Feed(s, 'e') == s.(at := MoveWordEnd(s.at))
  {
    WordEndFed(s);
    OneTime(s, WordEnd);
  }

  // ----- cursor keys

  lemma CsiKeyTyped(s: State, final: Byte)
    requires Ready(s) && final in ['A', 'B', 'C', 'D', 'H', 'F']
    ensures Run(s, [ESC] + (['['] + [final])) == DecodeArrow(s, final)
  {
    var t := s.Escaping(Csi(""));
    CsiTyped(s, [final]);
    RunOne(t, final);
    assert t.Escaping(NoEsc) == s;
  }

  lemma Ss3KeyTyped(s: State, final: Byte)
    requires Ready(s)
    ensures Run(s, [ESC] + (['O'] + [final])) == DecodeArrow(s, final)
  {
    RunCons(s, ESC, ['O'] + [final]);
    RunCons(s.Escaping(GotEsc), 'O', [final]);
    RunOne(s.Escaping(Ss3), final);
    assert s.Escaping(Ss3).Escaping(NoEsc) == s;
  }

  /** One step of a cursor key: up, down, right, left, to the start or the end. */
  predicate IsStep(t: Buffer, r: Buffer, final: Byte) {
    match final
    case 'A' => IsAbove(t, r, 1)
    case 'B' => IsBelow(t, r, 1)
    case 'C' => r == t.(cx := AtMost(t.cx + 1, LastCol(Line(t))))
    case 'D' => r == t.(cx := Minus(t.cx, 1))
    case 'H' => r == t.(cx := 0)
    case _ => r == t.(cx := LastCol(Line(t)))
  }

  lemma ArrowSteps(s: State, final: Byte)
    requires Resting(s.at) && final in ['A', 'B', 'C', 'D', 'H', 'F']
    ensures IsStep(s.at, DecodeArrow(s, final).at, final)
  {
    AboveOneMore(s.at, s.at, 0);
    BelowOneMore(s.at, s.at, 0);
  }

  /** The cursor keys, Home and End, with either kind of escape sequence. */
  lemma CursorKeys(s: State, final: Byte)
    requires Ready(s) && final in ['A', 'B', 'C', 'D', 'H', 'F']
    ensures IsStep(s.at, Run(s, [ESC] + (['['] + [final])).at, final)
    ensures IsStep(s.at, Run(s, [ESC] + (['O'] + [final])).at, final)
  {
    CsiKeyTyped(s, final);
    Ss3KeyTyped(s, final);
    ArrowSteps(s, final);
  }

  lemma TildeTyped(s: State, digit: Byte)
    requires Ready(s) && digit in ['1', '7', '4', '8']
    ensures Run(s.Escaping(Csi("")), [digit] + ['~']) == DecodeCsi(s, [digit], '~')
  {
    var v := s.Escaping(Csi([digit]));
    assert "" + [digit] == [digit] && v.Escaping(NoEsc) == s;
    RunCons(s.Escaping(Csi("")), digit, ['~']);
    RunOne(v, '~');
  }

  /** The other escape sequences for Home and End. */
  lemma HomeAndEnd(s: State, digit: Byte)
    requires Ready(s) && digit in ['1', '7', '4', '8']
    ensures IsStep(s.at, Run(s, [ESC] + (['['] + ([digit] + ['~']))).at, if digit == '1' || digit == '7' then 'H' else 'F')
  {
    CsiTyped(s, [digit] + ['~']);
    TildeTyped(s, digit);
  }
}
