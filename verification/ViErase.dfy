/** What x and the Delete key take away. */
module ViErase {
  import opened Text
  import opened ViBuffer
  import opened ViKeys
  import opened ViUndo
  import opened ViChanges
  import opened ViTyping

  /** The text loses the byte behind the gap. */
  lemma EraseTypes(t: Buffer)
    requires t.cx < |Line(t)|
    ensures Unlines(DeleteRune(t).lines) == GapOf(t).before + GapOf(t).after[1..]
  {
    var l, r := Line(t), DeleteRune(t);
    LinesAround(r.lines, t.cy);
    assert r.lines[..t.cy] == t.lines[..t.cy] && r.lines[t.cy + 1..] == t.lines[t.cy + 1..];
    assert r.lines[t.cy] == l[..t.cx] + l[t.cx + 1..];
    var x, y := Unlines(t.lines[..t.cy]), Unlines(t.lines[t.cy + 1..]);
    assert (l[t.cx..] + "\n" + y)[1..] == l[t.cx + 1..] + "\n" + y;
    AroundGap(x, l[..t.cx], l[t.cx + 1..], "\n", y);
  }

  /** A line without n bytes from column c on; if there are not as many, the bytes before
      them go instead. */
  function Erased(l: string, c: nat, n: nat): string
    requires c <= |l|
  {
    if c + n <= |l| then l[..c] + l[c + n..] else if n < |l| then l[..|l| - n] else ""
  }

  /** The buffer is what n erased bytes at the cursor leave. */
  predicate IsErased(t: Buffer, r: Buffer, n: nat) {
    && r.cy == t.cy && r.lines == t.lines[t.cy := Erased(Line(t), t.cx, n)]
    && r.cx == if t.cx < |Line(r)| then t.cx else LastCol(Line(r))
  }

  lemma ErasedOnce(l: string, c: nat, n: nat)
    requires c <= LastCol(l)
    ensures var m := Erased(l, c, n); var x := if c < |m| then c else LastCol(m);
      && x <= |m|
      && Erased(l, c, n + 1) == if x < |m| then m[..x] + m[x + 1..] else m
  {
    if c + n + 1 <= |l| {
      assert l[c + n..][1..] == l[c + n + 1..];
    }
  }

  lemma EraseOneMore(t: Buffer, r: Buffer, n: nat)
    requires Resting(t) && IsErased(t, r, n)
    ensures IsErased(t, DeleteRune(r), n + 1)
  {
    ErasedOnce(Line(t), t.cx, n);
  }

  lemma NoneErased(t: Buffer)
    requires Resting(t)
    ensures IsErased(t, t, 0)
  {
    assert Line(t)[..t.cx] + Line(t)[t.cx..] == Line(t);
  }

  lemma {:induction false} EraseMany(s: State, n: nat)
    requires Resting(s.at)
    ensures IsErased(s.at, Times(s, EraseRune, n).at, n)
    decreases n
  {
    if n == 0 {
      NoneErased(s.at);
    } else {
      EraseMany(s, n - 1);
      EraseOneMore(s.at, Times(s, EraseRune, n - 1).at, n - 1);
    }
  }

  /** x with a count: so many bytes from the cursor on are gone, in its line only. */
  lemma CountedErase(s: State, digits: seq<Byte>)
    requires Ready(s) && s.keys.count == 0 && IsCount(digits)
    ensures var n := CountValue(0, digits);
      IsErased(s.at, Run(s, digits + ['x']).at, if n < 1 then 1 else n)
  {
    var t := s.Counted(CountValue(0, digits));
    DigitsTyped(s, digits);
    RunSplit(s, digits, ['x']);
    RunOne(t, 'x');
    KeyTyped(t, 'x');
    EraseMany(Save(t.Counted(0)), CountOf(t));
  }

  /** The Delete key takes away the byte under the cursor. */
  lemma DeleteKey(s: State)
    requires Ready(s)
    ensures IsErased(s.at, Run(s, [ESC, '[', '3', '~']).at, 1)
  {
    DeleteTyped(s);
    NoneErased(s.at);
    EraseOneMore(s.at, s.at, 0);
  }

  lemma {:induction false} EraseMarks(s: State, n: nat)
    requires Resting(s.at)
    ensures Times(s, EraseRune, n).dirty == (s.dirty || (n > 0 && Line(s.at) != ""))
    decreases n
  {
    if n > 0 {
      EraseMarks(s, n - 1);
      EraseMany(s, n - 1);
    }
  }

  /** x marks the file as changed unless the line is empty, when it changes nothing. */
  lemma EraseMarksChange(s: State)
    requires Ready(s)
    ensures Feed(s, 'x').dirty == (s.dirty || Line(s.at) != "")
    ensures Line(s.at) == "" ==> Feed(s, 'x').at == s.at
  {
    KeyTyped(s, 'x');
    EraseMarks(Save(s.Counted(0)), CountOf(s));
    EraseMany(Save(s.Counted(0)), CountOf(s));
    if Line(s.at) == "" {
      assert s.at.lines[s.at.cy := ""] == s.at.lines;
    }
  }

  /** Backspace marks the file as changed unless the cursor is at its start, when it
      changes nothing. */
  lemma BackspaceMarksChange(s: State, b: Byte)
    requires b == DEL || b == BS
    ensures FeedInsert(s, b).dirty == (s.dirty || GapOf(s.at).before != "")
    ensures GapOf(s.at).before == "" ==> FeedInsert(s, b) == s
  {
    var t := s.at;
    if t.cy > 0 {
      assert t.lines[..t.cy] == [t.lines[0]] + t.lines[1..t.cy];
      UnlinesAppend([t.lines[0]], t.lines[1..t.cy]);
    } else {
      assert t.lines[..0] == [] && Unlines([]) == "";
      assert "" + Line(t)[..t.cx] == Line(t)[..t.cx];
    }
  }
}
