/** What undo restores, when the loaded file comes back, and what :q can lose. */
module ViUndo {
  import Text
  import opened ViBuffer
  import opened ViKeys

  // ----- the cursor

  predicate OnALine(t: Snapshot) {
    |t.lines| > 0 && t.cy < |t.lines| && t.cx <= |t.lines[t.cy]|
  }

  /** After any bytes the buffer has a line, the cursor is in it, outside insert mode on one
      of its bytes if it has any, and so it is in every state that undo can bring back. */
  lemma CursorStaysInBuffer(content: string, bs: seq<Byte>)
    ensures var s := Run(Loaded(content), bs);
      && OnALine(s.at) && (s.mode != Insert ==> s.at.cx <= LastCol(s.at.lines[s.at.cy]))
      && forall k :: 0 <= k < |s.undo| ==>
           var t := s.undo[k];
           OnALine(t) && t.cx <= LastCol(t.lines[t.cy])
  {
    var s := Run(Loaded(content), bs);
    forall k | 0 <= k < |s.undo| ensures OnALine(s.undo[k]) && s.undo[k].cx <= LastCol(s.undo[k].lines[s.undo[k].cy]) {
      var t: Saved := s.undo[k];
      assert Resting(t);
    }
    assert s.mode != Insert ==> Resting(s.at);
  }

  // ----- the undo stack over a run

  lemma StackStep(s: State, b: Byte)
    requires Safe(s)
    ensures Stacks(Settled(s), Feed(s, b)) && Marks(s, Feed(s, b))
  {
  }

  /** No prefix of the stream pops the stack below d entries. */
  predicate StaysAbove(s: State, bs: seq<Byte>, d: nat)
    requires Safe(s)
    decreases |bs|
  {
    |s.undo| >= d && (bs == [] || s.quit || StaysAbove(Feed(s, bs[0]), bs[1..], d))
  }

  lemma {:induction false} StackKept(s: State, bs: seq<Byte>, d: nat)
    requires Safe(s) && StaysAbove(s, bs, d)
    ensures |Run(s, bs).undo| >= d && Run(s, bs).undo[..d] == s.undo[..d]
    decreases |bs|
  {
    if bs != [] && !s.quit {
      StackStep(s, bs[0]);
      StackKept(Feed(s, bs[0]), bs[1..], d);
      assert Feed(s, bs[0]).undo[..d] == s.undo[..d];
    }
  }

  lemma {:induction false} RunSplit(s: State, bs: seq<Byte>, cs: seq<Byte>)
    requires Safe(s)
    ensures Run(s, bs + cs) == Run(Run(s, bs), cs)
    decreases |bs|
  {
    if bs == [] {
      assert bs + cs == cs;
    } else if !s.quit {
      assert (bs + cs)[0] == bs[0] && (bs + cs)[1..] == bs[1..] + cs;
      RunSplit(Feed(s, bs[0]), bs[1..], cs);
    }
  }

  lemma RunFirst(s: State, bs: seq<Byte>)
    requires Safe(s) && !s.quit && bs != []
    ensures Run(s, bs) == Run(Feed(s, bs[0]), bs[1..])
  {
  }

  lemma RunOne(s: State, b: Byte)
    requires Safe(s) && !s.quit
    ensures Run(s, [b]) == Feed(s, b)
  {
    assert [b][1..] == [];
  }

  // ----- undo

  /** In normal mode, the next byte being a key of its own. */
  predicate Ready(s: State) {
    Safe(s) && s.mode == Normal && s.keys.esc == NoEsc && s.keys.pending == NONE && !s.quit
  }

  /** Ready, or waiting to see whether an Escape was one. */
  predicate Calm(s: State) {
    Safe(s) && Ready(Settled(s))
  }

  function Us(n: nat): seq<Byte> {
    if n == 0 then [] else ['u'] + Us(n - 1)
  }

  /** The n-th newest saved buffer and cursor, or the oldest if there are not as many, with
      what was saved before them. */
  function Undone(s: State, n: nat): State
    requires Calm(s) && n > 0
  {
    var t := Settled(s).Counted(0);
    if s.undo == [] then t
    else
      var k := if n <= |s.undo| then |s.undo| - n else 0;
      t.(undo := s.undo[..k], at := s.undo[k], dirty := true)
  }

  lemma UndoneReady(s: State, n: nat)
    requires Calm(s) && n > 0
    ensures Ready(Undone(s, n)) && Calm(Undone(s, n))
  {
  }

  lemma UndoneAgain(s: State, n: nat)
    requires Calm(s) && n > 1 && Calm(Undone(s, 1))
    ensures Undone(Undone(s, 1), n - 1) == Undone(s, n)
  {
    if s.undo != [] {
      var u, k := s.undo[..|s.undo| - 1], if n <= |s.undo| then |s.undo| - n else 0;
      assert u[..k] == s.undo[..k] && (u != [] ==> u[k] == s.undo[k]);
    }
  }

  lemma UndoKey(s: State)
    requires Calm(s)
    ensures Feed(s, 'u') == Undone(s, 1)
  {
    var t := Settled(s);
    assert Feed(s, 'u') == Undo(t.Counted(0));
  }

  lemma UsFirst(s: State, n: nat)
    requires Safe(s) && !s.quit && n > 0
    ensures Run(s, Us(n)) == Run(Feed(s, 'u'), Us(n - 1))
    ensures n == 1 ==> Run(s, Us(n)) == Feed(s, 'u')
  {
    assert Us(n)[0] == 'u' && Us(n)[1..] == Us(n - 1);
    RunFirst(s, Us(n));
  }

  lemma UndoThen(s: State, n: nat) returns (t: State)
    requires Calm(s) && n > 0
    ensures t == Undone(s, 1) && Calm(t)
    ensures Run(s, Us(n)) == Run(t, Us(n - 1))
    ensures n == 1 ==> Run(s, Us(n)) == t
  {
    UndoKey(s);
    UndoneReady(s, 1);
    t := Feed(s, 'u');
    UsFirst(s, n);
  }

  /** n times u restores the n-th newest saved buffer and cursor, and the saved states
      before them; more u than there are saved states do no harm. */
  lemma {:induction false} UndoMany(s: State, n: nat)
    requires Calm(s) && n > 0
    ensures Run(s, Us(n)) == Undone(s, n) && Ready(Undone(s, n))
    decreases n
  {
    UndoneReady(s, n);
    var t := UndoThen(s, n);
    if n > 1 {
      UndoneAgain(s, n);
      UndoMany(t, n - 1);
    }
  }

  /** Ready, with this buffer and cursor and these saved states. */
  predicate IsBack(r: State, at: Buffer, u: seq<Saved>) {
    Ready(r) && r.at == at && r.undo == u
  }

  lemma UndoBackTo(s: State, u: seq<Saved>, at: Buffer, n: nat)
    requires Calm(s) && n > 0 && |s.undo| == |u| + n && s.undo[..|u|] == u && s.undo[|u|] == at
    ensures IsBack(Run(s, Us(n)), at, u)
  {
    UndoMany(s, n);
  }

  /** Whatever is typed after a key that starts a change, as long as no u reaches behind
      it: u, as often as there are saved states since, restores text and cursor. */
  lemma UndoRestores(s: State, b: Byte, bs: seq<Byte>)
    requires Safe(s) && !s.quit && Feed(s, b).undo == s.undo + [s.at]
    requires StaysAbove(Feed(s, b), bs, |s.undo| + 1)
    requires Calm(Run(s, [b] + bs))
    ensures var e := Run(s, [b] + bs);
      |e.undo| > |s.undo| && IsBack(Run(e, Us(|e.undo| - |s.undo|)), s.at, s.undo)
  {
    var e := StartKept(s, b, bs);
    UndoBackTo(e, s.undo, s.at, |e.undo| - |s.undo|);
  }

  lemma StacksOver(u: seq<Buffer>, at: Buffer, v: seq<Buffer>)
    requires |v| > |u| && v[..|u| + 1] == u + [at]
    ensures v[..|u|] == u && v[|u|] == at
  {
    assert v[..|u|] == v[..|u| + 1][..|u|];
    assert v[|u|] == v[..|u| + 1][|u|];
  }

  lemma StartKept(s: State, b: Byte, bs: seq<Byte>) returns (e: State)
    requires Safe(s) && !s.quit && Feed(s, b).undo == s.undo + [s.at]
    requires StaysAbove(Feed(s, b), bs, |s.undo| + 1)
    ensures e == Run(s, [b] + bs)
    ensures |e.undo| > |s.undo| && e.undo[..|s.undo|] == s.undo && e.undo[|s.undo|] == s.at
  {
    RunCons(s, b, bs);
    KeptFrom(Feed(s, b), bs, s.undo, s.at);
    e := Run(Feed(s, b), bs);
  }

  lemma RunCons(s: State, b: Byte, bs: seq<Byte>)
    requires Safe(s) && !s.quit
    ensures Run(s, [b] + bs) == Run(Feed(s, b), bs)
  {
    assert ([b] + bs)[1..] == bs;
  }

  lemma KeptFrom(t: State, bs: seq<Byte>, u: seq<Saved>, at: Buffer)
    requires Safe(t) && t.undo == u + [at] && StaysAbove(t, bs, |u| + 1)
    ensures var e := Run(t, bs); |e.undo| > |u| && e.undo[..|u|] == u && e.undo[|u|] == at
  {
    StackKept(t, bs, |u| + 1);
    StacksOver(u, at, Run(t, bs).undo);
  }

  // ----- the loaded file

  /** The text that undoing everything comes back to. */
  function FirstLines(s: State): Lines {
    if s.undo == [] then s.at.lines else s.undo[0].lines
  }

  /** The Delete key erases a byte while there is nothing to undo; it saves no state. */
  predicate ErasesUnsaved(s: State, b: Byte) {
    s.undo == [] && s.keys.esc == Csi("3") && b == '~' && s.at.cx < |Line(s.at)|
  }

  function Size(lines: seq<string>): nat {
    if lines == [] then 0 else |lines[0]| + Size(lines[1..])
  }

  lemma {:induction false} SizeShrinks(lines: seq<string>, k: nat, l: string)
    requires k < |lines| && |l| < |lines[k]|
    ensures Size(lines[k := l]) < Size(lines)
  {
    if k == 0 {
      assert lines[0 := l][1..] == lines[1..];
    } else {
      assert lines[k := l][1..] == lines[1..][k - 1 := l];
      SizeShrinks(lines[1..], k - 1, l);
    }
  }

  lemma KeyKeepsFirstLines(s: State, b: Byte)
    requires Safe(s) && IsKey(s, b)
    ensures FirstLines(Feed(s, b)) == FirstLines(s)
  {
    var t := Settled(s);
    var r := Dispatch(t, b);
    if r.undo == t.undo + [t.at] {
      assert r.undo[0] == if t.undo == [] then t.at else t.undo[0];
    } else if Undoes(t, r) && |t.undo| > 1 {
      assert r.undo[0] == t.undo[0];
    }
  }

  lemma SequenceKeepsFirstLines(s: State, b: Byte)
    requires Safe(s) && !IsKey(s, b)
    ensures !ErasesUnsaved(s, b) ==> FirstLines(Feed(s, b)) == FirstLines(s)
    ensures ErasesUnsaved(s, b) ==> Size(FirstLines(Feed(s, b))) < Size(FirstLines(s))
  {
    if ErasesUnsaved(s, b) {
      ErasedShrinks(s);
    } else if s.undo == [] {
      LinesKept(s, b);
    }
  }

  lemma LinesKept(s: State, b: Byte)
    requires Safe(s) && !IsKey(s, b) && s.undo == [] && !ErasesUnsaved(s, b)
    ensures Feed(s, b).at.lines == s.at.lines
  {
  }

  lemma ErasedShrinks(s: State)
    requires Safe(s) && ErasesUnsaved(s, '~')
    ensures Feed(s, '~').undo == [] && Size(Feed(s, '~').at.lines) < Size(s.at.lines)
  {
    var t := s.at;
    SizeShrinks(t.lines, t.cy, Line(t)[..t.cx] + Line(t)[t.cx + 1..]);
    assert Feed(s, '~') == Once(s.Escaping(NoEsc), EraseRune);
  }

  /** Nowhere in the stream does Delete erase a byte that no undo would bring back. */
  predicate NeverErasesUnsaved(s: State, bs: seq<Byte>)
    requires Safe(s)
    decreases |bs|
  {
    bs == [] || s.quit || (!ErasesUnsaved(s, bs[0]) && NeverErasesUnsaved(Feed(s, bs[0]), bs[1..]))
  }

  lemma {:induction false} FirstLinesOf(s: State, bs: seq<Byte>)
    requires Safe(s)
    ensures NeverErasesUnsaved(s, bs) ==> FirstLines(Run(s, bs)) == FirstLines(s)
    ensures !NeverErasesUnsaved(s, bs) ==> Size(FirstLines(Run(s, bs))) < Size(FirstLines(s))
    decreases |bs|
  {
    if bs != [] && !s.quit {
      if IsKey(s, bs[0]) {
        KeyKeepsFirstLines(s, bs[0]);
      } else {
        SequenceKeepsFirstLines(s, bs[0]);
      }
      FirstLinesOf(Feed(s, bs[0]), bs[1..]);
    }
  }

  /** For every stream of bytes: undoing everything gives back the lines the file was
      loaded with, if and only if the Delete key never erased a byte while the undo stack
      was empty. */
  lemma UndoAllRestoresFile(content: string, bs: seq<Byte>)
    requires Calm(Run(Loaded(content), bs))
    ensures var s := Run(Loaded(content), bs);
      Run(s, Us(|s.undo|)).at.lines == Loaded(content).at.lines <==> NeverErasesUnsaved(Loaded(content), bs)
  {
    FirstLinesOf(Loaded(content), bs);
    UndoAll(Run(Loaded(content), bs));
  }

  lemma UndoAll(s: State)
    requires Calm(s)
    ensures Run(s, Us(|s.undo|)).at.lines == FirstLines(s)
  {
    if s.undo != [] {
      UndoMany(s, |s.undo|);
    }
  }

  lemma CsiTyped(s: State, more: seq<Byte>)
    requires Ready(s)
    ensures Run(s, [ESC] + (['['] + more)) == Run(s.Escaping(Csi("")), more)
  {
    RunCons(s, ESC, ['['] + more);
    RunCons(s.Escaping(GotEsc), '[', more);
  }

  lemma TildeTyped(s: State)
    requires Ready(s)
    ensures Run(s.Escaping(Csi("")), ['3', '~']) == Once(s, EraseRune)
  {
    var v := s.Escaping(Csi("3"));
    assert "" + ['3'] == "3" && v.Escaping(NoEsc) == s;
    RunCons(s.Escaping(Csi("")), '3', ['~']);
    RunOne(v, '~');
  }

  /** The Delete key is typed. */
  lemma DeleteTyped(s: State)
    requires Ready(s)
    ensures Run(s, [ESC, '[', '3', '~']) == Once(s, EraseRune)
  {
    CsiTyped(s, ['3', '~']);
    TildeTyped(s);
  }

  /** The Delete key on a file of one byte, with nothing to undo. */
  lemma DeleteNotUndone()
    ensures var s := Run(Loaded("a"), [ESC, '[', '3', '~']);
      Calm(s) && s.undo == [] && s.at.lines == [""] && Loaded("a").at.lines == ["a"]
  {
    LoadedOneLine();
    DeleteTyped(Loaded("a"));
    assert "a"[..0] + "a"[1..] == "" && ["a"][0 := ""] == [""];
  }

  lemma LoadedOneLine()
    ensures Loaded("a").at == Snapshot(["a"], 0, 0)
  {
    assert "a"[1..] == "" && Text.Split("") == [""] && ['a'] + "" == "a" && [""][1..] == [];
    assert Text.Split("a") == ["a"];
  }

  // ----- unsaved changes

  lemma {:induction false} CleanRun(s: State, bs: seq<Byte>)
    requires Safe(s)
    ensures Marks(s, Run(s, bs))
    decreases |bs|
  {
    if bs != [] && !s.quit {
      StackStep(s, bs[0]);
      CleanRun(Feed(s, bs[0]), bs[1..]);
    }
  }

  /** A buffer that is not marked as changed holds the lines the file was loaded with. */
  lemma CleanMeansUnchanged(content: string, bs: seq<Byte>)
    ensures var s := Run(Loaded(content), bs); !s.dirty ==> s.at.lines == Loaded(content).at.lines
  {
    CleanRun(Loaded(content), bs);
  }

  /** :q stops the editor if and only if there are no unsaved changes, and then nothing is
      lost. */
  lemma QuitLosesNothing(content: string, bs: seq<Byte>)
    requires Ready(Run(Loaded(content), bs))
    ensures var s := Run(Loaded(content), bs); var r := Run(s, ":q\r");
      && (r.quit <==> !s.dirty)
      && r.at == s.at && r.save == s.save
      && (r.quit ==> r.at.lines == Loaded(content).at.lines)
  {
    var s := Run(Loaded(content), bs);
    CleanMeansUnchanged(content, bs);
    ColonQ(s);
  }

  /** A file that was only loaded can be left at once. */
  lemma QuitAtOnce(content: string)
    ensures Ready(Loaded(content)) && !Loaded(content).dirty && Run(Loaded(content), ":q\r").quit
  {
    ColonQ(Loaded(content));
  }

  lemma ColonQ(s: State)
    requires Ready(s)
    ensures var r := Run(s, ":q\r"); r.quit == !s.dirty && r.at == s.at && r.save == s.save
  {
    var t := Typing(s, "");
    var u := Typing(s, "q");
    ColonTyped(s);
    CommandByte(s, "", 'q');
    EnterTyped(s);
    RunSplit(s, ":", "q\r");
    RunSplit(t, "q", "\r");
    RunOne(s, ':');
    RunOne(t, 'q');
    RunOne(u, '\r');
    assert ":" + "q\r" == ":q\r" && "q" + "\r" == "q\r";
  }

  /** After a colon and some bytes of a command. */
  function Typing(s: State, cmd: string): State {
    s.Counted(0).(mode := Command, prompt := s.prompt.(cmdline := cmd))
  }

  lemma ColonTyped(s: State)
    requires Ready(s)
    ensures Feed(s, ':') == Typing(s, "")
  {
  }

  lemma CommandByte(s: State, cmd: string, b: Byte)
    requires Ready(s) && b != ESC && b != '\r' && b != '\n' && b != DEL && b != BS
    ensures Feed(Typing(s, cmd), b) == Typing(s, cmd + Utf8(b))
  {
  }

  lemma EnterTyped(s: State)
    requires Ready(s)
    ensures var r := Feed(Typing(s, "q"), '\r'); r.quit == !s.dirty && r.at == s.at && r.save == s.save
  {
  }

  // ----- saving and loading

  lemma JoinSplit(ls: Lines)
    ensures LinesOf(Text.Unlines(ls)) == ls
  {
    var s := Text.Unlines(ls);
    Text.SplitUnlines(ls);
    UnlinesEnds(ls);
    var t := s[..|s| - 1];
    SplitSnoc(t);
    assert t + "\n" == s;
    assert Text.Split(t) + [""] == ls + [""];
    assert Text.Split(t) == (Text.Split(t) + [""])[..|Text.Split(t)|];
    assert ls == (ls + [""])[..|ls|];
  }

  lemma {:induction false} UnlinesEnds(ls: seq<string>)
    requires ls != []
    ensures var s := Text.Unlines(ls); s != "" && s[|s| - 1] == '\n'
  {
    if |ls| > 1 {
      UnlinesEnds(ls[1..]);
    }
  }

  lemma {:induction false} SplitSnoc(t: string)
    ensures Text.Split(t + "\n") == Text.Split(t) + [""]
  {
    if t == "" {
      assert t + "\n" == "\n" && "\n"[1..] == "";
    } else {
      assert (t + "\n")[1..] == t[1..] + "\n";
      SplitSnoc(t[1..]);
    }
  }

  lemma {:induction false} UnlinesSplit(t: string)
    ensures Text.Unlines(Text.Split(t)) == t + "\n"
  {
    if t != "" {
      UnlinesSplit(t[1..]);
      var rest := Text.Split(t[1..]);
      assert t == [t[0]] + t[1..];
      if t[0] == '\n' {
        assert ([""] + rest)[1..] == rest;
      } else {
        assert ([[t[0]] + rest[0]] + rest[1..])[1..] == rest[1..];
        var more := Text.Unlines(rest[1..]);
        assert [t[0]] + (rest[0] + "\n" + more) == [t[0]] + rest[0] + "\n" + more;
        assert [t[0]] + (t[1..] + "\n") == t + "\n";
      }
    }
  }

  /** Whatever was typed, saving and loading again gives the same lines. */
  lemma SaveThenLoad(s: State)
    ensures Loaded(Content(s)).at.lines == s.at.lines
  {
    JoinSplit(s.at.lines);
    UnlinesEnds(s.at.lines);
  }

  /** Loading and saving at once only adds a newline that is missing at the end. */
  lemma LoadThenSave(content: string)
    ensures Content(Loaded(content)) == TrimNewline(content) + "\n"
    ensures Content(Loaded(content)) == content <==> content != "" && content[|content| - 1] == '\n'
  {
    UnlinesSplit(TrimNewline(content));
  }
}
