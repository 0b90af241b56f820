/** The editor object. Its fields change in place, key by key; its whole state is at every
    moment what ViKeys says. */
module ViEditor {
  import Text
  import B = ViBuffer
  import K = ViKeys

  datatype EscState = EscNone | EscGotEsc | EscCsi | EscSs3

  class Editor {
    var lines: B.Lines
    var cx: nat
    var cy: nat
    var mode: K.Mode
    var pending: K.Byte
    var cmdline: string
    var dirty: bool
    var quit: bool
    var save: bool
    var escState: EscState
    var csiBuf: string
    var count: nat
    var register: string
    var registerLinewise: bool
    var undoStack: seq<B.Saved>
    var searchPat: string
    var searchForward: bool
    var lastSearch: string
    var lastForward: bool

    predicate InBounds()
      reads this
    {
      cy < |lines| && cx <= |lines[cy]|
    }

    function At(): B.Buffer
      requires InBounds()
      reads this
    {
      B.Snapshot(lines, cx, cy)
    }

    function Esc(): K.Escape
      reads this
    {
      match escState
      case EscNone => K.NoEsc
      case EscGotEsc => K.GotEsc
      case EscCsi => K.Csi(csiBuf)
      case EscSs3 => K.Ss3
    }

    function View(): K.State
      requires InBounds()
      reads this
    {
      K.State(At(), undoStack, dirty, mode, K.Keys(pending, count, Esc()),
              K.Prompt(cmdline, searchPat, searchForward),
              K.Memory(register, registerLinewise, lastSearch, lastForward), save, quit)
    }

    predicate Valid()
      reads this
    {
      InBounds() && K.Safe(View())
    }

    constructor (content: string)
      ensures Valid() && View() == K.Loaded(content)
    {
      lines := if content == "" then [""] else B.LinesOf(content);
      cx, cy, mode, pending, count := 0, 0, K.Normal, K.NONE, 0;
      cmdline, searchPat, searchForward := "", "", false;
      dirty, quit, save, undoStack := false, false, false, [];
      escState, csiBuf := EscNone, "";
      register, registerLinewise, lastSearch, lastForward := "", false, "", false;
    }

    // ----- motions

    method ClampX()
      requires cy < |lines|
      modifies `cx
      ensures InBounds() && At() == B.ClampX(old(B.Snapshot(lines, cx, cy)))
    {
      var m := B.LastCol(lines[cy]);
      if cx > m {
        cx := m;
      }
    }

    method ClampY()
      modifies `cy
      ensures cy == if old(cy) > |lines| - 1 then |lines| - 1 else old(cy)
    {
      if cy > |lines| - 1 {
        cy := |lines| - 1;
      }
    }

    method MoveLeft()
      requires InBounds()
      modifies `cx
      ensures InBounds() && At() == B.MoveLeft(old(At()))
    {
      if cx > 0 {
        cx := cx - 1;
      }
    }

    method MoveRight()
      requires InBounds()
      modifies `cx
      ensures InBounds() && At() == B.MoveRight(old(At()))
    {
      if cx < B.LastCol(lines[cy]) {
        cx := cx + 1;
      }
    }

    method MoveDown()
      requires InBounds()
      modifies `cx, `cy
      ensures InBounds() && At() == B.MoveDown(old(At()))
    {
      if cy < |lines| - 1 {
        cy := cy + 1;
        ClampX();
      }
    }

    method MoveUp()
      requires InBounds()
      modifies `cx, `cy
      ensures InBounds() && At() == B.MoveUp(old(At()))
    {
      if cy > 0 {
        cy := cy - 1;
        ClampX();
      }
    }

    method GoTo(hadCount: bool, cnt: nat)
      requires InBounds() && cnt > 0
      modifies `cx, `cy
      ensures InBounds() && At() == B.GoTo(old(At()), if hadCount then cnt else |lines|)
    {
      if hadCount {
        cy := cnt - 1;
      } else {
        cy := |lines| - 1;
      }
      ClampY();
      ClampX();
    }

    static method SkipWord(line: string, from: nat) returns (i: nat)
      ensures i == B.SkipWord(line, from)
    {
      i := from;
      while i < |line| && !B.IsWordSpace(line[i])
        invariant B.SkipWord(line, from) == B.SkipWord(line, i)
        decreases |line| - i
      {
        i := i + 1;
      }
    }

    static method SkipSpace(line: string, from: nat) returns (i: nat)
      ensures i == B.SkipSpace(line, from)
    {
      i := from;
      while i < |line| && B.IsWordSpace(line[i])
        invariant B.SkipSpace(line, from) == B.SkipSpace(line, i)
        decreases |line| - i
      {
        i := i + 1;
      }
    }

    static method SkipToEnd(line: string, from: nat) returns (i: nat)
      ensures i == B.SkipToEnd(line, from)
    {
      i := from;
      while i < |line| - 1 && !B.IsWordSpace(line[i + 1])
        invariant B.SkipToEnd(line, from) == B.SkipToEnd(line, i)
        decreases |line| - i
      {
        i := i + 1;
      }
    }

    method MoveWordForward()
      requires InBounds()
      modifies `cx, `cy
      ensures InBounds() && At() == B.MoveWordForward(old(At()))
    {
      var line := lines[cy];
      var i := SkipWord(line, cx);
      i := SkipSpace(line, i);
      if i < |line| {
        cx := i;
      } else if cy < |lines| - 1 {
        cy := cy + 1;
        cx := SkipSpace(lines[cy], 0);
        ClampX();
      } else {
        cx := B.LastCol(line);
      }
    }

    method MoveWordBackward()
      requires InBounds()
      modifies `cx, `cy
      ensures InBounds() && At() == B.MoveWordBackward(old(At()))
    {
      var line := lines[cy];
      var i: int := cx;
      if i == 0 {
        if cy == 0 {
          return;
        }
        cy := cy - 1;
        line := lines[cy];
        i := |line|;
      }
      i := i - 1;
      ghost var j := i;
      while i > 0 && B.IsWordSpace(line[i])
        invariant i <= j && B.SkipSpaceBack(line, j) == B.SkipSpaceBack(line, i)
      {
        i := i - 1;
      }
      ghost var k := i;
      while i > 0 && !B.IsWordSpace(line[i - 1])
        invariant i <= k && B.SkipWordBack(line, k) == B.SkipWordBack(line, i)
      {
        i := i - 1;
      }
      if i < 0 {
        i := 0;
      }
      cx := i;
    }

    method MoveWordEnd()
      requires InBounds()
      modifies `cx, `cy
      ensures InBounds() && At() == B.MoveWordEnd(old(At()))
    {
      var line := lines[cy];
      var i := SkipSpace(line, cx + 1);
      i := SkipToEnd(line, i);
      if i < |line| {
        cx := i;
        ClampX();
      } else if cy < |lines| - 1 {
        cy := cy + 1;
        var l := lines[cy];
        var j := SkipSpace(l, 0);
        j := SkipToEnd(l, j);
        cx := j;
        ClampX();
      }
    }

    // ----- search

    method SearchForward(pat: string)
      requires InBounds() && pat != ""
      modifies `cx, `cy
      ensures InBounds() && At() == B.SearchAhead(old(At()), 0, pat)
    {
      ghost var t := At();
      for off := 0 to |lines|
        invariant InBounds() && At() == t && B.SearchAhead(t, 0, pat) == B.SearchAhead(t, off, pat)
      {
        var row: nat := (cy + off) % |lines|;
        assert row == B.Ahead(t, off);
        var from := 0;
        if off == 0 {
          from := cx + 1;
        }
        var found := B.Find(lines[row], from, pat);
        assert found == B.MatchAhead(t, off, pat);
        if found.Some? {
          cy, cx := row, found.value;
          ClampX();
          return;
        }
      }
    }

    method SearchBackward(pat: string)
      requires InBounds() && pat != ""
      modifies `cx, `cy
      ensures InBounds() && At() == B.SearchBehind(old(At()), 0, pat)
    {
      ghost var t := At();
      for off := 0 to |lines|
        invariant InBounds() && At() == t && B.SearchBehind(t, 0, pat) == B.SearchBehind(t, off, pat)
      {
        var row: nat := ((cy - off) % |lines| + |lines|) % |lines|;
        assert row == B.Behind(t, off);
        var limit := |lines[row]|;
        if off == 0 && cx <= |lines[row]| {
          limit := cx;
        }
        var found := B.FindLast(lines[row], limit, pat);
        assert found == B.MatchBehind(t, off, pat);
        if found.Some? {
          cy, cx := row, found.value;
          ClampX();
          return;
        }
      }
    }

    method SearchExecute(pat: string, forward: bool)
      requires InBounds()
      modifies `cx, `cy
      ensures InBounds() && At() == B.Search(old(At()), pat, forward)
    {
      if pat == "" {
        return;
      }
      if forward {
        SearchForward(pat);
      } else {
        SearchBackward(pat);
      }
    }

    // ----- edits

    method DeleteRune()
      requires InBounds()
      modifies `lines, `cx, `dirty
      ensures InBounds() && At() == B.DeleteRune(old(At()))
      ensures dirty == (old(dirty) || old(cx < |lines[cy]|))
    {
      var line := lines[cy];
      assert line == B.Line(At());
      if cx < |line| {
        lines := B.SetLine(lines, cy, line[..cx] + line[cx + 1..]);
        dirty := true;
        ClampX();
      }
    }

    method DeleteLine()
      requires InBounds()
      modifies `lines, `cx, `cy, `dirty
      ensures InBounds() && At() == B.DeleteLine(old(At())) && dirty
    {
      if |lines| == 1 {
        lines := B.SetLine(lines, 0, "");
      } else {
        lines := B.RemoveLine(lines, cy);
        if cy >= |lines| {
          cy := |lines| - 1;
        }
      }
      cx := 0;
      dirty := true;
    }

    method OpenBelow()
      requires InBounds()
      modifies `lines, `cx, `cy, `mode, `dirty
      ensures InBounds() && At() == B.OpenBelow(old(At())) && mode == K.Insert && dirty
    {
      lines := B.InsertLines(lines, cy + 1, [""]);
      cy := cy + 1;
      cx := 0;
      mode := K.Insert;
      dirty := true;
    }

    method OpenAbove()
      requires InBounds()
      modifies `lines, `cx, `mode, `dirty
      ensures InBounds() && At() == B.OpenAbove(old(At())) && mode == K.Insert && dirty
    {
      lines := B.InsertLines(lines, cy, [""]);
      cx := 0;
      mode := K.Insert;
      dirty := true;
    }

    method InsertRune(b: K.Byte)
      requires InBounds() && b != '\n'
      modifies `lines, `cx, `dirty
      ensures InBounds() && At() == B.InsertRune(old(At()), b) && dirty
    {
      var line := lines[cy];
      assert line == B.Line(At());
      lines := B.SetLine(lines, cy, line[..cx] + B.Utf8(b) + line[cx..]);
      cx := cx + 1;
      dirty := true;
    }

    method SplitLine()
      requires InBounds()
      modifies `lines, `cx, `cy, `dirty
      ensures InBounds() && At() == B.SplitLine(old(At())) && dirty
    {
      var line := lines[cy];
      assert line == B.Line(At());
      var head, tail := line[..cx], line[cx..];
      lines := B.SetLine(lines, cy, head);
      lines := B.InsertLines(lines, cy + 1, [tail]);
      cy := cy + 1;
      cx := 0;
      dirty := true;
    }

    method Backspace()
      requires InBounds()
      modifies `lines, `cx, `cy, `dirty
      ensures InBounds() && At() == B.Backspace(old(At()))
      ensures dirty == (old(dirty) || old(cx) > 0 || old(cy) > 0)
    {
      var line := lines[cy];
      assert line == B.Line(At());
      if cx > 0 {
        lines := B.SetLine(lines, cy, line[..cx - 1] + line[cx..]);
        cx := cx - 1;
        dirty := true;
        return;
      }
      if cy > 0 {
        var prev := lines[cy - 1];
        assert prev in lines;
        cx := |prev|;
        lines := B.SetLine(lines, cy - 1, prev + lines[cy]);
        lines := B.RemoveLine(lines, cy);
        cy := cy - 1;
        dirty := true;
      }
    }

    // ----- undo, yank and paste

    method TakeSnapshot()
      requires Valid() && mode == K.Normal
      modifies `undoStack
      ensures Valid() && View() == K.Save(old(View()))
    {
      undoStack := undoStack + [B.Snapshot(lines, cx, cy)];
    }

    method Restore(s: B.Saved)
      modifies `lines, `cx, `cy
      ensures InBounds() && At() == s
    {
      lines := s.lines;
      cy, cx := s.cy, s.cx;
      ClampY();
      ClampX();
    }

    method Undo()
      requires Valid() && mode == K.Normal
      modifies `undoStack, `lines, `cx, `cy, `dirty
      ensures Valid() && View() == K.Undo(old(View()))
    {
      if |undoStack| == 0 {
        return;
      }
      var s := undoStack[|undoStack| - 1];
      undoStack := undoStack[..|undoStack| - 1];
      Restore(s);
      dirty := true;
    }

    method JoinLines(ls: seq<string>, from: nat, end: nat) returns (b: string)
      requires from <= end <= |ls|
      ensures b == Text.Unlines(ls[from..end])
    {
      b := "";
      for i := from to end
        invariant b == Text.Unlines(ls[from..i])
      {
        assert ls[from..i + 1] == ls[from..i] + [ls[i]];
        Text.UnlinesSnoc(ls[from..i], ls[i]);
        b := b + ls[i] + "\n";
      }
    }

    method YankLines(n: nat)
      requires InBounds()
      modifies `register, `registerLinewise
      ensures InBounds() && View() == K.Yank(old(View()), n)
    {
      var end := cy + n;
      if end > |lines| {
        end := |lines|;
      }
      var b := JoinLines(lines, cy, end);
      register := b;
      registerLinewise := true;
    }

    predicate HoldsLines()
      reads this
    {
      register != "" && registerLinewise
    }

    method PasteBelow()
      requires InBounds()
      modifies `lines, `cx, `cy, `dirty
      ensures InBounds() && dirty == (old(dirty) || HoldsLines())
      ensures At() == if HoldsLines() then B.PasteBelow(old(At()), register) else old(At())
    {
      if register == "" || !registerLinewise {
        return;
      }
      lines := B.InsertLines(lines, cy + 1, B.LinesOf(register));
      cy := cy + 1;
      cx := 0;
      dirty := true;
    }

    method PasteAbove()
      requires InBounds()
      modifies `lines, `cx, `dirty
      ensures InBounds() && dirty == (old(dirty) || HoldsLines())
      ensures At() == if HoldsLines() then B.PasteAbove(old(At()), register) else old(At())
    {
      if register == "" || !registerLinewise {
        return;
      }
      lines := B.InsertLines(lines, cy, B.LinesOf(register));
      cx := 0;
      dirty := true;
    }

    // ----- counts

    method TakeCount() returns (c: nat)
      requires InBounds()
      modifies `count
      ensures InBounds() && View() == old(View()).Counted(0) && c == K.CountOf(old(View()))
    {
      c := count;
      count := 0;
      if c < 1 {
        c := 1;
      }
    }

    method Move(op: K.Op)
      requires InBounds() && K.IsMotion(op)
      modifies `cx, `cy
      ensures InBounds() && View() == K.Once(old(View()), op)
    {
      match op
      case Left => MoveLeft();
      case Right => MoveRight();
      case Up => MoveUp();
      case Down => MoveDown();
      case WordForward => MoveWordForward();
      case WordBackward => MoveWordBackward();
      case WordEnd => MoveWordEnd();
    }

    method Once(op: K.Op)
      requires InBounds()
      modifies `lines, `cx, `cy, `dirty
      ensures InBounds() && View() == K.Once(old(View()), op)
    {
      if K.IsMotion(op) {
        Move(op);
      } else if op.EraseRune? || op.EraseLine? {
        Erase(op);
      } else {
        Put(op);
      }
    }

    method Erase(op: K.Op)
      requires InBounds() && (op.EraseRune? || op.EraseLine?)
      modifies `lines, `cx, `cy, `dirty
      ensures InBounds() && View() == K.Once(old(View()), op)
    {
      match op
      case EraseRune => DeleteRune();
      case EraseLine => DeleteLine();
    }

    method Put(op: K.Op)
      requires InBounds() && (op.PutBelow? || op.PutAbove?)
      modifies `lines, `cx, `cy, `dirty
      ensures InBounds() && View() == K.Once(old(View()), op)
    {
      match op
      case PutBelow => PasteBelow();
      case PutAbove => PasteAbove();
    }

    method Repeat(n: nat, op: K.Op)
      requires InBounds()
      modifies `lines, `cx, `cy, `dirty
      ensures InBounds() && View() == K.Times(old(View()), op, n)
    {
      for i := 0 to n
        invariant InBounds() && View() == K.Times(old(View()), op, i)
      {
        Once(op);
      }
    }

    // ----- normal mode

    method StartInsert(b: K.Byte)
      requires Valid() && mode == K.Normal && K.IsInsertKey(b)
      modifies `lines, `cx, `cy, `mode, `dirty
      ensures InBounds() && View() == K.StartInsert(old(View()), b)
    {
      match b
      case 'i' =>
        mode := K.Insert;
      case 'a' =>
        if |lines[cy]| > 0 {
          cx := cx + 1;
        }
        mode := K.Insert;
      case 'A' =>
        cx := |lines[cy]|;
        mode := K.Insert;
      case 'o' =>
        OpenBelow();
      case _ =>
        OpenAbove();
    }

    method StartSearch(forward: bool)
      requires Valid() && mode == K.Normal
      modifies `mode, `searchForward, `searchPat
      ensures Valid() && View() == K.StartSearch(old(View()), forward)
    {
      mode := K.Searching;
      searchForward := forward;
      searchPat := "";
    }

    method MotionKey(b: K.Byte, hadCount: bool, cnt: nat)
      requires Valid() && mode == K.Normal && cnt > 0
      modifies this
      ensures InBounds() && View() == K.MotionKey(old(View()), b, hadCount, cnt)
    {
      var motion := K.Motion(b);
      if motion.Some? {
        Repeat(cnt, motion.value);
        return;
      }
      match b
      case '0' => cx := 0;
      case '$' => cx := B.LastCol(lines[cy]);
      case 'G' => GoTo(hadCount, cnt);
      case _ => PromptKey(b);
    }

    method PromptKey(b: K.Byte)
      requires Valid() && mode == K.Normal
      modifies this
      ensures InBounds() && View() == K.PromptKey(old(View()), b)
    {
      match b
      case '/' => StartSearch(true);
      case '?' => StartSearch(false);
      case 'n' => SearchAgain(lastForward);
      case 'N' => SearchAgain(!lastForward);
      case ':' => mode, cmdline := K.Command, "";
      case _ =>
    }

    method SearchAgain(forward: bool)
      requires InBounds()
      modifies `cx, `cy
      ensures InBounds() && View() == K.SearchAgain(old(View()), forward)
    {
      if lastSearch != "" {
        SearchExecute(lastSearch, forward);
      }
    }

    method Key(b: K.Byte, hadCount: bool, cnt: nat)
      requires Valid() && mode == K.Normal && cnt > 0
      modifies this
      ensures InBounds() && View() == K.Key(old(View()), b, hadCount, cnt)
    {
      if K.IsInsertKey(b) {
        TakeSnapshot();
        StartInsert(b);
      } else if b == 'x' {
        TakeSnapshot();
        Repeat(cnt, K.EraseRune);
      } else if b == 'p' {
        TakeSnapshot();
        Repeat(cnt, K.PutBelow);
      } else if b == 'P' {
        TakeSnapshot();
        Repeat(cnt, K.PutAbove);
      } else if b == 'u' {
        Undo();
      } else {
        MotionKey(b, hadCount, cnt);
      }
    }

    method TakePending() returns (first: K.Byte, cnt: nat)
      requires InBounds()
      modifies `pending, `count
      ensures InBounds() && View() == old(View()).Awaiting(K.NONE).Counted(0)
      ensures first == old(pending) && cnt == K.CountOf(old(View()))
    {
      first := pending;
      pending := K.NONE;
      cnt := TakeCount();
    }

    method CutLines(n: nat)
      requires Valid() && mode == K.Normal
      modifies `lines, `cx, `cy, `dirty, `undoStack, `register, `registerLinewise
      ensures InBounds() && View() == K.CutLines(old(View()), n)
    {
      TakeSnapshot();
      YankLines(n);
      Repeat(n, K.EraseLine);
    }

    method HandlePending(b: K.Byte)
      requires Valid() && mode == K.Normal
      modifies this
      ensures InBounds() && View() == K.SecondKey(old(View()), b)
    {
      var first, cnt := TakePending();
      if first == 'd' && b == 'd' {
        CutLines(cnt);
      } else if first == 'y' && b == 'y' {
        YankLines(cnt);
      } else if first == 'g' && b == 'g' {
        cy, cx := 0, 0;
      } else if first == 'Z' && b == 'Z' {
        save := true;
        quit := true;
      }
    }

    method FeedNormal(b: K.Byte)
      requires Valid() && mode == K.Normal
      modifies this
      ensures InBounds() && View() == K.FeedNormal(old(View()), b)
    {
      if '1' <= b <= '9' || (b == '0' && count > 0) {
        count := count * 10 + (b as int - '0' as int);
      } else if pending != K.NONE {
        HandlePending(b);
      } else if K.TakesSecondKey(b) {
        pending := b;
      } else {
        var hadCount := count > 0;
        var cnt := TakeCount();
        Key(b, hadCount, cnt);
      }
    }

    // ----- the other modes

    method Remember()
      requires InBounds()
      modifies `mode, `lastSearch, `lastForward
      ensures mode == K.Normal && lastSearch == searchPat && lastForward == searchForward
    {
      mode := K.Normal;
      lastSearch := searchPat;
      lastForward := searchForward;
    }

    method FinishSearch()
      requires Valid() && mode == K.Searching
      modifies `mode, `lastSearch, `lastForward, `cx, `cy, `searchPat
      ensures InBounds() && View() == K.FinishSearch(old(View()))
    {
      Remember();
      SearchExecute(searchPat, searchForward);
      searchPat := "";
    }

    method FeedSearch(b: K.Byte)
      requires Valid() && mode == K.Searching
      modifies this
      ensures InBounds() && View() == K.FeedSearch(old(View()), b)
    {
      if b == '\r' || b == '\n' {
        FinishSearch();
      } else if b == K.DEL || b == K.BS {
        if |searchPat| > 0 {
          searchPat := searchPat[..|searchPat| - 1];
        }
      } else {
        searchPat := searchPat + B.Utf8(b);
      }
    }

    method RunExCommand(cmd: string)
      requires InBounds()
      modifies `save, `quit
      ensures InBounds() && View() == K.RunCommand(old(View()), cmd)
    {
      if cmd == "w" {
        save := true;
      } else if cmd == "wq" || cmd == "x" {
        save := true;
        quit := true;
      } else if cmd == "q" {
        if dirty {
          return;
        }
        quit := true;
      } else if cmd == "q!" {
        quit := true;
      }
    }

    method FeedCommand(b: K.Byte)
      requires Valid() && mode == K.Command
      modifies this
      ensures InBounds() && View() == K.FeedCommand(old(View()), b)
    {
      if b == '\r' || b == '\n' {
        RunExCommand(cmdline);
        mode := K.Normal;
        cmdline := "";
      } else if b == K.DEL || b == K.BS {
        if |cmdline| > 0 {
          cmdline := cmdline[..|cmdline| - 1];
        }
      } else {
        cmdline := cmdline + B.Utf8(b);
      }
    }

    method FeedInsert(b: K.Byte)
      requires InBounds()
      modifies `lines, `cx, `cy, `dirty
      ensures InBounds() && View() == K.FeedInsert(old(View()), b)
    {
      if b == '\r' || b == '\n' {
        SplitLine();
      } else if b == K.DEL || b == K.BS {
        Backspace();
      } else {
        InsertRune(b);
      }
    }

    method Dispatch(b: K.Byte)
      requires Valid()
      modifies this
      ensures Valid() && View() == K.Dispatch(old(View()), b)
    {
      match mode
      case Insert => FeedInsert(b);
      case Command => FeedCommand(b);
      case Searching => FeedSearch(b);
      case Normal => FeedNormal(b);
    }

    // ----- escape sequences

    method HandleEsc()
      requires Valid()
      modifies `mode, `cx, `cmdline, `searchPat
      ensures Valid() && View() == K.HandleEsc(old(View()))
    {
      match mode
      case Insert =>
        mode := K.Normal;
        if cx > 0 {
          cx := cx - 1;
        }
      case Command =>
        mode := K.Normal;
        cmdline := "";
      case Searching =>
        mode := K.Normal;
        searchPat := "";
      case Normal =>
    }

    method DecodeArrow(final: K.Byte)
      requires InBounds()
      modifies `cx, `cy
      ensures InBounds() && View() == K.DecodeArrow(old(View()), final)
    {
      match final
      case 'A' => MoveUp();
      case 'B' => MoveDown();
      case 'C' => MoveRight();
      case 'D' => MoveLeft();
      case 'H' => cx := 0;
      case 'F' => cx := B.LastCol(lines[cy]);
      case _ =>
    }

    method DecodeCsi(params: string, final: K.Byte)
      requires InBounds()
      modifies `lines, `cx, `cy, `dirty
      ensures InBounds() && View() == K.DecodeCsi(old(View()), params, final)
    {
      if final == '~' {
        if params == "1" || params == "7" {
          cx := 0;
        } else if params == "4" || params == "8" {
          cx := B.LastCol(lines[cy]);
        } else if params == "3" {
          DeleteRune();
        }
      } else {
        DecodeArrow(final);
      }
    }

    // ----- one byte, and a string of them

    method Feed(b: K.Byte)
      requires Valid()
      modifies this
      ensures Valid() && View() == K.Feed(old(View()), b)
    {
      match escState
      case EscGotEsc =>
        escState := EscNone;
        if b == '[' {
          escState := EscCsi;
          csiBuf := "";
        } else if b == 'O' {
          escState := EscSs3;
        } else {
          HandleEsc();
          Dispatch(b);
        }
      case EscCsi =>
        if '\U{40}' <= b <= '\U{7E}' {
          escState := EscNone;
          DecodeCsi(csiBuf, b);
        } else {
          csiBuf := csiBuf + [b];
        }
      case EscSs3 =>
        escState := EscNone;
        DecodeArrow(b);
      case EscNone =>
        if b == K.ESC {
          escState := EscGotEsc;
        } else {
          Dispatch(b);
        }
    }

    method Flush()
      requires Valid()
      modifies this
      ensures Valid() && View() == K.Flush(old(View()))
    {
      if escState == EscGotEsc {
        escState := EscNone;
        HandleEsc();
      }
      escState := EscNone;
    }

    method FeedString(bs: seq<K.Byte>)
      requires Valid()
      modifies this
      ensures Valid() && View() == K.Flush(K.Run(old(View()), bs))
    {
      var i := 0;
      while i < |bs| && !quit
        invariant i <= |bs| && Valid()
        invariant K.Run(old(View()), bs) == K.Run(View(), bs[i..])
      {
        assert bs[i..][0] == bs[i] && bs[i..][1..] == bs[i + 1..];
        Feed(bs[i]);
        i := i + 1;
      }
      Flush();
    }
  }
}
