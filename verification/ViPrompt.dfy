/** What a line typed at a prompt does: the ex commands, and searching. */
module ViPrompt {
  import opened Text
  import opened ViBuffer
  import opened ViKeys
  import opened ViUndo

  /** Bytes that a prompt takes as they are. */
  predicate IsPlain(b: Byte) {
    b < '\U{80}' && b != ESC && b != '\r' && b != '\n' && b != DEL && b != BS
  }

  predicate AllPlain(bs: seq<Byte>) {
    bs == [] || (IsPlain(bs[0]) && AllPlain(bs[1..]))
  }

  // ----- commands

  lemma {:induction false} CommandTyped(s: State, cmd: string, more: seq<Byte>)
    requires Ready(s) && AllPlain(more)
    ensures Run(Typing(s, cmd), more) == Typing(s, cmd + more)
    decreases |more|
  {
    if more == [] {
      assert cmd + more == cmd;
    } else {
      CommandByte(s, cmd, more[0]);
      RunFirst(Typing(s, cmd), more);
      CommandTyped(s, cmd + [more[0]], more[1..]);
      assert cmd + [more[0]] + more[1..] == cmd + more;
    }
  }

  lemma CommandEntered(s: State, cmd: string)
    requires Ready(s)
    ensures Feed(Typing(s, cmd), '\r') == RunCommand(Typing(s, cmd), cmd).(mode := Normal, prompt := s.prompt.(cmdline := ""))
  {
  }

  lemma ColonLine(s: State, cmd: seq<Byte>)
    requires Ready(s) && AllPlain(cmd)
    ensures Run(s, [':'] + cmd + ['\r']) == Feed(Typing(s, cmd), '\r')
  {
    RunSplit(s, [':'] + cmd, ['\r']);
    RunCons(s, ':', cmd);
    ColonTyped(s);
    CommandTyped(s, "", cmd);
    assert "" + cmd == cmd;
    RunOne(Typing(s, cmd), '\r');
  }

  /** :w saves, :wq and :x save and stop, :q! stops, :q stops if nothing would be lost,
      and any other command does nothing. */
  lemma Commands(s: State, cmd: seq<Byte>)
    requires Ready(s) && AllPlain(cmd)
    ensures var r := Run(s, [':'] + cmd + ['\r']);
      && r.at == s.at && r.undo == s.undo && r.dirty == s.dirty && r.mode == Normal
      && (r.save <==> s.save || cmd in ["w", "wq", "x"])
      && (r.quit <==> cmd in ["wq", "x", "q!"] || (cmd == "q" && !s.dirty))
  {
    ColonLine(s, cmd);
    CommandEntered(s, cmd);
  }

  /** An Escape leaves the prompt without doing anything. */
  lemma CommandCancelled(s: State, cmd: seq<Byte>)
    requires Ready(s) && AllPlain(cmd)
    ensures var r := Settled(Run(s, [':'] + cmd + [ESC]));
      Ready(r) && r.at == s.at && r.undo == s.undo && r.save == s.save && r.dirty == s.dirty
  {
    RunSplit(s, [':'] + cmd, [ESC]);
    RunCons(s, ':', cmd);
    ColonTyped(s);
    CommandTyped(s, "", cmd);
    assert "" + cmd == cmd;
    RunOne(Typing(s, cmd), ESC);
  }

  /** ZZ saves and stops. */
  lemma SaveAndStop(s: State)
    requires Ready(s)
    ensures var r := Run(s, ['Z', 'Z']); r.save && r.quit && r.at == s.at
  {
    ZTyped(s);
    RunCons(s, 'Z', ['Z']);
    RunOne(s.Awaiting('Z'), 'Z');
    assert ['Z'] + ['Z'] == ['Z', 'Z'];
  }

  lemma ZTyped(s: State)
    requires Ready(s)
    ensures Feed(s, 'Z') == s.Awaiting('Z')
    ensures var r := Feed(s.Awaiting('Z'), 'Z'); r.save && r.quit && r.at == s.at
  {
  }

  // ----- searching

  /** After a slash or a question mark and some bytes of a pattern. */
  function Asking(s: State, pat: string, forward: bool): State {
    s.Counted(0).(mode := Searching, prompt := s.prompt.(searchPat := pat, searchForward := forward))
  }

  lemma PatternBegun(s: State)
    requires Ready(s)
    ensures Feed(s, '/') == Asking(s, "", true) && Feed(s, '?') == Asking(s, "", false)
  {
  }

  lemma PatternByte(s: State, pat: string, forward: bool, b: Byte)
    requires Ready(s) && IsPlain(b)
    ensures Feed(Asking(s, pat, forward), b) == Asking(s, pat + [b], forward)
  {
  }

  lemma {:induction false} PatternTyped(s: State, pat: string, forward: bool, more: seq<Byte>)
    requires Ready(s) && AllPlain(more)
    ensures Run(Asking(s, pat, forward), more) == Asking(s, pat + more, forward)
    decreases |more|
  {
    if more == [] {
      assert pat + more == pat;
    } else {
      PatternByte(s, pat, forward, more[0]);
      RunFirst(Asking(s, pat, forward), more);
      PatternTyped(s, pat + [more[0]], forward, more[1..]);
      assert pat + [more[0]] + more[1..] == pat + more;
    }
  }

  /** Searched, and the search kept for n and N. */
  function Found(s: State, pat: string, forward: bool): State
    requires Ready(s)
  {
    s.Counted(0).(at := Search(s.at, pat, forward), prompt := s.prompt.(searchPat := "", searchForward := forward),
                  memory := s.memory.(lastSearch := pat, lastForward := forward))
  }

  lemma PatternEntered(s: State, pat: string, forward: bool)
    requires Ready(s)
    ensures Feed(Asking(s, pat, forward), '\r') == Found(s, pat, forward) && Ready(Found(s, pat, forward))
  {
  }

  lemma RepeatedOn(s: State)
    requires Ready(s) && s.memory.lastSearch != ""
    ensures Feed(s, 'n').at == Search(s.at, s.memory.lastSearch, s.memory.lastForward)
  {
  }

  lemma RepeatedBack(s: State)
    requires Ready(s) && s.memory.lastSearch != ""
    ensures Feed(s, 'N').at == Search(s.at, s.memory.lastSearch, !s.memory.lastForward)
  {
  }

  /** A slash and a pattern search forwards for it, a question mark backwards; n repeats
      the search in its direction and N in the other. */
  lemma SearchTyped(s: State, forward: bool, pat: seq<Byte>)
    requires Ready(s) && AllPlain(pat) && pat != []
    ensures var r := Run(s, [if forward then '/' else '?'] + pat + ['\r']);
      && Ready(r) && r.at == Search(s.at, pat, forward)
      && Feed(r, 'n').at == Search(r.at, pat, forward) && Feed(r, 'N').at == Search(r.at, pat, !forward)
  {
    var b: Byte := if forward then '/' else '?';
    RunSplit(s, [b] + pat, ['\r']);
    RunCons(s, b, pat);
    PatternBegun(s);
    PatternTyped(s, "", forward, pat);
    assert "" + pat == pat;
    RunOne(Asking(s, pat, forward), '\r');
    PatternEntered(s, pat, forward);
    RepeatedOn(Found(s, pat, forward));
    RepeatedBack(Found(s, pat, forward));
  }

  // ----- correcting what was typed

  /** Backspace takes back the last byte of the line at either prompt. */
  lemma TakenBack(s: State, line: string, b: Byte, forward: bool, erase: Byte)
    requires Ready(s) && (erase == DEL || erase == BS)
    ensures Feed(Typing(s, line + [b]), erase) == Typing(s, line)
    ensures Feed(Asking(s, line + [b], forward), erase) == Asking(s, line, forward)
  {
    assert (line + [b])[..|line|] == line;
  }

  /** An Escape leaves the search without moving or forgetting the one before. */
  lemma SearchCancelled(s: State, pat: string, forward: bool)
    requires Ready(s)
    ensures var r := Settled(Feed(Asking(s, pat, forward), ESC));
      Ready(r) && r.at == s.at && r.memory == s.memory && r.undo == s.undo && r.dirty == s.dirty
  {
  }
}
