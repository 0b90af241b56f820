/** What each input byte does to the editor: escape sequences, the four modes, counts,
    two-key commands, the undo stack and the register. */
module ViKeys {
  import Text
  import opened ViBuffer

  type Byte = c: char | c < '\U{100}' witness ' '

  const ESC: Byte := '\U{1B}'
  const DEL: Byte := '\U{7F}'
  const BS: Byte := '\U{8}'
  const NONE: Byte := '\0'

  datatype Mode = Normal | Insert | Command | Searching

  /** Where the editor is in a terminal escape sequence. */
  datatype Escape = NoEsc | GotEsc | Csi(params: string) | Ss3

  /** Input that is not complete: the first key of two, a count, an escape sequence. */
  datatype Keys = Keys(pending: Byte, count: nat, esc: Escape)

  /** What is being typed behind a colon, a slash or a question mark. */
  datatype Prompt = Prompt(cmdline: string, searchPat: string, searchForward: bool)

  /** The yanked text and the last search. */
  datatype Memory = Memory(register: string, linewise: bool, lastSearch: string, lastForward: bool)

  datatype State = State(
    at: Buffer, undo: seq<Saved>, dirty: bool, mode: Mode, keys: Keys, prompt: Prompt, memory: Memory,
    save: bool, quit: bool)
  {
    function Awaiting(b: Byte): State {
      this.(keys := keys.(pending := b))
    }

    function Counted(n: nat): State {
      this.(keys := keys.(count := n))
    }

    function Escaping(e: Escape): State {
      this.(keys := keys.(esc := e))
    }
  }

  /** Outside insert mode the cursor rests on its line; insert mode is only entered with a
      saved state to come back to. */
  predicate Safe(s: State) {
    && (s.mode != Insert ==> Resting(s.at))
    && (s.mode == Insert ==> s.undo != [])
  }

  /** Text that has changed is marked as changed, for good. */
  predicate Marks(s: State, r: State) {
    !r.dirty ==> !s.dirty && r.at.lines == s.at.lines
  }

  /** Only the buffer and its mark are different. */
  predicate Edits(s: State, r: State) {
    r == s.(at := r.at, dirty := r.dirty) && Marks(s, r) && (Resting(s.at) ==> Resting(r.at))
  }

  /** The text and the undo stack are as before. */
  predicate Quiet(s: State, r: State) {
    r.undo == s.undo && r.at.lines == s.at.lines && Marks(s, r)
  }

  /** The buffer and cursor as they were are saved on the undo stack. */
  predicate StartsChange(s: State, r: State) {
    r.undo == s.undo + [s.at] && Marks(s, r)
  }

  /** The newest saved buffer and cursor are back. */
  predicate Undoes(s: State, r: State) {
    s.undo != [] && r.undo == s.undo[..|s.undo| - 1] && r.at == s.undo[|s.undo| - 1] && r.dirty
  }

  /** The undo stack is left alone, gets the buffer and cursor as they were on top, or
      gives back its newest ones. */
  predicate Stacks(s: State, r: State) {
    r.undo == s.undo || r.undo == s.undo + [s.at] || Undoes(s, r)
  }

  function Loaded(content: string): (s: State)
    ensures Safe(s)
  {
    State(Snapshot(if content == "" then [""] else LinesOf(content), 0, 0), [], false, Normal,
          Keys(NONE, 0, NoEsc), Prompt("", "", false), Memory("", false, "", false), false, false)
  }

  /** What is written to the file. */
  function Content(s: State): string {
    Text.Unlines(s.at.lines)
  }

  // ----- repeated operations

  datatype Op = Left | Right | Up | Down | WordForward | WordBackward | WordEnd
              | EraseRune | EraseLine | PutBelow | PutAbove

  predicate HoldsLines(m: Memory) {
    m.register != "" && m.linewise
  }

  predicate IsMotion(op: Op) {
    !op.EraseRune? && !op.EraseLine? && !op.PutBelow? && !op.PutAbove?
  }

  function Once(s: State, op: Op): (r: State)
    ensures Edits(s, r)
    ensures IsMotion(op) ==> Quiet(s, r)
  {
    match op
    case Left => s.(at := MoveLeft(s.at))
    case Right => s.(at := MoveRight(s.at))
    case Up => s.(at := MoveUp(s.at))
    case Down => s.(at := MoveDown(s.at))
    case WordForward => s.(at := MoveWordForward(s.at))
    case WordBackward => s.(at := MoveWordBackward(s.at))
    case WordEnd => s.(at := MoveWordEnd(s.at))
    case EraseRune => s.(at := DeleteRune(s.at), dirty := s.dirty || s.at.cx < |Line(s.at)|)
    case EraseLine => s.(at := DeleteLine(s.at), dirty := true)
    case PutBelow => if HoldsLines(s.memory) then s.(at := PasteBelow(s.at, s.memory.register), dirty := true) else s
    case PutAbove => if HoldsLines(s.memory) then s.(at := PasteAbove(s.at, s.memory.register), dirty := true) else s
  }

  function Times(s: State, op: Op, n: nat): (r: State)
    ensures Edits(s, r)
    ensures IsMotion(op) ==> Quiet(s, r)
  {
    if n == 0 then s
    else
      var most := Times(s, op, n - 1);
      EditsTwice(s, most, Once(most, op));
      Once(most, op)
  }

  lemma EditsTwice(s: State, t: State, r: State)
    requires Edits(s, t) && Edits(t, r)
    ensures Edits(s, r)
    ensures Quiet(s, t) && Quiet(t, r) ==> Quiet(s, r)
  {
  }

  function Yank(s: State, n: nat): State {
    s.(memory := s.memory.(register := Yanked(s.at, n), linewise := true))
  }

  // ----- undo

  function Save(s: State): (r: State)
    requires Safe(s) && Resting(s.at)
    ensures Safe(r) && StartsChange(s, r)
  {
    s.(undo := s.undo + [s.at])
  }

  function Undo(s: State): (r: State)
    requires Safe(s) && s.mode == Normal
    ensures Safe(r) && (Undoes(s, r) || (s.undo == [] && r == s))
  {
    if s.undo == [] then s
    else
      var last := s.undo[|s.undo| - 1];
      s.(undo := s.undo[..|s.undo| - 1], at := ClampX(last), dirty := true)
  }

  // ----- normal mode

  function CountOf(s: State): (n: nat)
    ensures n > 0
  {
    if s.keys.count < 1 then 1 else s.keys.count
  }

  predicate IsCountDigit(s: State, b: Byte) {
    '1' <= b <= '9' || (b == '0' && s.keys.count > 0)
  }

  predicate TakesSecondKey(b: Byte) {
    b == 'd' || b == 'g' || b == 'Z' || b == 'y'
  }

  function FeedNormal(s: State, b: Byte): (r: State)
    requires Safe(s) && s.mode == Normal
    ensures Safe(r) && (Quiet(s, r) || StartsChange(s, r) || Undoes(s, r))
  {
    if IsCountDigit(s, b) then s.Counted(s.keys.count * 10 + (b as int - '0' as int))
    else if s.keys.pending != NONE then SecondKey(s, b)
    else if TakesSecondKey(b) then s.Awaiting(b)
    else Key(s.Counted(0), b, s.keys.count > 0, CountOf(s))
  }

  /** The keys that change the text or start inserting. */
  predicate IsChangeKey(b: Byte) {
    b == 'x' || b == 'p' || b == 'P' || IsInsertKey(b)
  }

  predicate IsInsertKey(b: Byte) {
    b == 'i' || b == 'a' || b == 'A' || b == 'o' || b == 'O'
  }

  function Key(s: State, b: Byte, hadCount: bool, cnt: nat): (r: State)
    requires Safe(s) && s.mode == Normal && cnt > 0
    ensures Safe(r) && (Quiet(s, r) || StartsChange(s, r) || Undoes(s, r))
    ensures IsChangeKey(b) ==> StartsChange(s, r)
    ensures b != 'u' && !IsChangeKey(b) ==> Quiet(s, r)
  {
    if IsInsertKey(b) then StartInsert(Save(s), b)
    else if IsChangeKey(b) then Times(Save(s), if b == 'x' then EraseRune else if b == 'p' then PutBelow else PutAbove, cnt)
    else if b == 'u' then Undo(s)
    else MotionKey(s, b, hadCount, cnt)
  }

  function StartInsert(s: State, b: Byte): (r: State)
    requires IsInsertKey(b) && s.mode == Normal && Resting(s.at)
    ensures r == s.(mode := Insert, at := r.at, dirty := r.dirty) && Marks(s, r)
  {
    match b
    case 'i' => s.(mode := Insert)
    case 'a' => s.(mode := Insert, at := if |Line(s.at)| > 0 then s.at.(cx := s.at.cx + 1) else s.at)
    case 'A' => s.(mode := Insert, at := s.at.(cx := |Line(s.at)|))
    case 'o' => s.(mode := Insert, at := OpenBelow(s.at), dirty := true)
    case _ => s.(mode := Insert, at := OpenAbove(s.at), dirty := true)
  }

  /** The motions that a count repeats. */
  function Motion(b: Byte): (op: Text.Option<Op>)
    ensures op.Some? ==> IsMotion(op.value)
  {
    match b
    case 'h' => Text.Some(Left)
    case 'l' => Text.Some(Right)
    case 'j' => Text.Some(Down)
    case 'k' => Text.Some(Up)
    case 'w' => Text.Some(WordForward)
    case 'b' => Text.Some(WordBackward)
    case 'e' => Text.Some(WordEnd)
    case _ => Text.None
  }

  function Go(s: State, at: Buffer): (r: State)
    requires Safe(s) && Moves(s.at, at)
    ensures Safe(r) && Quiet(s, r)
  {
    s.(at := at)
  }

  function StartSearch(s: State, forward: bool): (r: State)
    requires Safe(s) && s.mode == Normal
    ensures Safe(r) && Quiet(s, r)
  {
    s.(mode := Searching, prompt := s.prompt.(searchForward := forward, searchPat := ""))
  }

  function MotionKey(s: State, b: Byte, hadCount: bool, cnt: nat): (r: State)
    requires Safe(s) && s.mode == Normal && cnt > 0
    ensures Safe(r) && Quiet(s, r)
  {
    if Motion(b).Some? then Times(s, Motion(b).value, cnt)
    else match b
    case '0' => Go(s, Home(s.at))
    case '$' => Go(s, End(s.at))
    case 'G' => Go(s, GoTo(s.at, if hadCount then cnt else |s.at.lines|))
    case _ => PromptKey(s, b)
  }

  /** The keys that begin or repeat a search or begin a command. */
  function PromptKey(s: State, b: Byte): (r: State)
    requires Safe(s) && s.mode == Normal
    ensures Safe(r) && Quiet(s, r)
  {
    match b
    case '/' => StartSearch(s, true)
    case '?' => StartSearch(s, false)
    case 'n' => SearchAgain(s, s.memory.lastForward)
    case 'N' => SearchAgain(s, !s.memory.lastForward)
    case ':' => s.(mode := Command, prompt := s.prompt.(cmdline := ""))
    case _ => s
  }

  function CutLines(s: State, n: nat): (r: State)
    requires Safe(s) && s.mode == Normal
    ensures Safe(r) && StartsChange(s, r)
  {
    Times(Yank(Save(s), n), EraseLine, n)
  }

  /** The second key of d, g, Z or y. */
  function SecondKey(s: State, b: Byte): (r: State)
    requires Safe(s) && s.mode == Normal
    ensures Safe(r) && (Quiet(s, r) || StartsChange(s, r))
  {
    var first, t := s.keys.pending, s.Awaiting(NONE).Counted(0);
    if first == 'd' && b == 'd' then CutLines(t, CountOf(s))
    else if first == 'y' && b == 'y' then Yank(t, CountOf(s))
    else if first == 'g' && b == 'g' then t.(at := Top(t.at))
    else if first == 'Z' && b == 'Z' then t.(save := true, quit := true)
    else t
  }

  function SearchAgain(s: State, forward: bool): (r: State)
    ensures Quiet(s, r) && (Resting(s.at) ==> Resting(r.at)) && r == s.(at := r.at)
  {
    if s.memory.lastSearch != "" then s.(at := Search(s.at, s.memory.lastSearch, forward)) else s
  }

  // ----- the other modes

  function DropLast(s: string): string {
    if |s| > 0 then s[..|s| - 1] else s
  }

  function FinishSearch(s: State): (r: State)
    requires Safe(s) && s.mode == Searching
    ensures Safe(r) && Quiet(s, r)
  {
    s.(mode := Normal, prompt := s.prompt.(searchPat := ""),
       memory := s.memory.(lastSearch := s.prompt.searchPat, lastForward := s.prompt.searchForward),
       at := Search(s.at, s.prompt.searchPat, s.prompt.searchForward))
  }

  function FeedSearch(s: State, b: Byte): (r: State)
    requires Safe(s) && s.mode == Searching
    ensures Safe(r) && Quiet(s, r)
  {
    if b == '\r' || b == '\n' then FinishSearch(s)
    else if b == DEL || b == BS then s.(prompt := s.prompt.(searchPat := DropLast(s.prompt.searchPat)))
    else s.(prompt := s.prompt.(searchPat := s.prompt.searchPat + Utf8(b)))
  }

  function RunCommand(s: State, cmd: string): (r: State)
    ensures r == s.(save := r.save, quit := r.quit)
  {
    if cmd == "w" then s.(save := true)
    else if cmd == "wq" || cmd == "x" then s.(save := true, quit := true)
    else if cmd == "q" then (if s.dirty then s else s.(quit := true))
    else if cmd == "q!" then s.(quit := true)
    else s
  }

  function FeedCommand(s: State, b: Byte): (r: State)
    requires Safe(s) && s.mode == Command
    ensures Safe(r) && Quiet(s, r)
  {
    if b == '\r' || b == '\n' then RunCommand(s, s.prompt.cmdline).(mode := Normal, prompt := s.prompt.(cmdline := ""))
    else if b == DEL || b == BS then s.(prompt := s.prompt.(cmdline := DropLast(s.prompt.cmdline)))
    else s.(prompt := s.prompt.(cmdline := s.prompt.cmdline + Utf8(b)))
  }

  function FeedInsert(s: State, b: Byte): (r: State)
    ensures r == s.(at := r.at, dirty := r.dirty) && Marks(s, r)
  {
    if b == '\r' || b == '\n' then s.(at := SplitLine(s.at), dirty := true)
    else if b == DEL || b == BS then s.(at := Backspace(s.at), dirty := s.dirty || s.at.cx > 0 || s.at.cy > 0)
    else s.(at := InsertRune(s.at, b), dirty := true)
  }

  function Dispatch(s: State, b: Byte): (r: State)
    requires Safe(s)
    ensures Safe(r)
    ensures Stacks(s, r) && Marks(s, r)
    ensures r.undo == s.undo && s.mode != Insert ==> r.at.lines == s.at.lines
  {
    match s.mode
    case Insert => FeedInsert(s, b)
    case Command => FeedCommand(s, b)
    case Searching => FeedSearch(s, b)
    case Normal => FeedNormal(s, b)
  }

  // ----- escape sequences

  /** The Escape key on its own. */
  function HandleEsc(s: State): (r: State)
    requires Safe(s)
    ensures Safe(r) && Quiet(s, r) && r.dirty == s.dirty && r.mode == Normal && r.keys == s.keys
  {
    match s.mode
    case Insert => s.(mode := Normal, at := MoveLeft(s.at))
    case Command => s.(mode := Normal, prompt := s.prompt.(cmdline := ""))
    case Searching => s.(mode := Normal, prompt := s.prompt.(searchPat := ""))
    case Normal => s
  }

  function DecodeArrow(s: State, final: Byte): (r: State)
    ensures r == s.(at := r.at) && Moves(s.at, r.at)
  {
    match final
    case 'A' => s.(at := MoveUp(s.at))
    case 'B' => s.(at := MoveDown(s.at))
    case 'C' => s.(at := MoveRight(s.at))
    case 'D' => s.(at := MoveLeft(s.at))
    case 'H' => s.(at := Home(s.at))
    case 'F' => s.(at := End(s.at))
    case _ => s
  }

  function DecodeCsi(s: State, params: string, final: Byte): (r: State)
    ensures Edits(s, r)
    ensures !(params == "3" && final == '~') ==> r.at.lines == s.at.lines
  {
    if final == '~' then
      if params == "1" || params == "7" then s.(at := Home(s.at))
      else if params == "4" || params == "8" then s.(at := End(s.at))
      else if params == "3" then Once(s, EraseRune)
      else s
    else DecodeArrow(s, final)
  }

  // ----- one byte, and a stream of them

  /** The state once an Escape key that is still undecided counts as one on its own. */
  function Settled(s: State): (r: State)
    requires Safe(s)
    ensures Safe(r) && Quiet(s, r) && r.dirty == s.dirty && (s.keys.esc.GotEsc? ==> r.mode == Normal && r.keys.esc == NoEsc)
  {
    if s.keys.esc.GotEsc? then HandleEsc(s.Escaping(NoEsc)) else s
  }

  /** The byte is a key of its own, not part of an escape sequence. */
  predicate IsKey(s: State, b: Byte) {
    (s.keys.esc.NoEsc? && b != ESC) || (s.keys.esc.GotEsc? && b != '[' && b != 'O')
  }

  /** A byte of an escape sequence. */
  function Decode(s: State, b: Byte): (r: State)
    requires Safe(s) && !IsKey(s, b)
    ensures Safe(r) && r.undo == s.undo && r.mode == s.mode && Marks(s, r)
  {
    match s.keys.esc
    case NoEsc => s.Escaping(GotEsc)
    case GotEsc => s.Escaping(if b == '[' then Csi("") else Ss3)
    case Csi(params) =>
      if '\U{40}' <= b <= '\U{7E}' then DecodeCsi(s.Escaping(NoEsc), params, b)
      else s.Escaping(Csi(params + [b]))
    case Ss3 => DecodeArrow(s.Escaping(NoEsc), b)
  }

  function Feed(s: State, b: Byte): (r: State)
    requires Safe(s)
    ensures Safe(r)
  {
    if IsKey(s, b) then Dispatch(Settled(s), b) else Decode(s, b)
  }

  function Run(s: State, bs: seq<Byte>): (r: State)
    requires Safe(s)
    ensures Safe(r)
    decreases |bs|
  {
    if bs == [] || s.quit then s else Run(Feed(s, bs[0]), bs[1..])
  }

  /** At the end of input a lone Escape counts and an unfinished sequence is dropped. */
  function Flush(s: State): (r: State)
    requires Safe(s)
    ensures Safe(r) && Quiet(s, r) && r.keys.esc == NoEsc
  {
    Settled(s).Escaping(NoEsc)
  }
}
