/** The lines being edited with the cursor among them: motions, search and edits. A line
    is a sequence of bytes. */
module ViBuffer {
  import opened Text

  predicate NoBreaks(lines: seq<string>) {
    forall l :: l in lines ==> '\n' !in l
  }

  /** There is always a line, and a line holds no line break. */
  type Lines = ls: seq<string> | |ls| > 0 && NoBreaks(ls) witness [""]

  datatype Snapshot = Snapshot(lines: Lines, cx: nat, cy: nat)

  predicate InBuffer(s: Snapshot) {
    s.cy < |s.lines| && s.cx <= |s.lines[s.cy]|
  }

  type Buffer = s: Snapshot | InBuffer(s) witness Snapshot([""], 0, 0)

  function Line(t: Buffer): (l: string)
    ensures '\n' !in l
  {
    assert t.lines[t.cy] in t.lines;
    t.lines[t.cy]
  }

  /** The rightmost column the cursor may rest on outside insert mode. */
  function LastCol(line: string): nat {
    if |line| == 0 then 0 else |line| - 1
  }

  predicate Resting(t: Buffer) {
    t.cx <= LastCol(Line(t))
  }

  /** A buffer as it is saved for undo. */
  type Saved = t: Buffer | Resting(t) witness Snapshot([""], 0, 0)

  /** A motion leaves the text alone and never carries a resting cursor off its line. */
  predicate Moves(t: Buffer, r: Buffer) {
    r.lines == t.lines && (Resting(t) ==> Resting(r))
  }

  // ----- lines

  function SetLine(ls: Lines, k: nat, l: string): (r: Lines)
    requires k < |ls| && '\n' !in l
  {
    ls[k := l]
  }

  function InsertLines(ls: Lines, i: nat, vs: seq<string>): (r: Lines)
    requires i <= |ls| && NoBreaks(vs)
    ensures |r| == |ls| + |vs|
  {
    ls[..i] + vs + ls[i..]
  }

  function RemoveLine(ls: Lines, k: nat): (r: Lines)
    requires k < |ls| && |ls| > 1
    ensures |r| == |ls| - 1
  {
    ls[..k] + ls[k + 1..]
  }

  // ----- motions

  function ClampX(s: Snapshot): (r: Buffer)
    requires s.cy < |s.lines|
    ensures r.lines == s.lines && r.cy == s.cy && Resting(r)
    ensures s.cx <= LastCol(s.lines[s.cy]) ==> r == s
  {
    var m := LastCol(s.lines[s.cy]);
    if s.cx > m then s.(cx := m) else s
  }

  function MoveLeft(t: Buffer): (r: Buffer)
    ensures Moves(t, r)
  {
    if t.cx > 0 then t.(cx := t.cx - 1) else t
  }

  function MoveRight(t: Buffer): (r: Buffer)
    ensures Moves(t, r)
  {
    if t.cx < LastCol(Line(t)) then t.(cx := t.cx + 1) else t
  }

  function MoveDown(t: Buffer): (r: Buffer)
    ensures Moves(t, r)
  {
    if t.cy < |t.lines| - 1 then ClampX(t.(cy := t.cy + 1)) else t
  }

  function MoveUp(t: Buffer): (r: Buffer)
    ensures Moves(t, r)
  {
    if t.cy > 0 then ClampX(t.(cy := t.cy - 1)) else t
  }

  function Home(t: Buffer): (r: Buffer)
    ensures Moves(t, r)
  {
    t.(cx := 0)
  }

  function End(t: Buffer): (r: Buffer)
    ensures Moves(t, r)
  {
    t.(cx := LastCol(Line(t)))
  }

  function Top(t: Buffer): (r: Buffer)
    ensures Moves(t, r)
  {
    t.(cx := 0, cy := 0)
  }

  /** Line n, counted from 1, or the last line if there are fewer. */
  function GoTo(t: Buffer, n: nat): (r: Buffer)
    requires n > 0
    ensures Moves(t, r)
  {
    ClampX(t.(cy := if n > |t.lines| then |t.lines| - 1 else n - 1))
  }

  predicate IsWordSpace(c: char) {
    c == ' ' || c == '\t'
  }

  /** Past the word bytes from i on. */
  function SkipWord(line: string, i: nat): (j: nat)
    ensures i <= j && (i <= |line| ==> j <= |line|)
    decreases |line| - i
  {
    if i < |line| && !IsWordSpace(line[i]) then SkipWord(line, i + 1) else i
  }

  /** Past the white space from i on. */
  function SkipSpace(line: string, i: nat): (j: nat)
    ensures i <= j && (i <= |line| ==> j <= |line|)
    decreases |line| - i
  {
    if i < |line| && IsWordSpace(line[i]) then SkipSpace(line, i + 1) else i
  }

  /** To the last byte of the word at i. */
  function SkipToEnd(line: string, i: nat): (j: nat)
    ensures i <= j && (i < |line| ==> j < |line|)
    ensures i >= |line| ==> j == i
    decreases |line| - i
  {
    if i < |line| - 1 && !IsWordSpace(line[i + 1]) then SkipToEnd(line, i + 1) else i
  }

  function SkipSpaceBack(line: string, i: int): (j: int)
    requires i < |line|
    ensures j <= i && (i >= 0 ==> j >= 0) && (i < 0 ==> j == i)
  {
    if i > 0 && IsWordSpace(line[i]) then SkipSpaceBack(line, i - 1) else i
  }

  function SkipWordBack(line: string, i: int): (j: int)
    requires i <= |line|
    ensures j <= i && (i >= 0 ==> j >= 0) && (i < 0 ==> j == i)
  {
    if i > 0 && !IsWordSpace(line[i - 1]) then SkipWordBack(line, i - 1) else i
  }

  function MoveWordForward(t: Buffer): (r: Buffer)
    ensures Moves(t, r)
  {
    var line := Line(t);
    var i := SkipSpace(line, SkipWord(line, t.cx));
    if i < |line| then t.(cx := i)
    else if t.cy < |t.lines| - 1 then ClampX(t.(cx := SkipSpace(t.lines[t.cy + 1], 0), cy := t.cy + 1))
    else t.(cx := LastCol(line))
  }

  /** The start of the word that ends before column i of row y. */
  function WordStart(t: Buffer, y: nat, i: nat): (r: Buffer)
    requires y < |t.lines| && i <= |t.lines[y]|
    ensures Moves(t, r)
  {
    var line := t.lines[y];
    var j := SkipWordBack(line, SkipSpaceBack(line, i - 1));
    t.(cx := if j < 0 then 0 else j, cy := y)
  }

  function MoveWordBackward(t: Buffer): (r: Buffer)
    ensures Moves(t, r)
  {
    if t.cx > 0 then WordStart(t, t.cy, t.cx)
    else if t.cy == 0 then t
    else WordStart(t, t.cy - 1, |t.lines[t.cy - 1]|)
  }

  function MoveWordEnd(t: Buffer): (r: Buffer)
    ensures Moves(t, r)
  {
    var line := Line(t);
    var i := SkipToEnd(line, SkipSpace(line, t.cx + 1));
    if i < |line| then ClampX(t.(cx := i))
    else if t.cy < |t.lines| - 1 then
      var l := t.lines[t.cy + 1];
      ClampX(t.(cx := SkipToEnd(l, SkipSpace(l, 0)), cy := t.cy + 1))
    else t
  }

  // ----- search

  predicate Matches(line: string, k: nat, pat: string) {
    k + |pat| <= |line| && line[k..k + |pat|] == pat
  }

  /** strings.Index of pat in the line from a column on. */
  function Find(line: string, from: nat, pat: string): (k: Option<nat>)
    ensures k.Some? ==> from <= k.value && Matches(line, k.value, pat)
    ensures k.Some? ==> forall i :: from <= i < k.value ==> !Matches(line, i, pat)
    ensures k.None? ==> forall i :: from <= i ==> !Matches(line, i, pat)
    decreases |line| - from
  {
    if from + |pat| > |line| then None
    else if Matches(line, from, pat) then Some(from)
    else Find(line, from + 1, pat)
  }

  /** strings.LastIndex of pat in the part of the line before a column. */
  function FindLast(line: string, limit: nat, pat: string): (k: Option<nat>)
    requires limit <= |line|
    ensures k.Some? ==> k.value + |pat| <= limit && Matches(line, k.value, pat)
    ensures k.Some? ==> forall i :: k.value < i <= limit - |pat| ==> !Matches(line, i, pat)
    ensures k.None? ==> forall i :: 0 <= i <= limit - |pat| ==> !Matches(line, i, pat)
  {
    if |pat| > limit then None
    else if Matches(line, limit - |pat|, pat) then Some(limit - |pat|)
    else if limit == 0 then None
    else FindLast(line, limit - 1, pat)
  }

  function Ahead(t: Buffer, off: nat): (row: nat)
    ensures row < |t.lines|
  {
    (t.cy + off) % |t.lines|
  }

  function Behind(t: Buffer, off: nat): (row: nat)
    ensures row < |t.lines|
  {
    ((t.cy - off) % |t.lines| + |t.lines|) % |t.lines|
  }

  /** The match in a row that searching forward finds; in the cursor's own row it has to
      start behind the cursor. */
  function MatchAhead(t: Buffer, off: nat, pat: string): Option<nat> {
    Find(t.lines[Ahead(t, off)], if off == 0 then t.cx + 1 else 0, pat)
  }

  /** In the cursor's own row the match has to end before the cursor. */
  function MatchBehind(t: Buffer, off: nat, pat: string): Option<nat> {
    var line := t.lines[Behind(t, off)];
    FindLast(line, if off == 0 && t.cx <= |line| then t.cx else |line|, pat)
  }

  function SearchAhead(t: Buffer, off: nat, pat: string): (r: Buffer)
    requires pat != ""
    ensures Moves(t, r)
    decreases |t.lines| - off
  {
    if off >= |t.lines| then t
    else
      match MatchAhead(t, off, pat)
      case Some(k) => t.(cx := k, cy := Ahead(t, off))
      case None => SearchAhead(t, off + 1, pat)
  }

  function SearchBehind(t: Buffer, off: nat, pat: string): (r: Buffer)
    requires pat != ""
    ensures Moves(t, r)
    decreases |t.lines| - off
  {
    if off >= |t.lines| then t
    else
      match MatchBehind(t, off, pat)
      case Some(k) => t.(cx := k, cy := Behind(t, off))
      case None => SearchBehind(t, off + 1, pat)
  }

  function Search(t: Buffer, pat: string, forward: bool): (r: Buffer)
    ensures Moves(t, r)
  {
    if pat == "" then t else if forward then SearchAhead(t, 0, pat) else SearchBehind(t, 0, pat)
  }

  // ----- edits

  /** The bytes string(b) has for a byte b: two for the code points from 0x80 on. */
  function Utf8(b: char): (s: string)
    requires b < '\U{100}'
    ensures 1 <= |s| <= 2 && (|s| == 1 <==> b < '\U{80}') && (b < '\U{80}' ==> s == [b])
    ensures b != '\n' ==> '\n' !in s
  {
    if b < '\U{80}' then [b] else [(0xC0 + b as int / 64) as char, (0x80 + b as int % 64) as char]
  }

  function DeleteRune(t: Buffer): (r: Buffer)
    ensures Resting(t) ==> Resting(r)
  {
    var line := Line(t);
    if t.cx < |line| then ClampX(t.(lines := SetLine(t.lines, t.cy, line[..t.cx] + line[t.cx + 1..]))) else t
  }

  function DeleteLine(t: Buffer): (r: Buffer)
    ensures Resting(r)
  {
    if |t.lines| == 1 then Snapshot([""], 0, t.cy)
    else
      var lines := RemoveLine(t.lines, t.cy);
      Snapshot(lines, 0, if t.cy >= |lines| then |lines| - 1 else t.cy)
  }

  function OpenBelow(t: Buffer): (r: Buffer) {
    Snapshot(InsertLines(t.lines, t.cy + 1, [""]), 0, t.cy + 1)
  }

  function OpenAbove(t: Buffer): (r: Buffer) {
    Snapshot(InsertLines(t.lines, t.cy, [""]), 0, t.cy)
  }

  function InsertRune(t: Buffer, b: char): (r: Buffer)
    requires b != '\n' && b < '\U{100}'
  {
    var line := Line(t);
    Snapshot(SetLine(t.lines, t.cy, line[..t.cx] + Utf8(b) + line[t.cx..]), t.cx + 1, t.cy)
  }

  function SplitLine(t: Buffer): (r: Buffer) {
    var line := Line(t);
    Snapshot(InsertLines(SetLine(t.lines, t.cy, line[..t.cx]), t.cy + 1, [line[t.cx..]]), 0, t.cy + 1)
  }

  function Backspace(t: Buffer): (r: Buffer) {
    if t.cx > 0 then
      var line := Line(t);
      Snapshot(SetLine(t.lines, t.cy, line[..t.cx - 1] + line[t.cx..]), t.cx - 1, t.cy)
    else if t.cy > 0 then
      var prev := t.lines[t.cy - 1];
      Snapshot(RemoveLine(SetLine(t.lines, t.cy - 1, prev + Line(t)), t.cy), |prev|, t.cy - 1)
    else t
  }

  // ----- yank and paste

  /** The text of n lines from the cursor on, as many as there are. */
  function Yanked(t: Buffer, n: nat): string {
    Unlines(t.lines[t.cy..if t.cy + n > |t.lines| then |t.lines| else t.cy + n])
  }

  function TrimNewline(s: string): string {
    if s != "" && s[|s| - 1] == '\n' then s[..|s| - 1] else s
  }

  /** The lines a text stands for, its last newline left aside. */
  function LinesOf(s: string): (ls: Lines) {
    SplitNoBreaks(TrimNewline(s));
    Split(TrimNewline(s))
  }

  lemma {:induction false} SplitNoBreaks(s: string)
    ensures NoBreaks(Split(s))
  {
    if s != "" {
      SplitNoBreaks(s[1..]);
    }
  }

  function PasteBelow(t: Buffer, reg: string): (r: Buffer)
    ensures Resting(r)
  {
    Snapshot(InsertLines(t.lines, t.cy + 1, LinesOf(reg)), 0, t.cy + 1)
  }

  function PasteAbove(t: Buffer, reg: string): (r: Buffer)
    ensures Resting(r)
  {
    Snapshot(InsertLines(t.lines, t.cy, LinesOf(reg)), 0, t.cy)
  }
}
