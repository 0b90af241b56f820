/** Where w, b and e go: to the nearest start or end of a word in their direction. */
module ViWords {
  import opened ViBuffer

  /** A byte that is not white space, at the front of the line or behind white space. */
  predicate Starts(line: string, k: int) {
    0 <= k < |line| && !IsWordSpace(line[k]) && (k == 0 || IsWordSpace(line[k - 1]))
  }

  /** A byte that is not white space, at the end of the line or before white space. */
  predicate Ends(line: string, k: int) {
    0 <= k < |line| && !IsWordSpace(line[k]) && (k == |line| - 1 || IsWordSpace(line[k + 1]))
  }

  predicate FirstStart(line: string, from: nat, k: nat) {
    from <= k && Starts(line, k) && forall j :: from <= j < k ==> !Starts(line, j)
  }

  predicate LastStart(line: string, before: nat, k: nat) {
    k < before && Starts(line, k) && forall j :: k < j < before ==> !Starts(line, j)
  }

  predicate FirstEnd(line: string, from: nat, k: nat) {
    from <= k && Ends(line, k) && forall j :: from <= j < k ==> !Ends(line, j)
  }

  predicate NoStart(line: string, from: nat, before: nat) {
    forall j :: from <= j < before ==> !Starts(line, j)
  }

  predicate NoEnd(line: string, from: nat) {
    forall j :: from <= j < |line| ==> !Ends(line, j)
  }

  // ----- the loops

  lemma {:induction false} SkippedWord(line: string, i: nat)
    requires i <= |line|
    ensures var j := SkipWord(line, i);
      (forall k :: i <= k < j ==> !IsWordSpace(line[k])) && (j < |line| ==> IsWordSpace(line[j]))
    decreases |line| - i
  {
    if i < |line| && !IsWordSpace(line[i]) {
      SkippedWord(line, i + 1);
    }
  }

  lemma {:induction false} SkippedSpace(line: string, i: nat)
    requires i <= |line|
    ensures var j := SkipSpace(line, i);
      (forall k :: i <= k < j ==> IsWordSpace(line[k])) && (j < |line| ==> !IsWordSpace(line[j]))
    decreases |line| - i
  {
    if i < |line| && IsWordSpace(line[i]) {
      SkippedSpace(line, i + 1);
    }
  }

  lemma {:induction false} SkippedToEnd(line: string, i: nat)
    requires i < |line| && !IsWordSpace(line[i])
    ensures var j := SkipToEnd(line, i);
      (forall k :: i <= k <= j ==> !IsWordSpace(line[k])) && (j < |line| - 1 ==> IsWordSpace(line[j + 1]))
    decreases |line| - i
  {
    if i < |line| - 1 && !IsWordSpace(line[i + 1]) {
      SkippedToEnd(line, i + 1);
    }
  }

  lemma {:induction false} SkippedSpaceBack(line: string, i: nat)
    requires i < |line|
    ensures var j := SkipSpaceBack(line, i);
      (forall k :: j < k <= i ==> IsWordSpace(line[k])) && (j > 0 ==> !IsWordSpace(line[j]))
    decreases i
  {
    if i > 0 && IsWordSpace(line[i]) {
      SkippedSpaceBack(line, i - 1);
    }
  }

  lemma {:induction false} SkippedWordBack(line: string, i: nat)
    requires i <= |line|
    ensures var j := SkipWordBack(line, i);
      (forall k :: j <= k < i ==> !IsWordSpace(line[k])) && (j > 0 ==> IsWordSpace(line[j - 1]))
    decreases i
  {
    if i > 0 && !IsWordSpace(line[i - 1]) {
      SkippedWordBack(line, i - 1);
    }
  }

  // ----- in one line

  lemma StartAhead(line: string, from: nat)
    requires from <= |line| && (from == 0 || from == |line| || IsWordSpace(line[from]) || IsWordSpace(line[from - 1]))
    ensures var i := SkipSpace(line, from);
      if i < |line| then FirstStart(line, from, i) else NoStart(line, from, |line|)
  {
    SkippedSpace(line, from);
  }

  lemma NextStart(line: string, cx: nat)
    requires cx <= |line|
    ensures var i := SkipSpace(line, SkipWord(line, cx));
      if i < |line| then FirstStart(line, cx + 1, i) else NoStart(line, cx + 1, |line|)
  {
    SkippedWord(line, cx);
    StartAhead(line, SkipWord(line, cx));
  }

  lemma StartBehind(line: string, before: nat)
    requires 0 < before <= |line|
    ensures var j := SkipWordBack(line, SkipSpaceBack(line, before - 1));
      LastStart(line, before, j) || (j == 0 && NoStart(line, 0, before))
  {
    var i := SkipSpaceBack(line, before - 1);
    SkippedSpaceBack(line, before - 1);
    SkippedWordBack(line, i);
  }

  lemma EndAhead(line: string, from: nat)
    requires from <= |line|
    ensures var i := SkipToEnd(line, SkipSpace(line, from));
      if i < |line| then FirstEnd(line, from, i) else NoEnd(line, from)
  {
    var i := SkipSpace(line, from);
    SkippedSpace(line, from);
    if i < |line| {
      SkippedToEnd(line, i);
    }
  }

  // ----- the motions

  /** w goes to the next start of a word in the line, else to the first in the line below,
      or to that line's end if it has none, and in the last line to the end. */
  lemma WordForward(t: Buffer)
    ensures var r, line := MoveWordForward(t), Line(t);
      if !NoStart(line, t.cx + 1, |line|) then r.cy == t.cy && FirstStart(line, t.cx + 1, r.cx)
      else if t.cy == |t.lines| - 1 then r == t.(cx := LastCol(line))
      else
        var below := t.lines[t.cy + 1];
        r.cy == t.cy + 1
        && if NoStart(below, 0, |below|) then r.cx == LastCol(below) else FirstStart(below, 0, r.cx)
  {
    NextStart(Line(t), t.cx);
    if t.cy < |t.lines| - 1 {
      StartAhead(t.lines[t.cy + 1], 0);
    }
  }

  /** b goes to the last start of a word before the cursor, from column 0 in the line
      above, and to column 0 if there is none. */
  lemma WordBackward(t: Buffer)
    ensures var r := MoveWordBackward(t);
      var row := if t.cx == 0 && t.cy > 0 then t.cy - 1 else t.cy;
      var before := if row < t.cy then |t.lines[row]| else t.cx;
      r.cy == row
      && if NoStart(t.lines[row], 0, before) then r.cx == 0 else LastStart(t.lines[row], before, r.cx)
  {
    if t.cx > 0 {
      StartBehind(Line(t), t.cx);
    } else if t.cy > 0 && |t.lines[t.cy - 1]| > 0 {
      StartBehind(t.lines[t.cy - 1], |t.lines[t.cy - 1]|);
    }
  }

  /** e goes to the next end of a word in the line, else to the first in the line below, or
      to that line's end if it has none, and stays in the last line. */
  lemma WordEnd(t: Buffer)
    ensures var r, line := MoveWordEnd(t), Line(t);
      if !NoEnd(line, t.cx + 1) then r.cy == t.cy && FirstEnd(line, t.cx + 1, r.cx)
      else if t.cy == |t.lines| - 1 then r == t
      else
        var below := t.lines[t.cy + 1];
        r.cy == t.cy + 1 && if NoEnd(below, 0) then r.cx == LastCol(below) else FirstEnd(below, 0, r.cx)
  {
    if t.cx < |Line(t)| {
      EndAhead(Line(t), t.cx + 1);
    }
    if t.cy < |t.lines| - 1 {
      EndAhead(t.lines[t.cy + 1], 0);
    }
  }
}
