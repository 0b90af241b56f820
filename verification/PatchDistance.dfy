/** How far hunks can take a file: no further than they have lines to add and remove. */
module PatchDistance {
  import opened Sequences
  import opened DiffScript
  import opened DiffLcs
  import opened PatchApply

  type Line = DiffScript.Line

  /** The deletes and inserts that diffLines finds between two lists of lines. */
  function Distance(x: seq<Line>, y: seq<Line>): int {
    |x| + |y| - 2 * Lcs(x, y, Same(), 0, 0)
  }

  lemma DistanceIs(x: seq<Line>, y: seq<Line>)
    ensures Distance(x, y) == Changes(Walk(x, y, Same(), 0, 0))
  {
    WalkScript(x, y, Same(), 0, 0);
    ChangesAndEquals(Walk(x, y, Same(), 0, 0));
  }

  lemma {:induction false} SelfDistance(x: seq<Line>, i: nat)
    requires i <= |x|
    ensures Lcs(x, x, Same(), i, i) == |x| - i
    decreases |x| - i
  {
    if i < |x| {
      SelfDistance(x, i + 1);
    }
  }

  lemma {:induction false} LcsSymmetric(x: seq<Line>, y: seq<Line>, i: nat, j: nat)
    requires i <= |x| && j <= |y|
    ensures Lcs(x, y, Same(), i, j) == Lcs(y, x, Same(), j, i)
    decreases |x| - i + |y| - j
  {
    if i < |x| && j < |y| {
      LcsSymmetric(x, y, i + 1, j + 1);
      LcsSymmetric(x, y, i + 1, j);
      LcsSymmetric(x, y, i, j + 1);
    }
  }

  // ----- one line more or less

  lemma {:induction false} LcsBehind(x: seq<Line>, l: Line, y: seq<Line>, b: seq<Line>, i: nat, j: nat)
    requires |x| <= i <= |x| + |y| && j <= |b|
    ensures Lcs(x + [l] + y, b, Same(), i + 1, j) == Lcs(x + y, b, Same(), i, j)
    decreases |x| + |y| - i + |b| - j
  {
    if i < |x| + |y| && j < |b| {
      assert (x + [l] + y)[i + 1] == (x + y)[i];
      LcsBehind(x, l, y, b, i + 1, j + 1);
      LcsBehind(x, l, y, b, i + 1, j);
      LcsBehind(x, l, y, b, i, j + 1);
    }
  }

  lemma {:induction false} LcsOneLine(x: seq<Line>, l: Line, y: seq<Line>, b: seq<Line>, i: nat, j: nat)
    requires i <= |x| && j <= |b|
    ensures var less := Lcs(x + y, b, Same(), i, j); less <= Lcs(x + [l] + y, b, Same(), i, j) <= less + 1
    decreases |x| - i + |b| - j
  {
    if i == |x| {
      LcsBehind(x, l, y, b, i, j);
      LcsSteps(x + [l] + y, b, Same(), i, j);
    } else if j < |b| {
      assert (x + [l] + y)[i] == (x + y)[i];
      LcsOneLine(x, l, y, b, i + 1, j + 1);
      LcsOneLine(x, l, y, b, i + 1, j);
      LcsOneLine(x, l, y, b, i, j + 1);
    }
  }

  /** Adding or removing one line changes the distance by at most one. */
  lemma OneLine(x: seq<Line>, l: Line, y: seq<Line>, b: seq<Line>)
    ensures Distance(x + [l] + y, b) - 1 <= Distance(x + y, b) <= Distance(x + [l] + y, b) + 1
  {
    LcsOneLine(x, l, y, b, 0, 0);
  }

  // ----- hunks

  function LineEdits(l: Line): nat {
    if l != "" && (l[0] == '-' || l[0] == '+') then 1 else 0
  }

  /** The lines of a body that add or remove something. */
  function Edits(lines: seq<Line>): nat {
    if lines == [] then 0 else LineEdits(lines[0]) + Edits(lines[1..])
  }

  function HunkEdits(hunks: seq<Hunk>): nat {
    if hunks == [] then 0 else Edits(hunks[0].lines) + HunkEdits(hunks[1..])
  }

  /** What is left after out has been written and the file read up to pos. */
  function State(out: seq<Line>, orig: seq<Line>, pos: nat): seq<Line>
    requires pos <= |orig|
  {
    out + orig[pos..]
  }

  lemma StateCopies(out: seq<Line>, orig: seq<Line>, pos: nat, next: nat)
    requires pos <= next <= |orig|
    ensures State(out + orig[pos..next], orig, next) == State(out, orig, pos)
  {
    assert orig[pos..] == orig[pos..next] + orig[next..];
  }

  lemma StateLine(out: seq<Line>, orig: seq<Line>, pos: nat, b: seq<Line>)
    requires pos < |orig|
    ensures Distance(State(out, orig, pos), b) <= Distance(State(out, orig, pos + 1), b) + 1
    ensures State(out + [orig[pos]], orig, pos + 1) == State(out, orig, pos)
  {
    assert State(out, orig, pos) == out + [orig[pos]] + orig[pos + 1..];
    OneLine(out, orig[pos], orig[pos + 1..], b);
  }

  lemma {:induction false} BodyMoves(out: seq<Line>, orig: seq<Line>, pos: nat, lines: seq<Line>, b: seq<Line>)
    requires pos <= |orig| && ApplyBody(orig, pos, lines).Done?
    ensures var r := ApplyBody(orig, pos, lines);
      Distance(State(out, orig, pos), b) <= Distance(State(out + r.out, orig, r.pos), b) + Edits(lines)
    decreases |lines|
  {
    if lines == [] {
      assert out + [] == out;
    } else if lines[0][0] == ' ' {
      StateLine(out, orig, pos, b);
      BodyMoves(out + [orig[pos]], orig, pos + 1, lines[1..], b);
      Reassociate(out, [orig[pos]], ApplyBody(orig, pos + 1, lines[1..]).out);
    } else if lines[0][0] == '-' {
      StateLine(out, orig, pos, b);
      BodyMoves(out, orig, pos + 1, lines[1..], b);
    } else if lines[0][0] == '+' {
      var l := lines[0][1..];
      OneLine(out, l, orig[pos..], b);
      BodyMoves(out + [l], orig, pos, lines[1..], b);
      Reassociate(out, [l], ApplyBody(orig, pos, lines[1..]).out);
    } else {
      BodyMoves(out, orig, pos, lines[1..], b);
    }
  }

  lemma {:induction false} HunksMove(out: seq<Line>, orig: seq<Line>, pos: nat, hunks: seq<Hunk>, b: seq<Line>)
    requires pos <= |orig| && ApplyFrom(orig, pos, hunks).Patched?
    ensures Distance(State(out, orig, pos), b) <= Distance(out + ApplyFrom(orig, pos, hunks).lines, b) + HunkEdits(hunks)
    decreases |hunks|
  {
    if hunks != [] {
      var t := Target(hunks[0].oldStart);
      var r := ApplyBody(orig, t, hunks[0].lines);
      var more := ApplyFrom(orig, r.pos, hunks[1..]).lines;
      var copied := out + orig[pos..t];
      StateCopies(out, orig, pos, t);
      BodyMoves(copied, orig, t, hunks[0].lines, b);
      HunksMove(copied + r.out, orig, r.pos, hunks[1..], b);
      Regroup(out, orig[pos..t], r.out, more);
    }
  }

  /** Hunks that apply bring a file nearer to b by at most their number of edits. */
  lemma ApplyMoves(orig: seq<Line>, hunks: seq<Hunk>, b: seq<Line>)
    requires Apply(orig, hunks).Patched?
    ensures Distance(orig, b) <= Distance(Apply(orig, hunks).lines, b) + HunkEdits(hunks)
  {
    HunksMove([], orig, 0, hunks, b);
    assert State([], orig, 0) == orig;
    assert [] + Apply(orig, hunks).lines == Apply(orig, hunks).lines;
  }

  lemma {:induction false} HunkEditsAppend(hunks: seq<Hunk>, h: Hunk)
    ensures HunkEdits(hunks + [h]) == HunkEdits(hunks) + Edits(h.lines)
  {
    if hunks == [] {
      assert [] + [h] == [h] && [h][1..] == [];
    } else {
      assert (hunks + [h])[0] == hunks[0] && (hunks + [h])[1..] == hunks[1..] + [h];
      HunkEditsAppend(hunks[1..], h);
    }
  }

  lemma {:induction false} ReverseLinesEdits(lines: seq<Line>)
    ensures Edits(ReverseLines(lines)) == Edits(lines)
  {
    if lines != [] {
      assert ReverseLines(lines)[0] == ReverseLine(lines[0]) && ReverseLines(lines)[1..] == ReverseLines(lines[1..]);
      ReverseLinesEdits(lines[1..]);
    }
  }

  lemma {:induction false} ReverseEdits(hunks: seq<Hunk>)
    ensures HunkEdits(Reverse(hunks)) == HunkEdits(hunks)
  {
    if hunks != [] {
      assert Reverse(hunks)[0] == ReverseHunk(hunks[0]) && Reverse(hunks)[1..] == Reverse(hunks[1..]);
      ReverseLinesEdits(hunks[0].lines);
      ReverseEdits(hunks[1..]);
    }
  }
}
