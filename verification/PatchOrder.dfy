/** When applying a hunk list stops the program: exactly when the hunks go backwards. */
module PatchOrder {
  import opened Sequences
  import opened Text
  import opened PatchApply
  import opened UnifiedParse
  import opened DiffScript
  import opened DiffUnified
  import DiffPatch
  import DiffText
  import DiffTextRoundTrip

  /** From line pos on, each hunk begins behind the old lines of its predecessor. */
  predicate InOrder(hunks: seq<Hunk>, pos: nat) {
    hunks != [] ==>
      var t := Target(hunks[0].oldStart);
      pos <= t && InOrder(hunks[1..], t + OldCount(hunks[0].lines))
  }

  predicate AllLinesTagged(lines: seq<Line>) {
    forall l :: l in lines ==> TaggedLine(l)
  }

  // ----- in order

  lemma {:induction false} BodyEnd(orig: seq<Line>, pos: nat, lines: seq<Line>)
    requires pos <= |orig|
    ensures var r := ApplyBody(orig, pos, lines);
      match r
      case Done(_, next) => next == pos + OldCount(lines)
      case Bad(e) => e != Overlap && (AllLinesTagged(lines) ==> e != EmptyLine)
    decreases |lines|
  {
    if lines != [] {
      assert lines[0] in lines && forall l :: l in lines[1..] ==> l in lines;
      BodyEnd(orig, pos, lines[1..]);
      if pos < |orig| {
        BodyEnd(orig, pos + 1, lines[1..]);
      }
    }
  }

  lemma {:induction false} NoOverlap(orig: seq<Line>, pos: nat, hunks: seq<Hunk>)
    requires pos <= |orig| && InOrder(hunks, pos)
    ensures ApplyFrom(orig, pos, hunks) != Failed(Overlap)
    decreases |hunks|
  {
    if hunks != [] {
      var t := Target(hunks[0].oldStart);
      if t <= |orig| {
        BodyEnd(orig, t, hunks[0].lines);
        var r := ApplyBody(orig, t, hunks[0].lines);
        if r.Done? {
          NoOverlap(orig, r.pos, hunks[1..]);
        }
      }
    }
  }

  lemma {:induction false} NoEmptyLine(orig: seq<Line>, pos: nat, hunks: seq<Hunk>)
    requires pos <= |orig| && forall h :: h in hunks ==> Tagged(h)
    ensures ApplyFrom(orig, pos, hunks) != Failed(EmptyLine)
    decreases |hunks|
  {
    if hunks != [] {
      assert hunks[0] in hunks && forall h :: h in hunks[1..] ==> h in hunks;
      var t := Target(hunks[0].oldStart);
      if t <= |orig| {
        BodyEnd(orig, t, hunks[0].lines);
        var r := ApplyBody(orig, t, hunks[0].lines);
        if r.Done? {
          NoEmptyLine(orig, r.pos, hunks[1..]);
        }
      }
    }
  }

  // ----- going backwards

  /** The lines of the file that a body names. */
  function OldLines(lines: seq<Line>): (old': seq<Line>)
    ensures |old'| == OldCount(lines)
  {
    if lines == [] then []
    else if lines[0] != "" && (lines[0][0] == ' ' || lines[0][0] == '-') then [lines[0][1..]] + OldLines(lines[1..])
    else OldLines(lines[1..])
  }

  /** Empty lines up to each hunk, and the lines it names. */
  function FileFor(hunks: seq<Hunk>, pos: nat): seq<Line> {
    if hunks == [] || Target(hunks[0].oldStart) < pos then []
    else
      var t, old' := Target(hunks[0].oldStart), OldLines(hunks[0].lines);
      seq(t - pos, _ => "") + old' + FileFor(hunks[1..], t + |old'|)
  }

  lemma {:induction false} BodyFits(before: seq<Line>, lines: seq<Line>, after: seq<Line>)
    requires AllLinesTagged(lines)
    ensures var r := ApplyBody(before + OldLines(lines) + after, |before|, lines);
      r.Done? && r.pos == |before| + OldCount(lines)
    decreases |lines|
  {
    if lines != [] {
      assert lines[0] in lines && forall l :: l in lines[1..] ==> l in lines;
      var orig := before + OldLines(lines) + after;
      if lines[0][0] == '+' {
        BodyFits(before, lines[1..], after);
      } else {
        var text := lines[0][1..];
        assert orig == before + [text] + OldLines(lines[1..]) + after;
        assert orig[|before|] == text;
        BodyFits(before + [text], lines[1..], after);
      }
    }
  }

  lemma {:induction false} Backwards(before: seq<Line>, hunks: seq<Hunk>)
    requires (forall h :: h in hunks ==> Tagged(h)) && !InOrder(hunks, |before|)
    ensures ApplyFrom(before + FileFor(hunks, |before|), |before|, hunks) == Failed(Overlap)
    decreases |hunks|
  {
    var t := Target(hunks[0].oldStart);
    assert hunks[0] in hunks && forall h :: h in hunks[1..] ==> h in hunks;
    if |before| <= t {
      var old', more := OldLines(hunks[0].lines), FileFor(hunks[1..], t + OldCount(hunks[0].lines));
      var gap := seq(t - |before|, _ => "");
      var orig := before + FileFor(hunks, |before|);
      Regroup(before, gap, old', more);
      BodyFits(before + gap, hunks[0].lines, more);
      Backwards(before + gap + old', hunks[1..]);
    }
  }

  /** Hunks whose lines are tagged stop the program on some file if and only if they are
      not in order; a line without a tag never stops it. */
  lemma StopsIffBackwards(hunks: seq<Hunk>)
    requires forall h :: h in hunks ==> Tagged(h)
    ensures (exists orig :: Apply(orig, hunks) == Failed(Overlap)) <==> !InOrder(hunks, 0)
    ensures forall orig :: Apply(orig, hunks) != Failed(EmptyLine)
  {
    if InOrder(hunks, 0) {
      forall orig ensures Apply(orig, hunks) != Failed(Overlap) {
        NoOverlap(orig, 0, hunks);
      }
    } else {
      Backwards([], hunks);
      assert Apply([] + FileFor(hunks, 0), hunks) == Failed(Overlap);
    }
    forall orig ensures Apply(orig, hunks) != Failed(EmptyLine) {
      NoEmptyLine(orig, 0, hunks);
    }
  }

  lemma ReverseTagged(hunks: seq<Hunk>)
    requires forall h :: h in hunks ==> Tagged(h)
    ensures forall h :: h in Reverse(hunks) ==> Tagged(h)
  {
    forall h | h in Reverse(hunks) ensures Tagged(h) {
      var k :| 0 <= k < |hunks| && Reverse(hunks)[k] == h;
      assert hunks[k] in hunks;
      forall l | l in h.lines ensures TaggedLine(l) {
        var i :| 0 <= i < |h.lines| && h.lines[i] == l;
        assert hunks[k].lines[i] in hunks[k].lines;
      }
    }
  }

  /** Whatever the text, what is read from it stops the program, applied as it is or
      reversed, on some file if and only if its hunks are not in order. */
  lemma ParsedStopsIffBackwards(text: string, fp: FilePatch)
    requires Parse(text).Ok? && fp in Parse(text).value
    ensures (exists orig :: Apply(orig, fp.hunks) == Failed(Overlap)) <==> !InOrder(fp.hunks, 0)
    ensures (exists orig :: Apply(orig, Reverse(fp.hunks)) == Failed(Overlap)) <==> !InOrder(Reverse(fp.hunks), 0)
    ensures forall orig :: Apply(orig, fp.hunks) != Failed(EmptyLine) && Apply(orig, Reverse(fp.hunks)) != Failed(EmptyLine)
  {
    ParsedTagged(Split(text), 0, []);
    ReverseTagged(fp.hunks);
    StopsIffBackwards(fp.hunks);
    StopsIffBackwards(Reverse(fp.hunks));
  }

  /** Hunks with consistent positions are in order, so those of diff -u stop on no file. */
  lemma {:induction false} ConsistentInOrder(hunks: seq<Hunk>, p: nat, q: nat)
    requires Consistent(hunks, p, q)
    ensures InOrder(hunks, p)
  {
    if hunks != [] {
      var h := hunks[0];
      ConsistentInOrder(hunks[1..], Target(h.oldStart) + OldCount(h.lines), Target(h.newStart) + NewCount(h.lines));
    }
  }

  lemma DiffInOrder(ops: seq<Op>, ranges: seq<Range>, a: seq<Line>, b: seq<Line>, eq: (Line, Line) -> bool)
    requires Script(ops, a, b, eq) && Grouping(ops, ranges)
    ensures DiffPatch.InFiles(ops, a, b) && InOrder(DiffPatch.UnifiedHunks(ops, ranges, a, b), 0)
  {
    DiffPatch.DiffThenPatch(ops, ranges, a, b, eq);
    DiffPatch.GroupsConsistent(ops, ranges, 0, a, b, eq);
    var hunks := DiffPatch.UnifiedHunks(ops, ranges, a, b);
    assert hunks[0..] == hunks && ops[..0] == [];
    ConsistentInOrder(hunks, 0, 0);
  }

  const BACKWARDS: seq<Hunk> := [Hunk(2, 1, 2, 1, [" b"]), Hunk(1, 1, 1, 1, [" a"])]

  /** A text that is read as two hunks, the second before the first, and a file it stops on. */
  lemma BackwardsText() returns (text: string)
    ensures Parse(text) == Ok([FilePatch("a", "a", BACKWARDS)])
    ensures Apply(["a", "b"], BACKWARDS) == Failed(Overlap)
  {
    assert DiffText.AllPrintable(BACKWARDS);
    text := DiffText.UnifiedText("a", "a", BACKWARDS);
    assert TrimSpace("a") == "a";
    DiffTextRoundTrip.ParsePrinted("a", "a", BACKWARDS);
    assert ApplyBody(["a", "b"], 1, [" b"]) == Done(["b"], 2);
  }
}
