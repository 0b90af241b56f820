/** diff -u followed by patch, and by patch -R, on hunks (without their text). */
module DiffPatch {
  import opened Sequences
  import opened DiffScript
  import opened DiffUnified
  import PatchApply

  type Hunk = PatchApply.Hunk

  /** The body line a unified diff prints for an op. */
  function BodyLine(o: Op, a: seq<Line>, b: seq<Line>): (l: Line)
    requires o.kind != Insert ==> o.ai < |a|
    requires o.kind == Insert ==> o.bi < |b|
    ensures l != ""
  {
    match o.kind
    case Equal => " " + a[o.ai]
    case Delete => "-" + a[o.ai]
    case Insert => "+" + b[o.bi]
  }

  predicate InFiles(ops: seq<Op>, a: seq<Line>, b: seq<Line>) {
    forall k :: 0 <= k < |ops| ==>
      (ops[k].kind != Insert ==> ops[k].ai < |a|) && (ops[k].kind != Delete ==> ops[k].bi < |b|)
  }

  function BodyLines(g: seq<Op>, a: seq<Line>, b: seq<Line>): (lines: seq<Line>)
    requires InFiles(g, a, b)
    ensures |lines| == |g|
  {
    seq(|g|, k requires 0 <= k < |g| => BodyLine(g[k], a, b))
  }

  function UnifiedHunk(g: seq<Op>, a: seq<Line>, b: seq<Line>): Hunk
    requires InFiles(g, a, b)
  {
    var h := HeaderOf(g);
    PatchApply.Hunk(h.aStart, h.aLen, h.bStart, h.bLen, BodyLines(g, a, b))
  }

  function UnifiedHunks(ops: seq<Op>, ranges: seq<Range>, a: seq<Line>, b: seq<Line>): (hunks: seq<Hunk>)
    requires InFiles(ops, a, b) && Separated(ranges, |ops|)
    ensures |hunks| == |ranges|
  {
    seq(|ranges|, r requires 0 <= r < |ranges| => UnifiedHunk(ops[ranges[r].lo..ranges[r].hi], a, b))
  }

  // ----- applying

  /** The lines of a from i on are those a run of equal ops keeps. */
  lemma {:induction false} EqualRun(ops: seq<Op>, i: nat, j: nat, a: seq<Line>, b: seq<Line>, eq: (Line, Line) -> bool)
    requires From(ops, i, j) && Fits(ops, a, b, eq) && i <= |a|
    requires forall k :: 0 <= k < |ops| ==> ops[k].kind == Equal
    ensures Olds(ops) == News(ops) == |ops| && i + |ops| <= |a|
    ensures Replay(ops, a, b) == a[i..i + |ops|]
  {
    if ops != [] {
      assert ops == [ops[0]] + ops[1..];
      FitsSplit([ops[0]], ops[1..], a, b, eq);
      assert [ops[0]][0] == ops[0];
      EqualRun(ops[1..], i + 1, j + 1, a, b, eq);
    }
  }

  lemma {:induction false} BodyApplies(g: seq<Op>, i: nat, j: nat, a: seq<Line>, b: seq<Line>, eq: (Line, Line) -> bool)
    requires From(g, i, j) && Fits(g, a, b, eq) && i <= |a|
    ensures InFiles(g, a, b)
    ensures PatchApply.ApplyBody(a, i, BodyLines(g, a, b)) == PatchApply.Done(Replay(g, a, b), i + Olds(g))
    ensures PatchApply.OldCount(BodyLines(g, a, b)) == Olds(g)
    ensures PatchApply.NewCount(BodyLines(g, a, b)) == News(g)
  {
    if g != [] {
      var o := g[0];
      assert g == [o] + g[1..];
      FitsSplit([o], g[1..], a, b, eq);
      assert [o][0] == o;
      var lines := BodyLines(g, a, b);
      assert lines[0] == BodyLine(o, a, b) && lines[1..] == BodyLines(g[1..], a, b);
      BodyApplies(g[1..], o.NextA(), o.NextB(), a, b, eq);
      BodyLineParts(o, a, b);
    }
  }

  lemma BodyLineParts(o: Op, a: seq<Line>, b: seq<Line>)
    requires o.kind != Insert ==> o.ai < |a|
    requires o.kind == Insert ==> o.bi < |b|
    ensures BodyLine(o, a, b)[0] == match o.kind case Equal => ' ' case Delete => '-' case Insert => '+'
    ensures BodyLine(o, a, b)[1..] == if o.kind == Insert then b[o.bi] else a[o.ai]
  {
  }

  /** Where range r begins to be preceded by unprinted ops. */
  function GapStart(ranges: seq<Range>, r: nat): nat
    requires r <= |ranges|
  {
    if r == 0 then 0 else ranges[r - 1].hi
  }

  function GapEnd(ops: seq<Op>, ranges: seq<Range>, r: nat): nat
    requires r <= |ranges|
  {
    if r == |ranges| then |ops| else ranges[r].lo
  }

  lemma GapEqual(ops: seq<Op>, ranges: seq<Range>, r: nat)
    requires Grouping(ops, ranges) && r <= |ranges|
    ensures GapStart(ranges, r) <= GapEnd(ops, ranges, r) <= |ops|
    ensures forall k :: GapStart(ranges, r) <= k < GapEnd(ops, ranges, r) ==> ops[k].kind == Equal
  {
    if 0 < r < |ranges| {
      assert ranges[r - 1].hi < ranges[r].lo;
    }
    forall k | GapStart(ranges, r) <= k < GapEnd(ops, ranges, r) ensures ops[k].kind == Equal {
      forall s | 0 <= s < |ranges| ensures !(ranges[s].lo <= k < ranges[s].hi) {
        if s < r - 1 {
          assert ranges[s].hi < ranges[r - 1].lo;
        } else if s > r {
          assert ranges[r].hi < ranges[s].lo;
        }
      }
      OutsideEqual(ops, ranges, k);
    }
  }

  lemma SliceFrom(ops: seq<Op>, lo: nat, hi: nat, a: seq<Line>, b: seq<Line>, eq: (Line, Line) -> bool)
    requires From(ops, 0, 0) && Fits(ops, a, b, eq) && lo <= hi <= |ops|
    ensures From(ops[lo..hi], Olds(ops[..lo]), News(ops[..lo])) && Fits(ops[lo..hi], a, b, eq)
    ensures Olds(ops[..hi]) == Olds(ops[..lo]) + Olds(ops[lo..hi])
    ensures News(ops[..hi]) == News(ops[..lo]) + News(ops[lo..hi])
  {
    assert ops[..hi] + ops[hi..] == ops && ops[..lo] + ops[lo..hi] == ops[..hi];
    FromSplit(ops[..hi], ops[hi..], 0, 0);
    FromSplit(ops[..lo], ops[lo..hi], 0, 0);
    OldsSlice(ops, lo, hi);
    FitsSlice(ops, lo, hi, a, b, eq);
  }

  lemma FitsSlice(ops: seq<Op>, lo: nat, hi: nat, a: seq<Line>, b: seq<Line>, eq: (Line, Line) -> bool)
    requires Fits(ops, a, b, eq) && lo <= hi <= |ops|
    ensures Fits(ops[lo..hi], a, b, eq)
  {
  }

  lemma OldsBound(ops: seq<Op>, k: nat, a: seq<Line>, b: seq<Line>, eq: (Line, Line) -> bool)
    requires Script(ops, a, b, eq) && k <= |ops|
    ensures Olds(ops[..k]) <= |a| && News(ops[..k]) <= |b|
  {
    SliceFrom(ops, k, |ops|, a, b, eq);
    assert ops[..|ops|] == ops;
  }

  /** What the ops from x to y leave. */
  function Part(ops: seq<Op>, x: nat, y: nat, a: seq<Line>, b: seq<Line>): seq<Line>
    requires InFiles(ops, a, b) && x <= y <= |ops|
  {
    Replay(ops[x..y], a, b)
  }

  lemma PartCut(ops: seq<Op>, x: nat, y: nat, z: nat, a: seq<Line>, b: seq<Line>, eq: (Line, Line) -> bool)
    requires Fits(ops, a, b, eq) && InFiles(ops, a, b) && x <= y <= z <= |ops|
    ensures Part(ops, x, z, a, b) == Part(ops, x, y, a, b) + Part(ops, y, z, a, b)
  {
    assert ops == ops[..x] + ops[x..z] + ops[z..];
    FitsSplit(ops[..x] + ops[x..z], ops[z..], a, b, eq);
    FitsSplit(ops[..x], ops[x..z], a, b, eq);
    assert ops[x..z] == ops[x..y] + ops[y..z];
    ReplaySplit(ops[x..y], ops[y..z], a, b, eq);
  }

  /** The hunk stands for the lines of a from i to i' and those of b from j to j', and
      its body leaves out. */
  predicate Spans(h: Hunk, i: nat, j: nat, i': nat, j': nat, out: seq<Line>, a: seq<Line>) {
    && i <= |a|
    && PatchApply.Target(h.oldStart) == i && PatchApply.Target(h.newStart) == j
    && PatchApply.ApplyBody(a, i, h.lines) == PatchApply.Done(out, i')
    && i + PatchApply.OldCount(h.lines) == i' && j + PatchApply.NewCount(h.lines) == j'
  }

  /** Hunk r begins behind the ops before its range, and its body turns the lines of a it
      covers into those the ops of the range leave. */
  lemma GroupHunk(ops: seq<Op>, ranges: seq<Range>, r: nat, a: seq<Line>, b: seq<Line>, eq: (Line, Line) -> bool)
    requires Script(ops, a, b, eq) && Grouping(ops, ranges) && r < |ranges|
    requires InFiles(ops, a, b)
    ensures var h, lo, hi := UnifiedHunks(ops, ranges, a, b)[r], ranges[r].lo, ranges[r].hi;
      Spans(h, Olds(ops[..lo]), News(ops[..lo]), Olds(ops[..hi]), News(ops[..hi]), Part(ops, lo, hi, a, b), a)
  {
    var lo, hi := ranges[r].lo, ranges[r].hi;
    var g, i, j := GroupAt(ops, ranges, r, a, b, eq);
    HunkInPlace(g, i, j, a, b, eq);
    OldsSlice(ops, lo, hi);
  }

  /** The ops of a group, the lines of both files they start at, and their header. */
  lemma GroupAt(ops: seq<Op>, ranges: seq<Range>, r: nat, a: seq<Line>, b: seq<Line>, eq: (Line, Line) -> bool)
      returns (g: seq<Op>, i: nat, j: nat)
    requires Script(ops, a, b, eq) && Grouping(ops, ranges) && r < |ranges|
    ensures g == ops[ranges[r].lo..ranges[r].hi]
    ensures i == Olds(ops[..ranges[r].lo]) <= |a| && j == News(ops[..ranges[r].lo])
    ensures From(g, i, j) && Fits(g, a, b, eq)
    ensures HeaderOf(g).aStart == if Olds(g) == 0 then 0 else i + 1
    ensures HeaderOf(g).bStart == if News(g) == 0 then 0 else j + 1
    ensures Olds(g) == 0 || News(g) == 0 ==> i == j == 0
  {
    var lo, hi := ranges[r].lo, ranges[r].hi;
    g, i, j := ops[lo..hi], Olds(ops[..lo]), News(ops[..lo]);
    HeaderMatches(ops, ranges, r);
    SliceFrom(ops, lo, hi, a, b, eq);
    OldsBound(ops, lo, a, b, eq);
    assert lo == 0 ==> ops[..lo] == [];
  }

  /** A group that starts at line i of a and line j of b, where its header says so. */
  lemma HunkInPlace(g: seq<Op>, i: nat, j: nat, a: seq<Line>, b: seq<Line>, eq: (Line, Line) -> bool)
    requires From(g, i, j) && Fits(g, a, b, eq) && i <= |a|
    requires HeaderOf(g).aStart == if Olds(g) == 0 then 0 else i + 1
    requires HeaderOf(g).bStart == if News(g) == 0 then 0 else j + 1
    requires Olds(g) == 0 || News(g) == 0 ==> i == j == 0
    ensures InFiles(g, a, b)
    ensures Spans(UnifiedHunk(g, a, b), i, j, i + Olds(g), j + News(g), Replay(g, a, b), a)
  {
    BodyApplies(g, i, j, a, b, eq);
  }

  /** The ops between two groups: their lines are copied, on both sides as many. */
  lemma GapCopies(ops: seq<Op>, ranges: seq<Range>, r: nat, a: seq<Line>, b: seq<Line>, eq: (Line, Line) -> bool)
    requires Script(ops, a, b, eq) && Grouping(ops, ranges) && r <= |ranges|
    requires InFiles(ops, a, b)
    ensures var x, y := GapStart(ranges, r), GapEnd(ops, ranges, r);
      && x <= y <= |ops|
      && Olds(ops[..x]) <= Olds(ops[..y]) <= |a|
      && Olds(ops[..y]) - Olds(ops[..x]) == News(ops[..y]) - News(ops[..x])
      && Part(ops, x, y, a, b) == a[Olds(ops[..x])..Olds(ops[..y])]
  {
    var x, y := GapStart(ranges, r), GapEnd(ops, ranges, r);
    GapEqual(ops, ranges, r);
    SliceFrom(ops, x, y, a, b, eq);
    OldsBound(ops, x, a, b, eq);
    EqualRun(ops[x..y], Olds(ops[..x]), News(ops[..x]), a, b, eq);
  }

  /** The hunks from r on turn the rest of a into what the rest of the script leaves. */
  predicate GroupsApply(ops: seq<Op>, ranges: seq<Range>, r: nat, a: seq<Line>, b: seq<Line>)
    requires InFiles(ops, a, b) && Separated(ranges, |ops|) && r <= |ranges|
  {
    var x, hunks := GapStart(ranges, r), UnifiedHunks(ops, ranges, a, b)[r..];
    && x <= |ops| && Olds(ops[..x]) <= |a|
    && PatchApply.ApplyFrom(a, Olds(ops[..x]), hunks) == PatchApply.Patched(Part(ops, x, |ops|, a, b))
  }

  lemma {:induction false} ApplyGroups(ops: seq<Op>, ranges: seq<Range>, r: nat, a: seq<Line>, b: seq<Line>, eq: (Line, Line) -> bool)
    requires Script(ops, a, b, eq) && Grouping(ops, ranges) && r <= |ranges|
    requires InFiles(ops, a, b)
    ensures GroupsApply(ops, ranges, r, a, b)
    decreases |ranges| - r
  {
    if r == |ranges| {
      LastGap(ops, ranges, a, b, eq);
    } else {
      ApplyGroups(ops, ranges, r + 1, a, b, eq);
      ApplyGroup(ops, ranges, r, a, b, eq);
    }
  }

  lemma LastGap(ops: seq<Op>, ranges: seq<Range>, a: seq<Line>, b: seq<Line>, eq: (Line, Line) -> bool)
    requires Script(ops, a, b, eq) && Grouping(ops, ranges)
    requires InFiles(ops, a, b)
    ensures GroupsApply(ops, ranges, |ranges|, a, b)
  {
    GapCopies(ops, ranges, |ranges|, a, b, eq);
    assert ops[..|ops|] == ops && UnifiedHunks(ops, ranges, a, b)[|ranges|..] == [];
  }

  lemma PartsJoin(ops: seq<Op>, x: nat, y: nat, hi: nat, a: seq<Line>, b: seq<Line>, eq: (Line, Line) -> bool)
    requires Fits(ops, a, b, eq) && InFiles(ops, a, b) && x <= y <= hi <= |ops|
    ensures Part(ops, x, y, a, b) + Part(ops, y, hi, a, b) + Part(ops, hi, |ops|, a, b) == Part(ops, x, |ops|, a, b)
  {
    PartCut(ops, x, y, |ops|, a, b, eq);
    PartCut(ops, y, hi, |ops|, a, b, eq);
    Reassociate(Part(ops, x, y, a, b), Part(ops, y, hi, a, b), Part(ops, hi, |ops|, a, b));
  }

  lemma ApplyGroup(ops: seq<Op>, ranges: seq<Range>, r: nat, a: seq<Line>, b: seq<Line>, eq: (Line, Line) -> bool)
    requires Script(ops, a, b, eq) && Grouping(ops, ranges) && r < |ranges|
    requires InFiles(ops, a, b) && GroupsApply(ops, ranges, r + 1, a, b)
    ensures GroupsApply(ops, ranges, r, a, b)
  {
    var all := UnifiedHunks(ops, ranges, a, b);
    var x, y, hi := GapStart(ranges, r), ranges[r].lo, ranges[r].hi;
    GapCopies(ops, ranges, r, a, b, eq);
    GroupHunk(ops, ranges, r, a, b, eq);
    assert all[r..][0] == all[r] && all[r..][1..] == all[r + 1..];
    PatchApply.ApplyStep(a, Olds(ops[..x]), all[r..], Part(ops, y, hi, a, b), Olds(ops[..hi]), Part(ops, hi, |ops|, a, b));
    PartsJoin(ops, x, y, hi, a, b, eq);
  }

  /** The hunks from r on have consistent positions in both files. */
  predicate GroupsFit(ops: seq<Op>, ranges: seq<Range>, r: nat, a: seq<Line>, b: seq<Line>)
    requires InFiles(ops, a, b) && Separated(ranges, |ops|) && r <= |ranges|
  {
    var x := GapStart(ranges, r);
    x <= |ops| && PatchApply.Consistent(UnifiedHunks(ops, ranges, a, b)[r..], Olds(ops[..x]), News(ops[..x]))
  }

  lemma {:induction false} GroupsConsistent(ops: seq<Op>, ranges: seq<Range>, r: nat, a: seq<Line>, b: seq<Line>, eq: (Line, Line) -> bool)
    requires Script(ops, a, b, eq) && Grouping(ops, ranges) && r <= |ranges|
    requires InFiles(ops, a, b)
    ensures GroupsFit(ops, ranges, r, a, b)
    decreases |ranges| - r
  {
    if r == |ranges| {
      assert UnifiedHunks(ops, ranges, a, b)[r..] == [];
    } else {
      GroupsConsistent(ops, ranges, r + 1, a, b, eq);
      GroupFits(ops, ranges, r, a, b, eq);
    }
  }

  lemma GroupFits(ops: seq<Op>, ranges: seq<Range>, r: nat, a: seq<Line>, b: seq<Line>, eq: (Line, Line) -> bool)
    requires Script(ops, a, b, eq) && Grouping(ops, ranges) && r < |ranges|
    requires InFiles(ops, a, b) && GroupsFit(ops, ranges, r + 1, a, b)
    ensures GroupsFit(ops, ranges, r, a, b)
  {
    var all := UnifiedHunks(ops, ranges, a, b);
    GapCopies(ops, ranges, r, a, b, eq);
    GroupHunk(ops, ranges, r, a, b, eq);
    assert all[r..][0] == all[r] && all[r..][1..] == all[r + 1..];
    var x, hi := GapStart(ranges, r), ranges[r].hi;
    PatchApply.ConsistentCons(all[r..], Olds(ops[..x]), News(ops[..x]), Olds(ops[..hi]), News(ops[..hi]));
  }

  /** The hunks diff -u shows for an edit script, applied to a, leave what the script
      leaves: b itself when lines are compared exactly, and b up to the comparison, line
      by line, when they are not. */
  lemma DiffThenPatch(ops: seq<Op>, ranges: seq<Range>, a: seq<Line>, b: seq<Line>, eq: (Line, Line) -> bool)
    requires Script(ops, a, b, eq) && Grouping(ops, ranges)
    ensures InFiles(ops, a, b)
    ensures var r := PatchApply.Apply(a, UnifiedHunks(ops, ranges, a, b));
      && r.Patched? && |r.lines| == |b|
      && (forall k :: 0 <= k < |b| ==> r.lines[k] == b[k] || eq(r.lines[k], b[k]))
      && ((forall x, y :: eq(x, y) ==> x == y) ==> r.lines == b)
  {
    ApplyGroups(ops, ranges, 0, a, b, eq);
    assert UnifiedHunks(ops, ranges, a, b)[0..] == UnifiedHunks(ops, ranges, a, b);
    assert ops[0..|ops|] == ops && ops[..0] == [];
    ReplayReaches(ops, a, b, eq);
  }

  /** patch -R takes the result back to a. */
  lemma DiffThenPatchThenUndo(ops: seq<Op>, ranges: seq<Range>, a: seq<Line>, b: seq<Line>, eq: (Line, Line) -> bool)
    requires Script(ops, a, b, eq) && Grouping(ops, ranges)
    ensures InFiles(ops, a, b)
    ensures var hunks := UnifiedHunks(ops, ranges, a, b);
      var r := PatchApply.Apply(a, hunks);
      r.Patched? && PatchApply.Apply(r.lines, PatchApply.Reverse(hunks)) == PatchApply.Patched(a)
  {
    DiffThenPatch(ops, ranges, a, b, eq);
    var hunks := UnifiedHunks(ops, ranges, a, b);
    GroupsConsistent(ops, ranges, 0, a, b, eq);
    assert hunks[0..] == hunks && ops[..0] == [];
    PatchApply.Undo(a, PatchApply.Apply(a, hunks).lines, hunks);
  }
}
