/** writeUnified, and what parseUnified makes of its text. */
module DiffText {
  import opened Sequences
  import opened Text
  import opened DiffScript
  import opened DiffUnified
  import opened UnifiedParse
  import PatchApply
  import DiffPatch

  type Hunk = PatchApply.Hunk

  // ----- printing

  /** The "start,len" of a header, the length left out when it is 1. */
  function CountRange(start: nat, length: nat): string {
    if length == 1 then Decimal(start) else Decimal(start) + "," + Decimal(length)
  }

  function HeaderLine(aStart: nat, aLen: nat, bStart: nat, bLen: nat): string {
    "@@ -" + CountRange(aStart, aLen) + " +" + CountRange(bStart, bLen) + " @@"
  }

  /** Numbers that fit an int, and one line of text per line. */
  predicate Printable(h: Hunk) {
    && 0 <= h.oldStart <= MAX_INT && 0 <= h.oldLen <= MAX_INT
    && 0 <= h.newStart <= MAX_INT && 0 <= h.newLen <= MAX_INT
    && forall l :: l in h.lines ==> TaggedLine(l) && '\n' !in l
  }

  predicate AllPrintable(hunks: seq<Hunk>) {
    forall h :: h in hunks ==> Printable(h)
  }

  function PrintHunk(h: Hunk): seq<string>
    requires Printable(h)
  {
    [HeaderLine(h.oldStart, h.oldLen, h.newStart, h.newLen)] + h.lines
  }

  function PrintHunks(hunks: seq<Hunk>): seq<string>
    requires AllPrintable(hunks)
  {
    if hunks == [] then [] else PrintHunk(hunks[0]) + PrintHunks(hunks[1..])
  }

  function UnifiedText(name1: string, name2: string, hunks: seq<Hunk>): string
    requires AllPrintable(hunks)
  {
    if hunks == [] then "" else Unlines(["--- " + name1, "+++ " + name2] + PrintHunks(hunks))
  }

  /** Files as readLines yields them: at most MAX_INT lines, without newlines. */
  predicate IsFile(lines: seq<Line>) {
    |lines| <= MAX_INT && forall k :: 0 <= k < |lines| ==> '\n' !in lines[k]
  }

  lemma HunksPrintable(ops: seq<Op>, ranges: seq<Range>, a: seq<Line>, b: seq<Line>, eq: (Line, Line) -> bool)
    requires IsFile(a) && IsFile(b) && Script(ops, a, b, eq) && Grouping(ops, ranges)
    ensures DiffPatch.InFiles(ops, a, b) && AllPrintable(DiffPatch.UnifiedHunks(ops, ranges, a, b))
  {
    forall r | 0 <= r < |ranges| ensures Printable(DiffPatch.UnifiedHunks(ops, ranges, a, b)[r]) {
      var lo, hi := ranges[r].lo, ranges[r].hi;
      HeaderMatches(ops, ranges, r);
      DiffPatch.OldsBound(ops, hi, a, b, eq);
      var lines := DiffPatch.BodyLines(ops[lo..hi], a, b);
      forall l | l in lines ensures TaggedLine(l) && '\n' !in l {
        var k :| 0 <= k < |lines| && lines[k] == l;
        DiffPatch.BodyLineParts(ops[lo..hi][k], a, b);
      }
    }
  }

  lemma TakeSnoc(top: string, lines: seq<string>, i: nat)
    requires i < |lines|
    ensures [top] + lines[..i] + [lines[i]] == [top] + lines[..i + 1]
  {
  }

  /** The header and the body of one hunk. */
  method WriteHunk(g: seq<Op>, a: seq<Line>, b: seq<Line>) returns (out: string)
    requires DiffPatch.InFiles(g, a, b) && Printable(DiffPatch.UnifiedHunk(g, a, b))
    ensures out == Unlines(PrintHunk(DiffPatch.UnifiedHunk(g, a, b)))
  {
    var h := UnifiedRange(g);
    ghost var header := HeaderLine(h.aStart, h.aLen, h.bStart, h.bLen);
    ghost var lines := DiffPatch.BodyLines(g, a, b);
    out := HeaderLine(h.aStart, h.aLen, h.bStart, h.bLen) + "\n";
    UnlinesSnoc([], header);
    assert [] + [header] == [header] + lines[..0];
    for i := 0 to |g|
      invariant out == Unlines([header] + lines[..i])
    {
      var o := g[i];
      UnlinesSnoc([header] + lines[..i], lines[i]);
      TakeSnoc(header, lines, i);
      match o.kind
      case Equal => out := out + (" " + a[o.ai]) + "\n";
      case Delete => out := out + ("-" + a[o.ai]) + "\n";
      case Insert => out := out + ("+" + b[o.bi]) + "\n";
    }
    assert lines[..|g|] == lines;
  }

  lemma {:induction false} PrintHunksAppend(hunks: seq<Hunk>, h: Hunk)
    requires AllPrintable(hunks) && Printable(h)
    ensures PrintHunks(hunks + [h]) == PrintHunks(hunks) + PrintHunk(h)
  {
    if hunks == [] {
      assert [] + [h] == [h] && [h][1..] == [];
      assert PrintHunks([]) == [];
    } else {
      assert (hunks + [h])[0] == hunks[0] && (hunks + [h])[1..] == hunks[1..] + [h];
      PrintHunksAppend(hunks[1..], h);
      Reassociate(PrintHunk(hunks[0]), PrintHunks(hunks[1..]), PrintHunk(h));
    }
  }

  lemma PrintNext(hunks: seq<Hunk>, k: nat)
    requires AllPrintable(hunks) && k < |hunks|
    ensures Unlines(PrintHunks(hunks[..k + 1])) == Unlines(PrintHunks(hunks[..k])) + Unlines(PrintHunk(hunks[k]))
  {
    assert hunks[..k + 1] == hunks[..k] + [hunks[k]];
    PrintHunksAppend(hunks[..k], hunks[k]);
    UnlinesAppend(PrintHunks(hunks[..k]), PrintHunk(hunks[k]));
  }

  lemma GroupsAreHunks(ops: seq<Op>, ranges: seq<Range>, a: seq<Line>, b: seq<Line>)
    requires DiffPatch.InFiles(ops, a, b) && Separated(ranges, |ops|)
    ensures var groups := Groups(ops, ranges);
      forall k :: 0 <= k < |groups| ==>
        DiffPatch.InFiles(groups[k], a, b)
        && DiffPatch.UnifiedHunks(ops, ranges, a, b)[k] == DiffPatch.UnifiedHunk(groups[k], a, b)
  {
  }

  method WriteGroups(groups: seq<seq<Op>>, a: seq<Line>, b: seq<Line>, ghost hunks: seq<Hunk>) returns (out: string)
    requires |groups| == |hunks| && AllPrintable(hunks)
    requires forall k :: 0 <= k < |groups| ==> DiffPatch.InFiles(groups[k], a, b) && hunks[k] == DiffPatch.UnifiedHunk(groups[k], a, b)
    ensures out == Unlines(PrintHunks(hunks))
  {
    out := "";
    for k := 0 to |groups|
      invariant out == Unlines(PrintHunks(hunks[..k]))
    {
      var text := WriteHunk(groups[k], a, b);
      PrintNext(hunks, k);
      out := out + text;
    }
    assert hunks[..|groups|] == hunks;
  }

  lemma PrintTop(name1: string, name2: string)
    ensures Unlines(["--- " + name1, "+++ " + name2]) == "--- " + name1 + "\n" + "+++ " + name2 + "\n"
  {
    UnlinesSnoc([], "--- " + name1);
    UnlinesSnoc(["--- " + name1], "+++ " + name2);
    assert [] + ["--- " + name1] == ["--- " + name1];
    assert ["--- " + name1] + ["+++ " + name2] == ["--- " + name1, "+++ " + name2];
  }

  /** The text of the hunks of a grouping. */
  ghost predicate IsUnifiedText(out: string, name1: string, name2: string, ops: seq<Op>, a: seq<Line>, b: seq<Line>)
    requires DiffPatch.InFiles(ops, a, b)
  {
    exists ranges ::
      Grouping(ops, ranges)
      && AllPrintable(DiffPatch.UnifiedHunks(ops, ranges, a, b))
      && out == UnifiedText(name1, name2, DiffPatch.UnifiedHunks(ops, ranges, a, b))
  }

  method WriteUnified(name1: string, name2: string, a: seq<Line>, b: seq<Line>, ops: seq<Op>, ghost eq: (Line, Line) -> bool)
      returns (out: string)
    requires IsFile(a) && IsFile(b) && Script(ops, a, b, eq)
    ensures DiffPatch.InFiles(ops, a, b) && IsUnifiedText(out, name1, name2, ops, a, b)
  {
    var groups := GroupUnified(ops);
    ghost var ranges :| Grouping(ops, ranges) && groups == Groups(ops, ranges);
    HunksPrintable(ops, ranges, a, b, eq);
    ghost var hunks := DiffPatch.UnifiedHunks(ops, ranges, a, b);
    out := "";
    if |groups| == 0 {
      return;
    }
    out := "--- " + name1 + "\n";
    out := out + "+++ " + name2 + "\n";
    PrintTop(name1, name2);
    UnlinesAppend(["--- " + name1, "+++ " + name2], PrintHunks(hunks));
    GroupsAreHunks(ops, ranges, a, b);
    var text := WriteGroups(groups, a, b, hunks);
    out := out + text;
  }

  // ----- the header read back

  lemma {:induction false} CommaAt(s: string, i: nat, n: nat)
    requires i <= n <= |s| && (forall k :: i <= k < n ==> IsDigit(s[k])) && (n == |s| || s[n] == ',')
    ensures CommaFrom(s, i) == n
    decreases n - i
  {
    if i < n {
      CommaAt(s, i + 1, n);
    }
  }

  lemma RangeReadBack(start: nat, length: nat)
    requires start <= MAX_INT && length <= MAX_INT
    ensures ParseRange(CountRange(start, length)) == Ok(Span(start, length))
  {
    var s, n := CountRange(start, length), |Decimal(start)|;
    DecimalDigits(start);
    AtoiDecimal(start);
    AtoiDecimal(length);
    CommaAt(s, 0, n);
    if length != 1 {
      assert s[n + 1..] == Decimal(length) && s[..n] == Decimal(start);
    }
  }

  /** The length is printed if and only if it is not 1. */
  lemma LengthLeftOut(start: nat, length: nat)
    ensures ',' in CountRange(start, length) <==> length != 1
    ensures length == 1 ==> CountRange(start, length) == Decimal(start)
  {
    DecimalDigits(start);
    DecimalDigits(length);
  }

  lemma RangeWord(sign: string, start: nat, length: nat)
    requires sign == "-" || sign == "+"
    ensures IsWord(sign + CountRange(start, length))
    ensures TrimPrefix(sign + CountRange(start, length), sign) == CountRange(start, length)
  {
    var s := CountRange(start, length);
    DecimalDigits(start);
    DecimalDigits(length);
    forall k | 0 <= k < |s| ensures !IsSpace(s[k]) {
      assert length == 1 ==> s == Decimal(start);
      assert IsDigit(s[k]) || s[k] == ',';
    }
  }

  lemma HeaderReadBack(aStart: nat, aLen: nat, bStart: nat, bLen: nat)
    requires aStart <= MAX_INT && aLen <= MAX_INT && bStart <= MAX_INT && bLen <= MAX_INT
    ensures ParseHunkHeader(HeaderLine(aStart, aLen, bStart, bLen)) == Ok(PatchApply.Hunk(aStart, aLen, bStart, bLen, []))
    ensures StartsHunk(HeaderLine(aStart, aLen, bStart, bLen))
    ensures '\n' !in HeaderLine(aStart, aLen, bStart, bLen)
  {
    var x, y := "-" + CountRange(aStart, aLen), "+" + CountRange(bStart, bLen);
    RangeWord("-", aStart, aLen);
    RangeWord("+", bStart, bLen);
    HeaderLineIs(aStart, aLen, bStart, bLen);
    HeaderWords(x, y);
    RangeReadBack(aStart, aLen);
    RangeReadBack(bStart, bLen);
  }

  lemma HeaderLineIs(aStart: nat, aLen: nat, bStart: nat, bLen: nat)
    ensures HeaderLine(aStart, aLen, bStart, bLen)
         == "@@" + " " + ("-" + CountRange(aStart, aLen)) + " " + ("+" + CountRange(bStart, bLen)) + " " + "@@"
  {
  }

  lemma PlaceOf(p: string, w: string, t: string)
    ensures (p + w + t)[|p|..|p| + |w|] == w
    ensures t != "" ==> (p + w + t)[|p| + |w|] == t[0]
  {
  }

  lemma FourWords(s: string, w: string, x: string, y: string, z: string)
    requires IsWord(w) && IsWord(x) && IsWord(y) && IsWord(z)
    requires s == w + " " + x + " " + y + " " + z
    ensures Fields(s) == [w, x, y, z]
  {
    PlaceOf("", w, " " + x + " " + y + " " + z);
    PlaceOf(w + " ", x, " " + y + " " + z);
    PlaceOf(w + " " + x + " ", y, " " + z);
    PlaceOf(w + " " + x + " " + y + " ", z, "");
    SevenParts(w, " ", x, " ", y, " ", z);
    FourFields(s, w, |w| + 1, x, |w| + |x| + 2, y, |w| + |x| + |y| + 3, z);
  }

  lemma SevenParts(w: string, s: string, x: string, t: string, y: string, u: string, z: string)
    ensures var all := w + s + x + t + y + u + z;
      && all == "" + w + (s + x + t + y + u + z)
      && all == (w + s) + x + (t + y + u + z)
      && all == (w + s + x + t) + y + (u + z)
      && all == (w + s + x + t + y + u) + z + ""
  {
  }

  lemma FourFields(s: string, w: string, i: nat, x: string, j: nat, y: string, k: nat, z: string)
    requires IsWord(w) && IsWord(x) && IsWord(y) && IsWord(z)
    requires i == |w| + 1 && j == i + |x| + 1 && k == j + |y| + 1 && |s| == k + |z|
    requires WordAt(s, 0, w) && WordAt(s, i, x) && WordAt(s, j, y) && WordAt(s, k, z)
    ensures Fields(s) == [w, x, y, z]
  {
    FieldAt(s, k, z);
    FieldAt(s, j, y);
    FieldAt(s, i, x);
    FieldAt(s, 0, w);
  }

  lemma NoNewline(x: string, y: string)
    requires '\n' !in x && '\n' !in y
    ensures '\n' !in x + " " + y
  {
  }

  lemma HeaderWords(x: string, y: string)
    requires IsWord(x) && IsWord(y)
    ensures var s := "@@" + " " + x + " " + y + " " + "@@";
      Fields(s) == ["@@", x, y, "@@"] && StartsHunk(s) && '\n' !in s
  {
    FourWords("@@" + " " + x + " " + y + " " + "@@", "@@", x, y, "@@");
    NoNewline("@@", x);
    NoNewline("@@" + " " + x, y);
    NoNewline("@@" + " " + x + " " + y, "@@");
  }
}
