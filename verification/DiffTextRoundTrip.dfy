/** Reading printed hunks back, and exactly when that works. */
module DiffTextRoundTrip {
  import opened Sequences
  import opened Text
  import opened DiffScript
  import opened DiffUnified
  import opened UnifiedParse
  import opened DiffText
  import opened PatchDistance
  import opened PatchRun
  import PatchApply
  import DiffPatch
  import DiffLcs

  type FilePatch = PatchApply.FilePatch

  /** A deleted line that starts with "-- " is printed as one that starts with "--- ",
      which is what parseHunk takes for the next file's header. */
  predicate LooksLikeHeader(lines: seq<string>) {
    exists k :: 0 <= k < |lines| && StartsOldName(lines[k])
  }

  predicate SomeLooksLikeHeader(hunks: seq<Hunk>) {
    exists k :: 0 <= k < |hunks| && LooksLikeHeader(hunks[k].lines)
  }

  // ----- one body

  /** These lines stand in the text from line i on. */
  predicate BodyAt(lines: seq<string>, i: nat, body: seq<string>) {
    && i + |body| <= |lines|
    && forall k :: 0 <= k < |body| ==> lines[i + k] == body[k] && TaggedLine(body[k])
  }

  lemma BodyGoesOn(lines: seq<string>, i: nat)
    requires i < |lines| && TaggedLine(lines[i]) && !StartsOldName(lines[i])
    ensures !EndsBody(lines, i) && BodyPart(lines[i]) == [lines[i]]
    ensures ParseBody(lines, i) == ([lines[i]] + ParseBody(lines, i + 1).0, ParseBody(lines, i + 1).1)
  {
  }

  lemma BodyRest(lines: seq<string>, i: nat, body: seq<string>)
    requires BodyAt(lines, i, body) && body != []
    ensures i < |lines| && lines[i] == body[0] && TaggedLine(body[0])
    ensures BodyAt(lines, i + 1, body[1..])
  {
    assert lines[i + 0] == body[0];
    forall k | 0 <= k < |body| - 1 ensures lines[i + 1 + k] == body[1..][k] && TaggedLine(body[1..][k]) {
      assert lines[i + (k + 1)] == body[k + 1];
    }
  }

  lemma {:induction false} BodyReadBack(lines: seq<string>, i: nat, body: seq<string>)
    requires BodyAt(lines, i, body) && !LooksLikeHeader(body) && EndsBody(lines, i + |body|)
    ensures ParseBody(lines, i) == (body, i + |body|)
    decreases |body|
  {
    if body != [] {
      BodyRest(lines, i, body);
      BodyGoesOn(lines, i);
      assert forall k :: 0 <= k < |body[1..]| ==> body[1..][k] == body[k + 1];
      BodyReadBack(lines, i + 1, body[1..]);
      assert [body[0]] + body[1..] == body;
    }
  }

  /** The body ends before its first line that looks like a file header. */
  lemma {:induction false} BodyCutShort(lines: seq<string>, i: nat, body: seq<string>)
    requires BodyAt(lines, i, body) && LooksLikeHeader(body)
    ensures ParseBody(lines, i).1 < |lines| && StartsOldName(lines[ParseBody(lines, i).1])
    decreases |body|
  {
    BodyRest(lines, i, body);
    if !StartsOldName(body[0]) {
      var k :| 0 <= k < |body| && StartsOldName(body[k]);
      assert body[1..][k - 1] == body[k];
      BodyGoesOn(lines, i);
      BodyCutShort(lines, i + 1, body[1..]);
    }
  }

  // ----- one hunk

  /** The hunk stands in the text from line i on. */
  predicate HunkAt(lines: seq<string>, i: nat, h: Hunk) {
    && i < |lines| && StartsHunk(lines[i])
    && ParseHunkHeader(lines[i]) == Ok(h.(lines := []))
    && BodyAt(lines, i + 1, h.lines)
  }

  /** A hunk is read back whole if none of its lines looks like a file header. */
  lemma HunkReadBack(lines: seq<string>, i: nat, h: Hunk)
    requires HunkAt(lines, i, h) && !LooksLikeHeader(h.lines) && EndsBody(lines, i + 1 + |h.lines|)
    ensures ParseHunk(lines, i) == Ok((h, i + 1 + |h.lines|))
  {
    BodyReadBack(lines, i + 1, h.lines);
    assert h.(lines := []).(lines := h.lines) == h;
  }

  /** A file patch with more hunks. */
  function With(fp: FilePatch, more: seq<Hunk>): FilePatch {
    PatchApply.FilePatch(fp.oldName, fp.newName, fp.hunks + more)
  }

  lemma WithWith(fp: FilePatch, hunks: seq<Hunk>)
    requires hunks != []
    ensures With(With(fp, [hunks[0]]), hunks[1..]) == With(fp, hunks)
  {
    assert fp.hunks + [hunks[0]] + hunks[1..] == fp.hunks + hunks;
  }

  lemma HunkTurn(lines: seq<string>, i: nat, h: Hunk, next: nat, fp: FilePatch)
    requires i < |lines| && StartsHunk(lines[i]) && ParseHunk(lines, i) == Ok((h, next))
    ensures ParseTurn(lines, i, [fp]) == Go(next, [With(fp, [h])])
  {
    assert AddHunk([fp], h) == [With(fp, [h])];
  }

  /** With a line that looks like a file header, parsing fails or finds a second file, and
      it loses edits. */
  lemma HunkMisread(lines: seq<string>, i: nat, h: Hunk, fp: FilePatch)
    requires HunkAt(lines, i, h) && LooksLikeHeader(h.lines)
    ensures Misread(lines, i, fp)
  {
    BodyCutShort(lines, i + 1, h.lines);
    var (body, next) := ParseBody(lines, i + 1);
    var read := h.(lines := body);
    HunkTurn(lines, i, read, next, fp);
    TurnEdits(lines, i, [fp], Go(next, [With(fp, [read])]));
    HeaderLosesEdit(lines, next, [With(fp, [read])]);
  }

  /** An error, or several file patches with fewer edits in all. */
  predicate Loses(r: Result<seq<FilePatch>>, edits: nat) {
    r.Ok? ==> |r.value| > 1 && AllEdits(r.value) < edits
  }

  /** Read from line i on, the file patch becomes several, with fewer edits in all than
      the text has. */
  predicate Misread(lines: seq<string>, i: nat, fp: FilePatch) {
    Loses(ParseFrom(lines, i, [fp]), AllEdits([fp]) + EditsFrom(lines, i))
  }

  // ----- all hunks

  /** From line i on the text consists of these hunks and the empty last line. */
  predicate AtHunks(lines: seq<string>, i: nat, hunks: seq<Hunk>)
    decreases |hunks|
  {
    if hunks == [] then i == |lines| - 1 && lines[i] == ""
    else HunkAt(lines, i, hunks[0]) && AtHunks(lines, i + 1 + |hunks[0].lines|, hunks[1..])
  }

  lemma EndOfHunk(lines: seq<string>, i: nat, hunks: seq<Hunk>)
    requires AtHunks(lines, i, hunks)
    ensures EndsBody(lines, i)
  {
  }

  lemma RestClean(hunks: seq<Hunk>)
    requires hunks != [] && !SomeLooksLikeHeader(hunks)
    ensures !LooksLikeHeader(hunks[0].lines) && !SomeLooksLikeHeader(hunks[1..])
  {
    assert forall k :: 0 <= k < |hunks[1..]| ==> hunks[1..][k] == hunks[k + 1];
  }

  lemma RestDirty(hunks: seq<Hunk>)
    requires SomeLooksLikeHeader(hunks) && !LooksLikeHeader(hunks[0].lines)
    ensures SomeLooksLikeHeader(hunks[1..])
  {
    var k :| 0 <= k < |hunks| && LooksLikeHeader(hunks[k].lines);
    assert hunks[1..][k - 1] == hunks[k];
  }

  lemma FirstOfHunks(lines: seq<string>, i: nat, hunks: seq<Hunk>)
    requires AtHunks(lines, i, hunks) && hunks != []
    ensures HunkAt(lines, i, hunks[0])
    ensures AtHunks(lines, i + 1 + |hunks[0].lines|, hunks[1..]) && EndsBody(lines, i + 1 + |hunks[0].lines|)
  {
    EndOfHunk(lines, i + 1 + |hunks[0].lines|, hunks[1..]);
  }

  lemma OneHunk(lines: seq<string>, i: nat, h: Hunk, next: nat, fp: FilePatch)
    requires next == i + 1 + |h.lines|
    requires HunkAt(lines, i, h) && !LooksLikeHeader(h.lines) && EndsBody(lines, next)
    ensures i < |lines| && ParseTurn(lines, i, [fp]) == Go(next, [With(fp, [h])])
  {
    HunkReadBack(lines, i, h);
    HunkTurn(lines, i, h, next, fp);
  }

  /** One clean hunk moves on to the next. */
  lemma CleanHunk(lines: seq<string>, i: nat, hunks: seq<Hunk>, fp: FilePatch) returns (next: nat, fp': FilePatch)
    requires AtHunks(lines, i, hunks) && hunks != [] && !LooksLikeHeader(hunks[0].lines)
    ensures i < |lines| && ParseTurn(lines, i, [fp]) == Go(next, [fp'])
    ensures AtHunks(lines, next, hunks[1..]) && With(fp', hunks[1..]) == With(fp, hunks)
  {
    FirstOfHunks(lines, i, hunks);
    next := i + 1 + |hunks[0].lines|;
    OneHunk(lines, i, hunks[0], next, fp);
    WithWith(fp, hunks);
    fp' := With(fp, [hunks[0]]);
  }

  lemma ParseGo(lines: seq<string>, i: nat, patches: seq<FilePatch>, j: nat, more: seq<FilePatch>)
    requires i < |lines| && ParseTurn(lines, i, patches) == Go(j, more)
    ensures ParseFrom(lines, i, patches) == ParseFrom(lines, j, more)
  {
  }

  lemma {:induction false} HunksReadBack(lines: seq<string>, i: nat, hunks: seq<Hunk>, fp: FilePatch)
    requires AtHunks(lines, i, hunks) && !SomeLooksLikeHeader(hunks)
    ensures ParseFrom(lines, i, [fp]) == Ok([With(fp, hunks)])
    decreases |hunks|
  {
    if hunks == [] {
      assert fp.hunks + hunks == fp.hunks;
    } else {
      RestClean(hunks);
      var next, fp' := CleanHunk(lines, i, hunks, fp);
      HunksReadBack(lines, next, hunks[1..], fp');
      ParseGo(lines, i, [fp], next, [fp']);
    }
  }

  lemma {:induction false} HunksMisread(lines: seq<string>, i: nat, hunks: seq<Hunk>, fp: FilePatch)
    requires AtHunks(lines, i, hunks) && SomeLooksLikeHeader(hunks)
    ensures Misread(lines, i, fp)
    decreases |hunks|
  {
    if LooksLikeHeader(hunks[0].lines) {
      HunkMisread(lines, i, hunks[0], fp);
    } else {
      RestDirty(hunks);
      var next, fp' := CleanHunk(lines, i, hunks, fp);
      TurnEdits(lines, i, [fp], Go(next, [fp']));
      HunksMisread(lines, next, hunks[1..], fp');
      ParseGo(lines, i, [fp], next, [fp']);
    }
  }

  lemma HunkPrintedAt(lines: seq<string>, before: seq<string>, h: Hunk, more: seq<string>)
    requires Printable(h) && lines == before + PrintHunk(h) + more
    ensures HunkAt(lines, |before|, h)
  {
    HeaderReadBack(h.oldStart, h.oldLen, h.newStart, h.newLen);
    BodyPrintedAt(lines, before, PrintHunk(h)[0], h.lines, more);
  }

  lemma BodyPrintedAt(lines: seq<string>, before: seq<string>, header: string, body: seq<string>, more: seq<string>)
    requires lines == before + ([header] + body) + more && forall l :: l in body ==> TaggedLine(l)
    ensures |before| < |lines| && lines[|before|] == header && BodyAt(lines, |before| + 1, body)
  {
    forall k | 0 <= k < |body| ensures lines[|before| + 1 + k] == body[k] && TaggedLine(body[k]) {
      assert body[k] in body;
    }
  }

  lemma AtHunksCons(lines: seq<string>, i: nat, next: nat, hunks: seq<Hunk>)
    requires hunks != [] && HunkAt(lines, i, hunks[0])
    requires next == i + 1 + |hunks[0].lines| && AtHunks(lines, next, hunks[1..])
    ensures AtHunks(lines, i, hunks)
  {
  }

  /** Printed hunks stand where they were printed. */
  lemma {:induction false} PrintedAt(lines: seq<string>, before: seq<string>, hunks: seq<Hunk>)
    requires AllPrintable(hunks) && lines == before + PrintHunks(hunks) + [""]
    ensures AtHunks(lines, |before|, hunks)
    decreases |hunks|
  {
    if hunks != [] {
      var next := before + PrintHunk(hunks[0]);
      var more := PrintHunks(hunks[1..]);
      assert hunks[0] in hunks;
      Regroup(before, PrintHunk(hunks[0]), more, [""]);
      PrintedAt(lines, next, hunks[1..]);
      HunkPrintedAt(lines, before, hunks[0], more + [""]);
      AtHunksCons(lines, |before|, |next|, hunks);
    }
  }

  // ----- the whole text

  lemma {:induction false} PrintHunksLines(hunks: seq<Hunk>)
    requires AllPrintable(hunks)
    ensures forall l :: l in PrintHunks(hunks) ==> '\n' !in l
  {
    if hunks != [] {
      var h := hunks[0];
      assert h in hunks;
      HeaderReadBack(h.oldStart, h.oldLen, h.newStart, h.newLen);
      PrintHunksLines(hunks[1..]);
    }
  }

  lemma TextLines(name1: string, name2: string, hunks: seq<Hunk>) returns (lines: seq<string>)
    requires AllPrintable(hunks) && hunks != [] && '\n' !in name1 && '\n' !in name2
    ensures lines == Text.Split(UnifiedText(name1, name2, hunks))
    ensures |lines| > 2 && lines[0] == "--- " + name1 && lines[1] == "+++ " + name2
    ensures AtHunks(lines, 2, hunks)
  {
    var top := ["--- " + name1, "+++ " + name2];
    PrintHunksLines(hunks);
    SplitUnlines(top + PrintHunks(hunks));
    lines := top + PrintHunks(hunks) + [""];
    PrintedAt(lines, top, hunks);
  }

  /** After the two header lines, parsing goes on with one empty file patch. */
  lemma TopRead(name1: string, name2: string, hunks: seq<Hunk>) returns (lines: seq<string>, fp: FilePatch)
    requires AllPrintable(hunks) && hunks != [] && '\n' !in name1 && '\n' !in name2
    ensures AtHunks(lines, 2, hunks) && fp == PatchApply.FilePatch(TrimSpace(name1), TrimSpace(name2), [])
    ensures Parse(UnifiedText(name1, name2, hunks)) == ParseFrom(lines, 2, [fp])
  {
    lines := TextLines(name1, name2, hunks);
    fp := Named(lines[0], lines[1]);
    assert [] + [fp] == [fp];
    assert ("--- " + name1)[4..] == name1 && ("+++ " + name2)[4..] == name2;
    assert ParseTurn(lines, 0, []) == Go(2, [fp]);
  }

  /** Printed hunks are read back as they were, in one file patch with the trimmed file
      names, if and only if no body line looks like a file header. */
  lemma ParsePrinted(name1: string, name2: string, hunks: seq<Hunk>)
    requires AllPrintable(hunks) && hunks != [] && '\n' !in name1 && '\n' !in name2
    ensures Parse(UnifiedText(name1, name2, hunks))
         == Ok([PatchApply.FilePatch(TrimSpace(name1), TrimSpace(name2), hunks)])
       <==> !SomeLooksLikeHeader(hunks)
  {
    var lines, fp := TopRead(name1, name2, hunks);
    if SomeLooksLikeHeader(hunks) {
      HunksMisread(lines, 2, hunks, fp);
    } else {
      HunksReadBack(lines, 2, hunks, fp);
      assert [] + hunks == hunks;
    }
  }

  // ----- diff -u piped into patch

  /** A line of a that starts with "-- " is deleted. */
  predicate DeletesDashes(ops: seq<Op>, a: seq<Line>) {
    exists k :: 0 <= k < |ops| && ops[k].kind == Delete && ops[k].ai < |a| && StartsDashes(a[ops[k].ai])
  }

  predicate StartsDashes(l: string) {
    |l| >= 3 && l[0] == '-' && l[1] == '-' && l[2] == ' '
  }

  lemma BodyLineDashes(o: Op, a: seq<Line>, b: seq<Line>)
    requires o.kind != Insert ==> o.ai < |a|
    requires o.kind == Insert ==> o.bi < |b|
    ensures StartsOldName(DiffPatch.BodyLine(o, a, b)) <==> o.kind == Delete && StartsDashes(a[o.ai])
  {
    if o.kind == Delete {
      var l := "-" + a[o.ai];
      assert forall k :: 0 < k < |l| ==> l[k] == a[o.ai][k - 1];
    }
  }

  /** A deleted line is in some group, so it is printed; nothing else looks like a header. */
  lemma DashesInHunks(ops: seq<Op>, ranges: seq<Range>, a: seq<Line>, b: seq<Line>)
    requires DiffPatch.InFiles(ops, a, b) && Grouping(ops, ranges)
    ensures SomeLooksLikeHeader(DiffPatch.UnifiedHunks(ops, ranges, a, b)) <==> DeletesDashes(ops, a)
  {
    if DeletesDashes(ops, a) {
      DashesShow(ops, ranges, a, b);
    }
    if SomeLooksLikeHeader(DiffPatch.UnifiedHunks(ops, ranges, a, b)) {
      HeaderFromDashes(ops, ranges, a, b);
    }
  }

  lemma DashesShow(ops: seq<Op>, ranges: seq<Range>, a: seq<Line>, b: seq<Line>)
    requires DiffPatch.InFiles(ops, a, b) && Grouping(ops, ranges) && DeletesDashes(ops, a)
    ensures SomeLooksLikeHeader(DiffPatch.UnifiedHunks(ops, ranges, a, b))
  {
    var hunks := DiffPatch.UnifiedHunks(ops, ranges, a, b);
    var k :| 0 <= k < |ops| && ops[k].kind == Delete && ops[k].ai < |a| && StartsDashes(a[ops[k].ai]);
    NearChange(ops, k, k);
    var r :| 0 <= r < |ranges| && ranges[r].lo <= k < ranges[r].hi;
    DashesInHunk(ops, ranges[r], k, a, b);
    assert LooksLikeHeader(hunks[r].lines);
  }

  lemma HeaderFromDashes(ops: seq<Op>, ranges: seq<Range>, a: seq<Line>, b: seq<Line>)
    requires DiffPatch.InFiles(ops, a, b) && Separated(ranges, |ops|)
    requires SomeLooksLikeHeader(DiffPatch.UnifiedHunks(ops, ranges, a, b))
    ensures DeletesDashes(ops, a)
  {
    var hunks := DiffPatch.UnifiedHunks(ops, ranges, a, b);
    var r :| 0 <= r < |hunks| && LooksLikeHeader(hunks[r].lines);
    var lo, hi := ranges[r].lo, ranges[r].hi;
    HunkLines(ops, ranges, r, a, b);
    var i := HeaderInGroup(ops[lo..hi], a, b);
    assert ops[lo..hi][i] == ops[lo + i];
  }

  lemma HunkLines(ops: seq<Op>, ranges: seq<Range>, r: nat, a: seq<Line>, b: seq<Line>)
    requires DiffPatch.InFiles(ops, a, b) && Separated(ranges, |ops|) && r < |ranges|
    ensures ranges[r].lo <= ranges[r].hi <= |ops| && DiffPatch.InFiles(ops[ranges[r].lo..ranges[r].hi], a, b)
    ensures DiffPatch.UnifiedHunks(ops, ranges, a, b)[r].lines
         == DiffPatch.BodyLines(ops[ranges[r].lo..ranges[r].hi], a, b)
  {
  }

  lemma HeaderInGroup(g: seq<Op>, a: seq<Line>, b: seq<Line>) returns (i: nat)
    requires DiffPatch.InFiles(g, a, b) && LooksLikeHeader(DiffPatch.BodyLines(g, a, b))
    ensures i < |g| && g[i].kind == Delete && g[i].ai < |a| && StartsDashes(a[g[i].ai])
  {
    var lines := DiffPatch.BodyLines(g, a, b);
    i :| 0 <= i < |lines| && StartsOldName(lines[i]);
    BodyLineDashes(g[i], a, b);
  }

  lemma DashesInHunk(ops: seq<Op>, range: Range, k: nat, a: seq<Line>, b: seq<Line>)
    requires DiffPatch.InFiles(ops, a, b) && range.lo <= k < range.hi <= |ops|
    requires ops[k].kind == Delete && StartsDashes(a[ops[k].ai])
    ensures LooksLikeHeader(DiffPatch.UnifiedHunk(ops[range.lo..range.hi], a, b).lines)
  {
    var lines := DiffPatch.BodyLines(ops[range.lo..range.hi], a, b);
    BodyLineDashes(ops[k], a, b);
    assert lines[k - range.lo] == DiffPatch.BodyLine(ops[k], a, b);
  }

  lemma NoGroupsSame(ops: seq<Op>, a: seq<Line>, b: seq<Line>)
    requires Script(ops, a, b, Same()) && Grouping(ops, [])
    ensures a == b
  {
    forall k | 0 <= k < |ops| ensures ops[k].kind == Equal {
      OutsideEqual(ops, [], k);
    }
    DiffPatch.EqualRun(ops, 0, 0, a, b, Same());
    ReplayReaches(ops, a, b, Same());
    assert a[0..|a|] == a;
  }

  // ----- how many edits are printed

  lemma {:induction false} EditsAt(lines: seq<string>, i: nat, body: seq<string>)
    requires BodyAt(lines, i, body)
    ensures EditsFrom(lines, i) == Edits(body) + EditsFrom(lines, i + |body|)
    decreases |body|
  {
    if body != [] {
      BodyRest(lines, i, body);
      EditsAt(lines, i + 1, body[1..]);
    }
  }

  lemma {:induction false} TextEdits(lines: seq<string>, i: nat, hunks: seq<Hunk>)
    requires AtHunks(lines, i, hunks)
    ensures EditsFrom(lines, i) == HunkEdits(hunks)
    decreases |hunks|
  {
    if hunks == [] {
      assert EditsFrom(lines, i + 1) == 0;
    } else {
      EditsAt(lines, i + 1, hunks[0].lines);
      TextEdits(lines, i + 1 + |hunks[0].lines|, hunks[1..]);
    }
  }

  /** From a printed text that is misread, fewer edits are read than were printed. */
  lemma MisreadLosesEdits(name1: string, name2: string, hunks: seq<Hunk>)
    requires AllPrintable(hunks) && hunks != [] && '\n' !in name1 && '\n' !in name2
    requires SomeLooksLikeHeader(hunks)
    ensures Loses(Parse(UnifiedText(name1, name2, hunks)), HunkEdits(hunks))
  {
    var lines, fp := TopRead(name1, name2, hunks);
    HunksMisread(lines, 2, hunks, fp);
    TextEdits(lines, 2, hunks);
    NoEdits(fp);
  }

  lemma NoEdits(fp: FilePatch)
    requires fp.hunks == []
    ensures AllEdits([fp]) == 0
  {
    assert [fp][..0] == [];
  }

  lemma {:induction false} GroupEdits(g: seq<Op>, a: seq<Line>, b: seq<Line>)
    requires DiffPatch.InFiles(g, a, b)
    ensures Edits(DiffPatch.BodyLines(g, a, b)) == Changes(g)
  {
    if g != [] {
      var lines := DiffPatch.BodyLines(g, a, b);
      assert lines[0] == DiffPatch.BodyLine(g[0], a, b) && lines[1..] == DiffPatch.BodyLines(g[1..], a, b);
      DiffPatch.BodyLineParts(g[0], a, b);
      GroupEdits(g[1..], a, b);
    }
  }

  /** The hunks from r on have no more edits than the ops behind the groups before them. */
  predicate FewEdits(ops: seq<Op>, ranges: seq<Range>, r: nat, a: seq<Line>, b: seq<Line>)
    requires DiffPatch.InFiles(ops, a, b) && Separated(ranges, |ops|) && r <= |ranges|
  {
    var x := DiffPatch.GapStart(ranges, r);
    x <= |ops| && HunkEdits(DiffPatch.UnifiedHunks(ops, ranges, a, b)[r..]) <= Changes(ops[x..])
  }

  lemma {:induction false} GroupsEdits(ops: seq<Op>, ranges: seq<Range>, r: nat, a: seq<Line>, b: seq<Line>)
    requires DiffPatch.InFiles(ops, a, b) && Grouping(ops, ranges) && r <= |ranges|
    ensures FewEdits(ops, ranges, r, a, b)
    decreases |ranges| - r
  {
    DiffPatch.GapEqual(ops, ranges, r);
    if r < |ranges| {
      GroupsEdits(ops, ranges, r + 1, a, b);
      OneGroupEdits(ops, ranges, r, a, b);
    }
  }

  lemma OneGroupEdits(ops: seq<Op>, ranges: seq<Range>, r: nat, a: seq<Line>, b: seq<Line>)
    requires DiffPatch.InFiles(ops, a, b) && Separated(ranges, |ops|) && r < |ranges|
    requires DiffPatch.GapStart(ranges, r) <= ranges[r].lo && FewEdits(ops, ranges, r + 1, a, b)
    ensures FewEdits(ops, ranges, r, a, b)
  {
    var all, lo, hi := DiffPatch.UnifiedHunks(ops, ranges, a, b), ranges[r].lo, ranges[r].hi;
    HunkLines(ops, ranges, r, a, b);
    GroupEdits(ops[lo..hi], a, b);
    assert all[r..][0] == all[r] && all[r..][1..] == all[r + 1..];
    ChangesInThree(ops, DiffPatch.GapStart(ranges, r), lo, hi);
  }

  lemma ChangesInThree(ops: seq<Op>, x: nat, lo: nat, hi: nat)
    requires x <= lo <= hi <= |ops|
    ensures Changes(ops[x..]) == Changes(ops[x..lo]) + Changes(ops[lo..hi]) + Changes(ops[hi..])
  {
    assert ops[x..] == ops[x..lo] + ops[lo..hi] + ops[hi..];
    CountsSplit(ops[x..lo] + ops[lo..hi], ops[hi..]);
    CountsSplit(ops[x..lo], ops[lo..hi]);
  }

  lemma PrintedEdits(ops: seq<Op>, ranges: seq<Range>, a: seq<Line>, b: seq<Line>)
    requires DiffPatch.InFiles(ops, a, b) && Grouping(ops, ranges)
    ensures HunkEdits(DiffPatch.UnifiedHunks(ops, ranges, a, b)) <= Changes(ops)
  {
    var hunks := DiffPatch.UnifiedHunks(ops, ranges, a, b);
    GroupsEdits(ops, ranges, 0, a, b);
    assert hunks[0..] == hunks && ops[0..] == ops;
  }

  // ----- diff -u | patch, diff -u | patch -R

  predicate Holds(r: Run, name: string, lines: seq<Line>) {
    name in r.files && r.files[name] == lines
  }

  lemma OnePatch(files: Files, fp: FilePatch, o: Options, to: seq<Line>)
    requires TargetName(fp, o) in files
    requires PatchApply.Apply(files[TargetName(fp, o)], HunksFor(fp, o)) == PatchApply.Patched(to)
    ensures PatchAll(files, [fp], o) == Run(files[TargetName(fp, o) := to], false, false)
  {
    assert [fp][..0] == [];
    assert PatchAll(files, [], o) == Run(files, false, false);
  }

  /** Too few edits to get from one file to the other. */
  lemma TooFewEdits(files: Files, patches: seq<FilePatch>, o: Options, name: string, to: seq<Line>)
    requires name in files && AllEdits(patches) < Distance(files[name], to)
    ensures !Holds(PatchAll(files, patches, o), name, to)
  {
    RunMoves(files, patches, o, name, to);
    SelfDistance(to, 0);
  }

  /** What patch is to start from, and what it is to reach. */
  function Ends(a: seq<Line>, b: seq<Line>, o: Options): (seq<Line>, seq<Line>) {
    if o.reverse then (b, a) else (a, b)
  }

  lemma HunksReach(ops: seq<Op>, ranges: seq<Range>, a: seq<Line>, b: seq<Line>, o: Options)
    requires Script(ops, a, b, Same()) && Grouping(ops, ranges)
    ensures DiffPatch.InFiles(ops, a, b)
    ensures var hunks := DiffPatch.UnifiedHunks(ops, ranges, a, b);
      PatchApply.Apply(Ends(a, b, o).0, if o.reverse then PatchApply.Reverse(hunks) else hunks)
      == PatchApply.Patched(Ends(a, b, o).1)
  {
    DiffPatch.DiffThenPatch(ops, ranges, a, b, Same());
    DiffPatch.DiffThenPatchThenUndo(ops, ranges, a, b, Same());
  }

  lemma WalkDistance(a: seq<Line>, b: seq<Line>, o: Options)
    ensures Distance(Ends(a, b, o).0, Ends(a, b, o).1) == Changes(DiffLcs.Walk(a, b, Same(), 0, 0))
  {
    DistanceIs(a, b);
    LcsSymmetric(a, b, 0, 0);
  }

  /** For files that differ and any names, options and other files: the text diff -u
      prints, given to patch, turns a into b, and given to patch -R turns b into a, if and
      only if diff deletes no line that starts with "-- ". Otherwise the file is left with
      other lines, however many file patches are read from the text and applied to it. */
  lemma DiffTextThenPatch(name1: string, name2: string, a: seq<Line>, b: seq<Line>, ranges: seq<Range>,
                          files: Files, name: string, o: Options)
    requires IsFile(a) && IsFile(b) && '\n' !in name1 && '\n' !in name2 && a != b
    requires Grouping(DiffLcs.Walk(a, b, Same(), 0, 0), ranges)
    requires name == TargetName(PatchApply.FilePatch(TrimSpace(name1), TrimSpace(name2), []), o)
    requires name in files && files[name] == Ends(a, b, o).0
    ensures var ops, to := DiffLcs.Walk(a, b, Same(), 0, 0), Ends(a, b, o).1;
      && DiffPatch.InFiles(ops, a, b) && AllPrintable(DiffPatch.UnifiedHunks(ops, ranges, a, b))
      && var r := PatchText(files, UnifiedText(name1, name2, DiffPatch.UnifiedHunks(ops, ranges, a, b)), o);
         (Holds(r, name, to) <==> !DeletesDashes(ops, a))
         && (!DeletesDashes(ops, a) ==> r == Run(files[name := to], false, false))
  {
    var ops := DiffLcs.Walk(a, b, Same(), 0, 0);
    DiffLcs.DiffOptimal(a, b, Same());
    HunksPrintable(ops, ranges, a, b, Same());
    DashesInHunks(ops, ranges, a, b);
    if ranges == [] {
      NoGroupsSame(ops, a, b);
    }
    var hunks := DiffPatch.UnifiedHunks(ops, ranges, a, b);
    var from, to := Ends(a, b, o).0, Ends(a, b, o).1;
    if SomeLooksLikeHeader(hunks) {
      PrintedEdits(ops, ranges, a, b);
      WalkDistance(a, b, o);
      MisreadMisses(name1, name2, hunks, files, name, o, to);
    } else {
      HunksReach(ops, ranges, a, b, o);
      ReadReaches(name1, name2, hunks, files, name, o, to);
    }
  }

  lemma ReadReaches(name1: string, name2: string, hunks: seq<Hunk>, files: Files, name: string, o: Options, to: seq<Line>)
    requires AllPrintable(hunks) && hunks != [] && '\n' !in name1 && '\n' !in name2 && !SomeLooksLikeHeader(hunks)
    requires name == TargetName(PatchApply.FilePatch(TrimSpace(name1), TrimSpace(name2), []), o) && name in files
    requires PatchApply.Apply(files[name], if o.reverse then PatchApply.Reverse(hunks) else hunks) == PatchApply.Patched(to)
    ensures PatchText(files, UnifiedText(name1, name2, hunks), o) == Run(files[name := to], false, false)
  {
    ParsePrinted(name1, name2, hunks);
    OnePatch(files, PatchApply.FilePatch(TrimSpace(name1), TrimSpace(name2), hunks), o, to);
  }

  lemma MisreadMisses(name1: string, name2: string, hunks: seq<Hunk>, files: Files, name: string, o: Options, to: seq<Line>)
    requires AllPrintable(hunks) && hunks != [] && '\n' !in name1 && '\n' !in name2 && SomeLooksLikeHeader(hunks)
    requires name in files && files[name] != to && HunkEdits(hunks) <= Distance(files[name], to)
    ensures !Holds(PatchText(files, UnifiedText(name1, name2, hunks), o), name, to)
  {
    MisreadLosesEdits(name1, name2, hunks);
    var r := Parse(UnifiedText(name1, name2, hunks));
    if r.Ok? {
      TooFewEdits(files, r.value, o, name, to);
    }
  }

  // ----- an input

  const DASHES: Hunk := PatchApply.Hunk(1, 1, 1, 1, ["--- x", "+++ y"])

  lemma DashesScript()
    ensures DiffLcs.Walk(["-- x"], ["++ y"], Same(), 0, 0) == [Op(Delete, 0, 0), Op(Insert, 1, 0)]
  {
    var a, b := ["-- x"], ["++ y"];
    assert a[0][0] != b[0][0];
    assert DiffLcs.Step(a, b, Same(), 0, 0) == Op(Delete, 0, 0) && DiffLcs.Step(a, b, Same(), 1, 0) == Op(Insert, 1, 0);
    assert DiffLcs.Walk(a, b, Same(), 1, 1) == [];
    assert DiffLcs.Walk(a, b, Same(), 1, 0) == [Op(Insert, 1, 0)];
  }

  lemma DashesGrouped(ops: seq<Op>)
    requires ops == [Op(Delete, 0, 0), Op(Insert, 1, 0)]
    ensures Grouping(ops, [Range(0, 2)]) && DiffPatch.InFiles(ops, ["-- x"], ["++ y"])
  {
    var ranges := [Range(0, 2)];
    forall k | 0 <= k < 2 ensures Near(ops, k) && InSome(ranges, k) {
      assert ops[0].kind != Equal && ranges[0].lo <= k < ranges[0].hi;
    }
  }

  lemma DashesPrinted(ops: seq<Op>)
    requires ops == [Op(Delete, 0, 0), Op(Insert, 1, 0)]
    requires DiffPatch.InFiles(ops, ["-- x"], ["++ y"])
    ensures DiffPatch.UnifiedHunks(ops, [Range(0, 2)], ["-- x"], ["++ y"]) == [DASHES]
  {
    assert ops[0..2] == ops && ops[1..] == [ops[1]];
    DashesHeader(ops);
    var lines := DiffPatch.BodyLines(ops, ["-- x"], ["++ y"]);
    assert lines[0] == "-" + "-- x" == "--- x";
    assert lines[1] == "+" + "++ y" == "+++ y";
    assert lines == DASHES.lines && DiffPatch.UnifiedHunk(ops, ["-- x"], ["++ y"]) == DASHES;
  }

  lemma DashesHeader(ops: seq<Op>)
    requires ops == [Op(Delete, 0, 0), Op(Insert, 1, 0)]
    ensures HeaderOf(ops) == Header(1, 1, 1, 1)
  {
    var rest := ops[1..];
    assert rest == [ops[1]] && rest[1..] == [];
    assert Olds(rest) == 0 && News(rest) == 1 && FirstNew(rest) == 1;
  }

  lemma OneLetter(c: char)
    requires !IsSpace(c)
    ensures TrimSpace([c]) == [c]
  {
  }

  /** Two lines that look like names, at the end of a text. */
  lemma NamesRead(lines: seq<string>, i: nat, fp: FilePatch)
    requires |lines| == i + 3 && lines[i] == "--- x" && lines[i + 1] == "+++ y" && lines[i + 2] == ""
    ensures ParseFrom(lines, i, [fp]) == Ok([fp, PatchApply.FilePatch("x", "y", [])])
  {
    OneLetter('x');
    OneLetter('y');
    assert "--- x"[4..] == "x" && "+++ y"[4..] == "y";
    var patches := [fp] + [Named(lines[i], lines[i + 1])];
    ParseGo(lines, i, [fp], i + 2, patches);
    ParseGo(lines, i + 2, patches, i + 3, patches);
    assert patches == [fp, PatchApply.FilePatch("x", "y", [])];
    assert ParseFrom(lines, i + 3, patches) == Ok(patches);
  }

  /** The hunk without its lines, which have become the names of a second file. */
  lemma DashesAt(lines: seq<string>, fp: FilePatch)
    requires AtHunks(lines, 2, [DASHES]) && fp.hunks == []
    ensures ParseFrom(lines, 2, [fp])
         == Ok([fp.(hunks := [DASHES.(lines := [])]), PatchApply.FilePatch("x", "y", [])])
  {
    FirstOfHunks(lines, 2, [DASHES]);
    assert [DASHES][1..] == [];
    BodyRest(lines, 3, DASHES.lines);
    BodyRest(lines, 4, DASHES.lines[1..]);
    var read := DASHES.(lines := []);
    assert ParseBody(lines, 3) == ([], 3);
    HunkTurn(lines, 2, read, 3, fp);
    ParseGo(lines, 2, [fp], 3, [With(fp, [read])]);
    NamesRead(lines, 3, With(fp, [read]));
    assert [] + [read] == [read];
  }

  lemma DashesRead() returns (patches: seq<FilePatch>)
    ensures AllPrintable([DASHES]) && Parse(UnifiedText("f", "f", [DASHES])) == Ok(patches)
    ensures |patches| == 2 && patches[0].hunks == [DASHES.(lines := [])] && patches[1].hunks == []
  {
    DashesPrintable();
    var lines, fp := TopRead("f", "f", [DASHES]);
    DashesAt(lines, fp);
    patches := Parse(UnifiedText("f", "f", [DASHES])).value;
  }

  lemma DashesPrintable()
    ensures AllPrintable([DASHES])
  {
    assert TaggedLine("--- x") && TaggedLine("+++ y");
  }

  /** Two file patches without a line leave the file alone. */
  lemma NothingDone(files: Files, patches: seq<FilePatch>, o: Options)
    requires "f" in files && files["f"] == ["-- x"] && o == Options("f", 0, false)
    requires |patches| == 2 && patches[0].hunks == [DASHES.(lines := [])] && patches[1].hunks == []
    ensures PatchAll(files, patches, o) == Run(files, false, false)
  {
    var orig := ["-- x"];
    assert PatchApply.ApplyBody(orig, 0, []) == PatchApply.Done([], 0);
    assert orig[0..0] + [] == [] && orig[0..] == orig && [] + orig == orig;
    assert patches[0].hunks[1..] == [];
    assert PatchApply.Target(1) == 0 && PatchApply.ApplyFrom(orig, 0, []) == PatchApply.Patched(orig);
    assert PatchApply.Apply(orig, patches[0].hunks) == PatchApply.Patched(orig);
    assert PatchApply.Apply(orig, patches[1].hunks) == PatchApply.Patched(orig);
    assert patches[..1] == [patches[0]] && files["f" := orig] == files;
    OnePatch(files, patches[0], o, orig);
  }

  /** The difference between "-- x" and "++ y" is lost: patch leaves the file as it was
      and reports success. */
  lemma DashesLost(files: Files)
    requires "f" in files && files["f"] == ["-- x"]
    ensures var ops := DiffLcs.Walk(["-- x"], ["++ y"], Same(), 0, 0);
      && Grouping(ops, [Range(0, 2)]) && DiffPatch.InFiles(ops, ["-- x"], ["++ y"])
      && DiffPatch.UnifiedHunks(ops, [Range(0, 2)], ["-- x"], ["++ y"]) == [DASHES]
    ensures AllPrintable([DASHES])
    ensures PatchText(files, UnifiedText("f", "f", [DASHES]), Options("f", 0, false)) == Run(files, false, false)
  {
    var ops := DiffLcs.Walk(["-- x"], ["++ y"], Same(), 0, 0);
    DashesScript();
    DashesGrouped(ops);
    DashesPrinted(ops);
    var patches := DashesRead();
    NothingDone(files, patches, Options("f", 0, false));
  }

  /** With any comparison of lines, as for -i: patch reads one file patch from the text,
      and one that takes a to b up to the comparison, if and only if diff deletes no line
      that starts with "-- ". */
  lemma DiffTextThenPatchAlike(name1: string, name2: string, a: seq<Line>, b: seq<Line>, ops: seq<Op>,
                               ranges: seq<Range>, eq: (Line, Line) -> bool)
    requires IsFile(a) && IsFile(b) && '\n' !in name1 && '\n' !in name2
    requires Script(ops, a, b, eq) && Grouping(ops, ranges) && ranges != []
    ensures DiffPatch.InFiles(ops, a, b) && AllPrintable(DiffPatch.UnifiedHunks(ops, ranges, a, b))
    ensures var patches := Parse(UnifiedText(name1, name2, DiffPatch.UnifiedHunks(ops, ranges, a, b)));
      (&& patches.Ok? && |patches.value| == 1
       && var r := PatchApply.Apply(a, patches.value[0].hunks);
          r.Patched? && |r.lines| == |b| && forall k :: 0 <= k < |b| ==> r.lines[k] == b[k] || eq(r.lines[k], b[k]))
      <==> !DeletesDashes(ops, a)
  {
    HunksPrintable(ops, ranges, a, b, eq);
    DashesInHunks(ops, ranges, a, b);
    DiffPatch.DiffThenPatch(ops, ranges, a, b, eq);
    var hunks := DiffPatch.UnifiedHunks(ops, ranges, a, b);
    ParsePrinted(name1, name2, hunks);
    if SomeLooksLikeHeader(hunks) {
      MisreadLosesEdits(name1, name2, hunks);
    }
  }
}
