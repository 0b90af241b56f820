/** When hunks apply, and what patch does with all the file patches of a text. */
module PatchMeaning {
  import opened Sequences
  import opened Text
  import opened PatchApply
  import opened UnifiedParse
  import opened PatchOrder
  import opened PatchRun

  // ----- one body

  /** The lines that a body leaves. */
  function NewLines(lines: seq<Line>): seq<Line> {
    if lines == [] then []
    else if lines[0] != "" && (lines[0][0] == ' ' || lines[0][0] == '+') then [lines[0][1..]] + NewLines(lines[1..])
    else NewLines(lines[1..])
  }

  predicate IsOld(l: Line) {
    l != "" && (l[0] == ' ' || l[0] == '-')
  }

  /** Line k of the body names a line that is not in its place, and all before it are. */
  predicate FailsAt(orig: seq<Line>, pos: nat, lines: seq<Line>, k: nat)
    requires pos <= |orig|
  {
    && k < |lines| && IsOld(lines[k])
    && OldLines(lines[..k]) <= orig[pos..] && !(OldLines(lines[..k + 1]) <= orig[pos..])
  }

  /** The error for line k of the body. */
  function MismatchAt(pos: nat, lines: seq<Line>, k: nat): PatchError
    requires k < |lines| && lines[k] != ""
  {
    var n := pos + |OldLines(lines[..k])| + 1;
    if lines[k][0] == ' ' then ContextMismatch(n) else DeleteMismatch(n)
  }

  lemma OldFirst(lines: seq<Line>, k: nat)
    requires 0 < k <= |lines|
    ensures OldLines(lines[..k])
         == (if IsOld(lines[0]) then [lines[0][1..]] else []) + OldLines(lines[1..][..k - 1])
  {
    assert lines[..k][0] == lines[0] && lines[..k][1..] == lines[1..][..k - 1];
  }

  lemma FrontOf(orig: seq<Line>, pos: nat, l: Line, more: seq<Line>)
    requires pos <= |orig|
    ensures [l] + more <= orig[pos..] <==> pos < |orig| && orig[pos] == l && more <= orig[pos + 1..]
  {
    if pos < |orig| {
      assert orig[pos..] == [orig[pos]] + orig[pos + 1..];
      assert ([l] + more)[1..] == more;
    }
  }

  /** A body applies if and only if the lines it names stand in the file at its place, and
      then it replaces them by the lines it leaves. */
  lemma {:induction false} BodyApplies(orig: seq<Line>, pos: nat, lines: seq<Line>)
    requires pos <= |orig| && "" !in lines
    ensures OldLines(lines) <= orig[pos..] ==>
      ApplyBody(orig, pos, lines) == Done(NewLines(lines), pos + |OldLines(lines)|)
    ensures !(OldLines(lines) <= orig[pos..]) ==> ApplyBody(orig, pos, lines).Bad?
    decreases |lines|
  {
    if lines != [] {
      assert lines[0] in lines && "" !in lines[1..];
      if IsOld(lines[0]) {
        FrontOf(orig, pos, lines[0][1..], OldLines(lines[1..]));
        if pos < |orig| {
          BodyApplies(orig, pos + 1, lines[1..]);
        }
      } else {
        BodyApplies(orig, pos, lines[1..]);
      }
    }
  }

  /** If it does not apply, the error names the first line of the file that is not as the
      body says. */
  lemma {:induction false} BodyFails(orig: seq<Line>, pos: nat, lines: seq<Line>) returns (k: nat)
    requires pos <= |orig| && "" !in lines && !(OldLines(lines) <= orig[pos..])
    ensures FailsAt(orig, pos, lines, k) && ApplyBody(orig, pos, lines) == Bad(MismatchAt(pos, lines, k))
    decreases |lines|
  {
    assert lines[0] in lines && "" !in lines[1..];
    assert lines[..0] == [];
    OldFirst(lines, 1);
    assert lines[1..][..0] == [];
    var text := lines[0][1..];
    if IsOld(lines[0]) {
      FrontOf(orig, pos, text, []);
      FrontOf(orig, pos, text, OldLines(lines[1..]));
      if pos < |orig| && orig[pos] == text {
        k := BodyFails(orig, pos + 1, lines[1..]);
        FailsLater(orig, pos, lines, k);
        k := k + 1;
      } else {
        k := 0;
      }
    } else {
      k := BodyFails(orig, pos, lines[1..]);
      FailsLater(orig, pos, lines, k);
      k := k + 1;
    }
  }

  lemma FailsLater(orig: seq<Line>, pos: nat, lines: seq<Line>, k: nat)
    requires pos <= |orig| && lines != [] && lines[0] != ""
    requires IsOld(lines[0]) ==> pos < |orig| && orig[pos] == lines[0][1..]
    requires FailsAt(orig, if IsOld(lines[0]) then pos + 1 else pos, lines[1..], k)
    ensures FailsAt(orig, pos, lines, k + 1)
    ensures MismatchAt(pos, lines, k + 1) == MismatchAt(if IsOld(lines[0]) then pos + 1 else pos, lines[1..], k)
  {
    OldFirst(lines, k + 1);
    OldFirst(lines, k + 2);
    if IsOld(lines[0]) {
      FrontOf(orig, pos, lines[0][1..], OldLines(lines[1..][..k]));
      FrontOf(orig, pos, lines[0][1..], OldLines(lines[1..][..k + 1]));
    } else {
      assert [] + OldLines(lines[1..][..k]) == OldLines(lines[1..][..k]);
      assert [] + OldLines(lines[1..][..k + 1]) == OldLines(lines[1..][..k + 1]);
    }
  }

  // ----- all hunks

  /** Behind line pos, the hunks stand in order where the file has the lines they name. */
  predicate Stand(orig: seq<Line>, pos: nat, hunks: seq<Hunk>)
    decreases hunks
  {
    hunks != [] ==>
      var t, old' := Target(hunks[0].oldStart), OldLines(hunks[0].lines);
      pos <= t <= |orig| && old' <= orig[t..] && Stand(orig, t + |old'|, hunks[1..])
  }

  /** The file from line pos on, with the lines each hunk names replaced by its new ones. */
  function Replaced(orig: seq<Line>, pos: nat, hunks: seq<Hunk>): seq<Line>
    requires pos <= |orig| && Stand(orig, pos, hunks)
    decreases |hunks|
  {
    if hunks == [] then orig[pos..]
    else
      var t, h := Target(hunks[0].oldStart), hunks[0];
      orig[pos..t] + NewLines(h.lines) + Replaced(orig, t + |OldLines(h.lines)|, hunks[1..])
  }

  predicate NoEmptyLines(hunks: seq<Hunk>) {
    hunks != [] ==> "" !in hunks[0].lines && NoEmptyLines(hunks[1..])
  }

  lemma {:induction false} AppliesFrom(orig: seq<Line>, pos: nat, hunks: seq<Hunk>)
    requires pos <= |orig| && NoEmptyLines(hunks)
    ensures if Stand(orig, pos, hunks) then ApplyFrom(orig, pos, hunks) == Patched(Replaced(orig, pos, hunks))
            else ApplyFrom(orig, pos, hunks).Failed?
    decreases |hunks|
  {
    if hunks != [] {
      var t, lines := Target(hunks[0].oldStart), hunks[0].lines;
      if pos <= t <= |orig| {
        BodyApplies(orig, t, lines);
        if OldLines(lines) <= orig[t..] {
          var next := t + |OldLines(lines)|;
          AppliesFrom(orig, next, hunks[1..]);
          if Stand(orig, next, hunks[1..]) {
            ApplyStep(orig, pos, hunks, NewLines(lines), next, Replaced(orig, next, hunks[1..]));
          }
        }
      }
    }
  }

  /** A file patch applies if and only if each hunk, behind the one before it, finds the
      lines it names in their place; then these are replaced and nothing else is. */
  lemma AppliesIff(orig: seq<Line>, hunks: seq<Hunk>)
    requires NoEmptyLines(hunks)
    ensures if Stand(orig, 0, hunks) then Apply(orig, hunks) == Patched(Replaced(orig, 0, hunks))
            else Apply(orig, hunks).Failed?
  {
    AppliesFrom(orig, 0, hunks);
  }

  lemma {:induction false} TaggedLines(hunks: seq<Hunk>)
    requires forall h :: h in hunks ==> Tagged(h)
    ensures NoEmptyLines(hunks)
  {
    if hunks != [] {
      assert hunks[0] in hunks && forall h :: h in hunks[1..] ==> h in hunks;
      assert forall l :: l in hunks[0].lines ==> TaggedLine(l);
      TaggedLines(hunks[1..]);
    }
  }

  /** The same for whatever is read from a text, applied as it is or reversed. */
  lemma ParsedAppliesIff(text: string, fp: FilePatch, o: Options, orig: seq<Line>)
    requires Parse(text).Ok? && fp in Parse(text).value
    ensures var hunks := HunksFor(fp, o);
      if Stand(orig, 0, hunks) then Apply(orig, hunks) == Patched(Replaced(orig, 0, hunks))
      else Apply(orig, hunks).Failed?
  {
    ParsedTagged(Split(text), 0, []);
    ReverseTagged(fp.hunks);
    TaggedLines(HunksFor(fp, o));
    AppliesIff(orig, HunksFor(fp, o));
  }

  // ----- the file a patch is for

  predicate NoSlash(dirs: seq<string>) {
    dirs == [] || ('/' !in dirs[0] && NoSlash(dirs[1..]))
  }

  function Path(dirs: seq<string>, base: string): string {
    if dirs == [] then base else dirs[0] + "/" + Path(dirs[1..], base)
  }

  lemma {:induction false} IndexAt(s: string, c: char, i: nat, n: nat)
    requires i <= n <= |s| && (forall k :: i <= k < n ==> s[k] != c) && (n < |s| ==> s[n] == c)
    ensures IndexFrom(s, c, i) == n
    decreases n - i
  {
    if i < n {
      IndexAt(s, c, i + 1, n);
    }
  }

  /** -pN takes N directories off, and from a name with fewer all of them. */
  lemma {:induction false} StripsDirectories(dirs: seq<string>, base: string, n: nat)
    requires NoSlash(dirs) && '/' !in base
    ensures DropComponents(Path(dirs, base), n) == if n <= |dirs| then Path(dirs[n..], base) else base
    decreases n
  {
    var name := Path(dirs, base);
    if n == 0 {
      assert dirs[0..] == dirs;
    } else if dirs == [] {
      IndexAt(name, '/', 0, |name|);
      StripsDirectories(dirs, base, n - 1);
    } else {
      IndexAt(name, '/', 0, |dirs[0]|);
      assert name[|dirs[0]| + 1..] == Path(dirs[1..], base);
      StripsDirectories(dirs[1..], base, n - 1);
      assert n <= |dirs| ==> dirs[1..][n - 1..] == dirs[n..];
    }
  }

  predicate NoBlankEnds(s: string) {
    s != "" && !IsSpace(s[0]) && !IsSpace(s[|s| - 1])
  }

  /** What stands behind a tab is no part of the name, with any -p. */
  lemma TimeStampDropped(name: string, stamp: string, n: int)
    requires NoBlankEnds(name) && NoBlankEnds(stamp) && '\t' !in name
    ensures StripComponents(name + "\t" + stamp, n) == StripComponents(name, n) == DropComponents(name, n)
  {
    var s := name + "\t" + stamp;
    assert TrimLeft(s) == s && TrimRight(s) == s && TrimSpace(name) == name;
    IndexAt(s, '\t', 0, |name|);
    IndexAt(name, '\t', 0, |name|);
    assert s[..|name|] == name && name[..|name|] == name;
  }

  /** An operand names the file; without one it is the new name, with -R the old one. */
  lemma NamesChosen(fp: FilePatch, operand: string)
    requires NoBlankEnds(fp.oldName) && NoBlankEnds(fp.newName) && '\t' !in fp.oldName && '\t' !in fp.newName
    requires operand != ""
    ensures TargetName(fp, Options("", 0, false)) == fp.newName && TargetName(fp, Options("", 0, true)) == fp.oldName
    ensures forall n, r :: TargetName(fp, Options(operand, n, r)) == operand
  {
    TimeStampDropped(fp.oldName, "x", 0);
    TimeStampDropped(fp.newName, "x", 0);
  }

  // ----- the whole run

  /** The file patch applies to its file and changes nothing else. */
  predicate Applies(files: Files, fp: FilePatch, o: Options, after: Files) {
    var name := TargetName(fp, o);
    && name in files
    && Apply(files[name], HunksFor(fp, o)).Patched?
    && after == files[name := Apply(files[name], HunksFor(fp, o)).lines]
  }

  /** The hunks go backwards, or meet a line without a tag. */
  predicate Crashes(files: Files, fp: FilePatch, o: Options) {
    var name := TargetName(fp, o);
    name in files && Apply(files[name], HunksFor(fp, o)) in [Failed(Overlap), Failed(EmptyLine)]
  }

  /** There is no such file, or the hunks do not apply to it. */
  predicate Rejects(files: Files, fp: FilePatch, o: Options) {
    var name := TargetName(fp, o);
    name in files ==> Apply(files[name], HunksFor(fp, o)).Failed? && !Crashes(files, fp, o)
  }

  /** The file patch applies, or is rejected and leaves all files alone. */
  predicate Turns(files: Files, fp: FilePatch, o: Options, after: Files) {
    Applies(files, fp, o, after) || (Rejects(files, fp, o) && after == files)
  }

  /** The files before each of the first |maps| - 1 file patches and behind the last. */
  predicate Goes(maps: seq<Files>, patches: seq<FilePatch>, o: Options) {
    && 0 < |maps| <= |patches| + 1
    && (|maps| > 1 ==>
          var n := |maps| - 2;
          Goes(maps[..n + 1], patches, o) && Turns(maps[n], patches[n], o, maps[n + 1]))
  }

  predicate SomeRejected(maps: seq<Files>, patches: seq<FilePatch>, o: Options)
    requires |maps| <= |patches| + 1
  {
    && |maps| > 1
    && var n := |maps| - 2;
       SomeRejected(maps[..n + 1], patches, o) || Rejects(maps[n], patches[n], o)
  }

  lemma OneTurn(r: Run, fp: FilePatch, o: Options)
    requires !r.stopped
    ensures var r' := PatchOne(r, fp, o);
      if Crashes(r.files, fp, o) then r' == r.(stopped := true)
      else if Rejects(r.files, fp, o) then r' == r.(failed := true)
      else Applies(r.files, fp, o, r'.files) && r' == r.(files := r'.files)
  {
  }

  lemma GoesOn(maps: seq<Files>, patches: seq<FilePatch>, o: Options, next: Files)
    requires Goes(maps, patches, o) && |maps| <= |patches|
    requires Turns(maps[|maps| - 1], patches[|maps| - 1], o, next)
    ensures Goes(maps + [next], patches, o)
    ensures SomeRejected(maps + [next], patches, o)
       <==> SomeRejected(maps, patches, o) || Rejects(maps[|maps| - 1], patches[|maps| - 1], o)
  {
    assert (maps + [next])[..|maps|] == maps;
  }

  lemma {:induction false} GoesInLonger(maps: seq<Files>, patches: seq<FilePatch>, o: Options, more: seq<FilePatch>)
    requires Goes(maps, patches, o) && patches <= more
    ensures Goes(maps, more, o) && (SomeRejected(maps, more, o) <==> SomeRejected(maps, patches, o))
    decreases |maps|
  {
    if |maps| > 1 {
      GoesInLonger(maps[..|maps| - 1], patches, o, more);
    }
  }

  /** The file patches are tried in order until one crashes; exactly those that apply
      change files, and the run has failed if one was rejected. */
  predicate Explains(maps: seq<Files>, files: Files, patches: seq<FilePatch>, o: Options, r: Run) {
    && Goes(maps, patches, o) && maps[0] == files && maps[|maps| - 1] == r.files
    && (r.failed <==> SomeRejected(maps, patches, o))
    && (if r.stopped then |maps| <= |patches| && Crashes(r.files, patches[|maps| - 1], o) else |maps| == |patches| + 1)
  }

  lemma ExplainsMore(maps: seq<Files>, files: Files, patches: seq<FilePatch>, o: Options, r: Run, last: FilePatch)
      returns (maps': seq<Files>)
    requires Explains(maps, files, patches, o, r)
    ensures Explains(maps', files, patches + [last], o, PatchOne(r, last, o))
  {
    maps' := maps;
    GoesInLonger(maps, patches, o, patches + [last]);
    if !r.stopped {
      OneTurn(r, last, o);
      if !Crashes(r.files, last, o) {
        var next := PatchOne(r, last, o).files;
        GoesOn(maps, patches + [last], o, next);
        maps' := maps + [next];
      }
    }
  }

  /** What happens to the files and the exit status. */
  lemma {:induction false} RunExplained(files: Files, patches: seq<FilePatch>, o: Options) returns (maps: seq<Files>)
    ensures Explains(maps, files, patches, o, PatchAll(files, patches, o))
  {
    if patches == [] {
      maps := [files];
    } else {
      var most, last := patches[..|patches| - 1], patches[|patches| - 1];
      assert patches == most + [last];
      maps := RunExplained(files, most, o);
      maps := ExplainsMore(maps, files, most, o, PatchAll(files, most, o), last);
    }
  }

  /** The files before each file patch and behind the last, if all of them apply. */
  predicate AllApply(maps: seq<Files>, patches: seq<FilePatch>, o: Options) {
    && |maps| == |patches| + 1
    && (patches != [] ==>
          var n := |patches| - 1;
          AllApply(maps[..n + 1], patches[..n], o) && Applies(maps[n], patches[n], o, maps[n + 1]))
  }

  /** The run neither fails nor crashes if and only if the text holds file patches and all
      of them apply, one after the other. Without any, nothing is changed and it fails. */
  lemma SucceedsIff(files: Files, text: string, o: Options)
    ensures var r := PatchText(files, text, o);
      if Parse(text).Err? || Parse(text).value == [] then r == Run(files, true, false)
      else
        !r.failed && !r.stopped
        <==> exists maps :: AllApply(maps, Parse(text).value, o) && maps[0] == files && maps[|maps| - 1] == r.files
  {
    if Parse(text).Ok? && Parse(text).value != [] {
      var patches := Parse(text).value;
      AllSucceeds(files, patches, o);
    }
  }

  lemma AllSucceeds(files: Files, patches: seq<FilePatch>, o: Options)
    ensures var r := PatchAll(files, patches, o);
      !r.failed && !r.stopped
      <==> exists maps :: AllApply(maps, patches, o) && maps[0] == files && maps[|maps| - 1] == r.files
  {
    var r := PatchAll(files, patches, o);
    if !r.failed && !r.stopped {
      var maps := NoneRejected(files, patches, o);
    }
    forall maps | AllApply(maps, patches, o) && maps[0] == files ensures !r.failed && !r.stopped {
      NoneFails(files, patches, o, maps);
    }
  }

  lemma {:induction false} NoneRejected(files: Files, patches: seq<FilePatch>, o: Options) returns (maps: seq<Files>)
    requires !PatchAll(files, patches, o).failed && !PatchAll(files, patches, o).stopped
    ensures AllApply(maps, patches, o) && maps[0] == files && maps[|maps| - 1] == PatchAll(files, patches, o).files
    decreases |patches|
  {
    if patches == [] {
      maps := [files];
    } else {
      var most, last := patches[..|patches| - 1], patches[|patches| - 1];
      OneTurn(PatchAll(files, most, o), last, o);
      maps := NoneRejected(files, most, o);
      var next := PatchAll(files, patches, o).files;
      assert (maps + [next])[..|maps|] == maps;
      maps := maps + [next];
    }
  }

  lemma {:induction false} NoneFails(files: Files, patches: seq<FilePatch>, o: Options, maps: seq<Files>)
    requires AllApply(maps, patches, o) && maps[0] == files
    ensures PatchAll(files, patches, o) == Run(maps[|patches|], false, false)
    decreases |patches|
  {
    if patches != [] {
      var most, last := patches[..|patches| - 1], patches[|patches| - 1];
      NoneFails(files, most, o, maps[..|patches|]);
      OneTurn(PatchAll(files, most, o), last, o);
    }
  }
}
