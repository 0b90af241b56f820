/** patch as a whole: the text is read, and each file patch is applied to the file it is
    for. */
module PatchRun {
  import opened Text
  import opened PatchApply
  import opened UnifiedParse
  import opened PatchDistance

  // ----- names

  /** The first occurrence of c from i on, or the end. */
  function IndexFrom(s: string, c: char, i: nat): (n: nat)
    requires i <= |s|
    ensures i <= n <= |s|
    decreases |s| - i
  {
    if i == |s| || s[i] == c then i else IndexFrom(s, c, i + 1)
  }

  /** The name without its first n components; it is kept where no slash is left. */
  function DropComponents(name: string, n: int): string
    decreases n
  {
    if n <= 0 then name
    else
      var slash := IndexFrom(name, '/', 0);
      DropComponents(if slash < |name| then name[slash + 1..] else name, n - 1)
  }

  /** stripComponents: a time stamp behind a tab is no part of the name. */
  function StripComponents(name: string, n: int): string {
    var trimmed := TrimSpace(name);
    DropComponents(trimmed[..IndexFrom(trimmed, '\t', 0)], n)
  }

  /** What the command line says: a file operand if not empty, -p and -R. */
  datatype Options = Options(operand: string, strip: int, reverse: bool)

  function TargetName(fp: FilePatch, o: Options): string {
    if o.operand != "" then o.operand
    else StripComponents(if o.reverse then fp.oldName else fp.newName, o.strip)
  }

  function HunksFor(fp: FilePatch, o: Options): seq<Hunk> {
    if o.reverse then Reverse(fp.hunks) else fp.hunks
  }

  // ----- the run

  type Files = map<string, seq<Line>>

  /** The files afterwards, whether the exit status is 1, and whether the program was
      stopped by an index out of range. */
  datatype Run = Run(files: Files, failed: bool, stopped: bool)

  function PatchOne(r: Run, fp: FilePatch, o: Options): Run {
    var name := TargetName(fp, o);
    if r.stopped then r
    else if name !in r.files then r.(failed := true)
    else
      match Apply(r.files[name], HunksFor(fp, o))
      case Patched(lines) => r.(files := r.files[name := lines])
      case Failed(Overlap) => r.(stopped := true)
      case Failed(EmptyLine) => r.(stopped := true)
      case Failed(_) => r.(failed := true)
  }

  function PatchAll(files: Files, patches: seq<FilePatch>, o: Options): Run {
    if patches == [] then Run(files, false, false)
    else PatchOne(PatchAll(files, patches[..|patches| - 1], o), patches[|patches| - 1], o)
  }

  function PatchText(files: Files, text: string, o: Options): Run {
    match Parse(text)
    case Err(_) => Run(files, true, false)
    case Ok(patches) => if patches == [] then Run(files, true, false) else PatchAll(files, patches, o)
  }

  /** One turn of the loop. */
  method PatchFile(r: Run, patch: FilePatch, o: Options) returns (r': Run)
    requires !r.stopped
    ensures r' == PatchOne(r, patch, o)
  {
    var fp := new PatchedFile(patch);
    var name := TargetName(patch, o);
    if o.reverse {
      fp.ReverseHunks();
    }
    if name !in r.files {
      return r.(failed := true);
    }
    var applied := ApplyHunks(r.files[name], fp.hunks);
    match applied
    case Patched(lines) => r' := r.(files := r.files[name := lines]);
    case Failed(Overlap) => r' := r.(stopped := true);
    case Failed(EmptyLine) => r' := r.(stopped := true);
    case Failed(_) => r' := r.(failed := true);
  }

  method RunPatch(files: Files, text: string, o: Options) returns (r: Run)
    ensures r == PatchText(files, text, o)
  {
    var parsed := ParseUnified(text);
    if parsed.Err? || parsed.value == [] {
      return Run(files, true, false);
    }
    var patches := parsed.value;
    r := Run(files, false, false);
    for i := 0 to |patches|
      invariant r == PatchAll(files, patches[..i], o) && !r.stopped
    {
      assert patches[..i + 1][..i] == patches[..i];
      r := PatchFile(r, patches[i], o);
      if r.stopped {
        StaysStopped(files, patches, i + 1, o);
        return;
      }
    }
    assert patches[..|patches|] == patches;
  }

  lemma {:induction false} StaysStopped(files: Files, patches: seq<FilePatch>, n: nat, o: Options)
    requires n <= |patches| && PatchAll(files, patches[..n], o).stopped
    ensures PatchAll(files, patches, o) == PatchAll(files, patches[..n], o)
  {
    if n < |patches| {
      var most := patches[..|patches| - 1];
      assert most[..n] == patches[..n];
      StaysStopped(files, most, n, o);
    } else {
      assert patches[..n] == patches;
    }
  }

  // ----- how far a run takes a file

  function AllEdits(patches: seq<FilePatch>): nat {
    if patches == [] then 0
    else AllEdits(patches[..|patches| - 1]) + HunkEdits(patches[|patches| - 1].hunks)
  }

  /** A run brings no file nearer to any b than all its hunks together have edits. */
  lemma {:induction false} RunMoves(files: Files, patches: seq<FilePatch>, o: Options, name: string, b: seq<Line>)
    requires name in files
    ensures var r := PatchAll(files, patches, o);
      name in r.files && Distance(files[name], b) <= Distance(r.files[name], b) + AllEdits(patches)
  {
    if patches != [] {
      var last, most := patches[|patches| - 1], patches[..|patches| - 1];
      RunMoves(files, most, o, name, b);
      ReverseEdits(last.hunks);
      var before := PatchAll(files, most, o);
      if TargetName(last, o) == name && Apply(before.files[name], HunksFor(last, o)).Patched? {
        ApplyMoves(before.files[name], HunksFor(last, o), b);
      }
    }
  }

  // ----- how many edits are read from a text

  /** The lines of the text from i on that begin with a minus or a plus. */
  function EditsFrom(lines: seq<string>, i: nat): nat
    decreases |lines| - i
  {
    if i >= |lines| then 0 else LineEdits(lines[i]) + EditsFrom(lines, i + 1)
  }

  lemma {:induction false} BodyEdits(lines: seq<string>, i: nat)
    ensures var (body, next) := ParseBody(lines, i); Edits(body) + EditsFrom(lines, next) == EditsFrom(lines, i)
    decreases |lines| - i
  {
    if !EndsBody(lines, i) {
      BodyEdits(lines, i + 1);
      var more := ParseBody(lines, i + 1).0;
      var part := BodyPart(lines[i]);
      if part == [] {
        assert part + more == more;
      } else {
        assert (part + more)[0] == part[0] && (part + more)[1..] == more;
      }
    }
  }

  lemma AddHunkEdits(patches: seq<FilePatch>, h: Hunk)
    requires patches != []
    ensures AllEdits(AddHunk(patches, h)) == AllEdits(patches) + Edits(h.lines)
  {
    var more, last := AddHunk(patches, h), patches[|patches| - 1];
    assert more[..|more| - 1] == patches[..|patches| - 1];
    HunkEditsAppend(last.hunks, h);
  }

  lemma NewFileEdits(patches: seq<FilePatch>, fp: FilePatch)
    ensures AllEdits(patches + [fp]) == AllEdits(patches) + HunkEdits(fp.hunks)
  {
    assert (patches + [fp])[..|patches|] == patches;
  }

  lemma TurnEdits(lines: seq<string>, i: nat, patches: seq<FilePatch>, t: Turn)
    requires i < |lines| && t == ParseTurn(lines, i, patches) && t.Go?
    ensures AllEdits(t.patches) + EditsFrom(lines, t.i) <= AllEdits(patches) + EditsFrom(lines, i)
    ensures StartsOldName(lines[i]) ==> AllEdits(t.patches) + EditsFrom(lines, t.i) < AllEdits(patches) + EditsFrom(lines, i)
  {
    if StartsOldName(lines[i]) {
      NewFileEdits(patches, Named(lines[i], lines[i + 1]));
    } else if StartsHunk(lines[i]) {
      BodyEdits(lines, i + 1);
      AddHunkEdits(patches, ParseHunk(lines, i).value.0);
    }
  }

  /** What is read has no more edits than the text has such lines. */
  lemma {:induction false} ParsedEdits(lines: seq<string>, i: nat, patches: seq<FilePatch>)
    ensures var r := ParseFrom(lines, i, patches);
      r.Ok? ==> AllEdits(r.value) <= AllEdits(patches) + EditsFrom(lines, i)
    decreases |lines| - i
  {
    if i < |lines| {
      var t := ParseTurn(lines, i, patches);
      if t.Go? {
        TurnEdits(lines, i, patches, t);
        ParsedEdits(lines, t.i, t.patches);
      }
    }
  }

  /** A body line taken for a file header is lost. */
  lemma HeaderLosesEdit(lines: seq<string>, i: nat, patches: seq<FilePatch>)
    requires i < |lines| && StartsOldName(lines[i])
    ensures var r := ParseFrom(lines, i, patches);
      r.Ok? ==> |r.value| > |patches| && AllEdits(r.value) < AllEdits(patches) + EditsFrom(lines, i)
  {
    var t := ParseTurn(lines, i, patches);
    if t.Go? {
      TurnEdits(lines, i, patches, t);
      ParsedEdits(lines, t.i, t.patches);
      PatchesGrow(lines, t.i, t.patches);
    }
  }
}
