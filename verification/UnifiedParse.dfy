/** parseUnified: from the text of a unified diff to its hunks. */
module UnifiedParse {
  import opened Text
  import opened PatchApply

  datatype ParseError = MalformedHeader(line: nat) | HunkBeforeHeader | BadHunkHeader(header: string) | BadNumber

  datatype Result<T> = Ok(value: T) | Err(error: ParseError)

  // ----- the lines that are looked for

  /** strings.HasPrefix(l, "--- "). */
  predicate StartsOldName(l: string) {
    |l| >= 4 && l[0] == '-' && l[1] == '-' && l[2] == '-' && l[3] == ' '
  }

  /** strings.HasPrefix(l, "+++ "). */
  predicate StartsNewName(l: string) {
    |l| >= 4 && l[0] == '+' && l[1] == '+' && l[2] == '+' && l[3] == ' '
  }

  /** strings.HasPrefix(l, "@@"). */
  predicate StartsHunk(l: string) {
    |l| >= 2 && l[0] == '@' && l[1] == '@'
  }

  // ----- one hunk

  datatype Span = Span(start: int, length: int)

  /** The first comma from i on, or the end. */
  function CommaFrom(s: string, i: nat): (n: nat)
    requires i <= |s|
    ensures i <= n <= |s|
    decreases |s| - i
  {
    if i == |s| || s[i] == ',' then i else CommaFrom(s, i + 1)
  }

  /** "start,len", or "start" with a length of 1. */
  function ParseRange(s: string): Result<Span> {
    var comma := CommaFrom(s, 0);
    if comma < |s| then
      match Atoi(s[comma + 1..])
      case None => Err(BadNumber)
      case Some(length) =>
        match Atoi(s[..comma])
        case None => Err(BadNumber)
        case Some(start) => Ok(Span(start, length))
    else
      match Atoi(s)
      case None => Err(BadNumber)
      case Some(start) => Ok(Span(start, 1))
  }

  /** "@@ -l,s +l,s @@"; the hunk it heads is still without lines. */
  function ParseHunkHeader(s: string): (r: Result<Hunk>)
    ensures r.Ok? ==> r.value.lines == []
  {
    var fields := Fields(s);
    if |fields| < 3 || fields[0] != "@@" then Err(BadHunkHeader(s))
    else
      match ParseRange(TrimPrefix(fields[1], "-"))
      case Err(e) => Err(e)
      case Ok(old') =>
        match ParseRange(TrimPrefix(fields[2], "+"))
        case Err(e) => Err(e)
        case Ok(new') => Ok(Hunk(old'.start, old'.length, new'.start, new'.length, []))
  }

  /** Whether line i ends the body of a hunk. */
  predicate EndsBody(lines: seq<string>, i: nat) {
    || i >= |lines|
    || (lines[i] == "" && i == |lines| - 1)
    || StartsHunk(lines[i]) || StartsOldName(lines[i])
    || (lines[i] != "" && lines[i][0] != ' ' && lines[i][0] != '-' && lines[i][0] != '+' && lines[i][0] != '\\')
  }

  /** What line i adds to the body. */
  function BodyPart(l: string): seq<string> {
    if l == "" then [" "] else if l[0] == '\\' then [] else [l]
  }

  /** The body from line i on, and the line behind it. */
  function ParseBody(lines: seq<string>, i: nat): (r: (seq<string>, nat))
    ensures r.1 >= i
    decreases |lines| - i
  {
    if EndsBody(lines, i) then ([], i)
    else
      var (more, next) := ParseBody(lines, i + 1);
      (BodyPart(lines[i]) + more, next)
  }

  function ParseHunk(lines: seq<string>, start: nat): (r: Result<(Hunk, nat)>)
    requires start < |lines|
    ensures r.Ok? ==> r.value.1 > start
  {
    match ParseHunkHeader(lines[start])
    case Err(e) => Err(e)
    case Ok(h) =>
      var (body, next) := ParseBody(lines, start + 1);
      Ok((h.(lines := body), next))
  }

  function Joined(before: seq<string>, r: (seq<string>, nat)): (seq<string>, nat) {
    (before + r.0, r.1)
  }

  lemma BodyStep(lines: seq<string>, i: nat, before: seq<string>)
    requires !EndsBody(lines, i)
    ensures Joined(before, ParseBody(lines, i)) == Joined(before + BodyPart(lines[i]), ParseBody(lines, i + 1))
  {
    var more := ParseBody(lines, i + 1).0;
    assert before + (BodyPart(lines[i]) + more) == before + BodyPart(lines[i]) + more;
  }

  lemma BodyEnd(lines: seq<string>, i: nat, before: seq<string>)
    requires EndsBody(lines, i)
    ensures Joined(before, ParseBody(lines, i)) == (before, i)
  {
    assert before + [] == before;
  }

  method ReadBody(lines: seq<string>, start: nat) returns (body: seq<string>, i: nat)
    ensures (body, i) == ParseBody(lines, start)
  {
    body := [];
    i := start;
    assert [] + ParseBody(lines, start).0 == ParseBody(lines, start).0;
    while i < |lines|
      invariant ParseBody(lines, start) == Joined(body, ParseBody(lines, i))
    {
      var l := lines[i];
      if l == "" && i == |lines| - 1 {
        break;
      }
      if StartsHunk(l) || StartsOldName(l) {
        break;
      }
      if |l| == 0 {
        BodyStep(lines, i, body);
        body := body + [" "];
        i := i + 1;
        continue;
      }
      match l[0]
      case ' ' | '-' | '+' =>
        BodyStep(lines, i, body);
        body := body + [l];
        i := i + 1;
      case '\\' =>
        BodyStep(lines, i, body);
        assert body + [] == body;
        i := i + 1;
      case _ =>
        BodyEnd(lines, i, body);
        return;
    }
    BodyEnd(lines, i, body);
  }

  method ReadHunk(lines: seq<string>, start: nat) returns (r: Result<(Hunk, nat)>)
    requires start < |lines|
    ensures r == ParseHunk(lines, start)
  {
    var header := ParseHunkHeader(lines[start]);
    if header.Err? {
      return Err(header.error);
    }
    var body, i := ReadBody(lines, start + 1);
    return Ok((header.value.(lines := body), i));
  }

  // ----- the whole text

  /** The hunk goes to the file patch begun last. */
  function AddHunk(patches: seq<FilePatch>, h: Hunk): (r: seq<FilePatch>)
    requires patches != []
    ensures |r| == |patches|
  {
    var last := patches[|patches| - 1];
    patches[|patches| - 1 := last.(hunks := last.hunks + [h])]
  }

  /** The file patch two header lines begin: what follows "--- " and "+++ ", trimmed. */
  function Named(old': string, new': string): FilePatch
    requires StartsOldName(old') && StartsNewName(new')
  {
    FilePatch(TrimSpace(old'[4..]), TrimSpace(new'[4..]), [])
  }

  /** Where one turn of the loop leads: on to another line, or out with an error. */
  datatype Turn = Go(i: nat, patches: seq<FilePatch>) | Stop(error: ParseError)

  function ParseTurn(lines: seq<string>, i: nat, patches: seq<FilePatch>): (t: Turn)
    requires i < |lines|
    ensures t.Go? ==> t.i > i && |t.patches| >= |patches|
  {
    if StartsOldName(lines[i]) then
      if i + 1 >= |lines| || !StartsNewName(lines[i + 1]) then Stop(MalformedHeader(i + 1))
      else Go(i + 2, patches + [Named(lines[i], lines[i + 1])])
    else if StartsHunk(lines[i]) then
      if patches == [] then Stop(HunkBeforeHeader)
      else
        match ParseHunk(lines, i)
        case Err(e) => Stop(e)
        case Ok(hn) => Go(hn.1, AddHunk(patches, hn.0))
    else Go(i + 1, patches)
  }

  function ParseFrom(lines: seq<string>, i: nat, patches: seq<FilePatch>): Result<seq<FilePatch>>
    decreases |lines| - i
  {
    if i >= |lines| then Ok(patches)
    else
      match ParseTurn(lines, i, patches)
      case Stop(e) => Err(e)
      case Go(j, more) => ParseFrom(lines, j, more)
  }

  function Parse(text: string): Result<seq<FilePatch>> {
    ParseFrom(Split(text), 0, [])
  }

  method ParseUnified(text: string) returns (r: Result<seq<FilePatch>>)
    ensures r == Parse(text)
  {
    var lines := Split(text);
    var patches: seq<FilePatch> := [];
    var i := 0;
    while i < |lines|
      invariant Parse(text) == ParseFrom(lines, i, patches)
      decreases |lines| - i
    {
      if StartsOldName(lines[i]) {
        if i + 1 >= |lines| || !StartsNewName(lines[i + 1]) {
          return Err(MalformedHeader(i + 1));
        }
        patches := patches + [Named(lines[i], lines[i + 1])];
        i := i + 2;
      } else if StartsHunk(lines[i]) {
        if patches == [] {
          return Err(HunkBeforeHeader);
        }
        var h := ReadHunk(lines, i);
        if h.Err? {
          return Err(h.error);
        }
        patches := AddHunk(patches, h.value.0);
        i := h.value.1;
      } else {
        i := i + 1;
      }
    }
    return Ok(patches);
  }

  /** A file patch once begun is never dropped. */
  lemma {:induction false} PatchesGrow(lines: seq<string>, i: nat, patches: seq<FilePatch>)
    ensures ParseFrom(lines, i, patches).Ok? ==> |ParseFrom(lines, i, patches).value| >= |patches|
    decreases |lines| - i
  {
    if i < |lines| {
      var t := ParseTurn(lines, i, patches);
      if t.Go? {
        PatchesGrow(lines, t.i, t.patches);
      }
    }
  }

  // ----- parsed lines carry a tag

  predicate TaggedLine(l: string) {
    l != "" && (l[0] == ' ' || l[0] == '-' || l[0] == '+')
  }

  predicate Tagged(h: Hunk) {
    forall l :: l in h.lines ==> TaggedLine(l)
  }

  predicate AllTagged(patches: seq<FilePatch>) {
    forall fp :: fp in patches ==> forall h :: h in fp.hunks ==> Tagged(h)
  }

  lemma {:induction false} BodyTagged(lines: seq<string>, i: nat)
    ensures forall l :: l in ParseBody(lines, i).0 ==> TaggedLine(l)
    decreases |lines| - i
  {
    if !EndsBody(lines, i) {
      BodyTagged(lines, i + 1);
    }
  }

  lemma AddHunkTagged(patches: seq<FilePatch>, h: Hunk)
    requires patches != [] && AllTagged(patches) && Tagged(h)
    ensures AllTagged(AddHunk(patches, h))
  {
    var last := patches[|patches| - 1];
    assert last in patches;
    forall fp, g | fp in AddHunk(patches, h) && g in fp.hunks ensures Tagged(g) {
      if fp !in patches {
        assert fp == last.(hunks := last.hunks + [h]);
      }
    }
  }

  lemma TurnTagged(lines: seq<string>, i: nat, patches: seq<FilePatch>)
    requires i < |lines| && AllTagged(patches)
    ensures var t := ParseTurn(lines, i, patches); t.Go? ==> AllTagged(t.patches)
  {
    BodyTagged(lines, i + 1);
    if patches != [] && ParseHunk(lines, i).Ok? {
      AddHunkTagged(patches, ParseHunk(lines, i).value.0);
    }
  }

  /** Every line of every hunk that is read begins with a tag, so applying it never
      meets a line without one. */
  lemma {:induction false} ParsedTagged(lines: seq<string>, i: nat, patches: seq<FilePatch>)
    requires AllTagged(patches)
    ensures ParseFrom(lines, i, patches).Ok? ==> AllTagged(ParseFrom(lines, i, patches).value)
    decreases |lines| - i
  {
    if i < |lines| {
      TurnTagged(lines, i, patches);
      var t := ParseTurn(lines, i, patches);
      if t.Go? {
        ParsedTagged(lines, t.i, t.patches);
      }
    }
  }
}
