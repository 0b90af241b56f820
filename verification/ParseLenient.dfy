/** What parseUnified puts up with, and what it reports. */
module ParseLenient {
  import opened Text
  import opened PatchApply
  import opened UnifiedParse

  /** Lines that are neither a file header nor a hunk header. */
  predicate Junk(lines: seq<string>, i: nat, j: nat)
    requires i <= j <= |lines|
    decreases j - i
  {
    i < j ==> !StartsOldName(lines[i]) && !StartsHunk(lines[i]) && Junk(lines, i + 1, j)
  }

  /** Between file patches such lines make no difference. */
  lemma {:induction false} JunkSkipped(lines: seq<string>, i: nat, j: nat, patches: seq<FilePatch>)
    requires i <= j <= |lines| && Junk(lines, i, j)
    ensures ParseFrom(lines, i, patches) == ParseFrom(lines, j, patches)
    decreases j - i
  {
    if i < j {
      JunkSkipped(lines, i + 1, j, patches);
    }
  }

  /** A text without any header holds no patch; one whose first header is that of a hunk,
      or a "--- " line without a "+++ " line behind it, is an error that names the line. */
  lemma FirstHeader(text: string, n: nat)
    requires var lines := Split(text); n <= |lines| && Junk(lines, 0, n)
    ensures var lines := Split(text);
      && (n == |lines| ==> Parse(text) == Ok([]))
      && (n < |lines| && StartsHunk(lines[n]) ==> Parse(text) == Err(HunkBeforeHeader))
      && (n < |lines| && StartsOldName(lines[n]) && (n + 1 == |lines| || !StartsNewName(lines[n + 1]))
          ==> Parse(text) == Err(MalformedHeader(n + 1)))
  {
    JunkSkipped(Split(text), 0, n, []);
  }

  /** The lines from i to end stand for a body: a context line that is blank may have lost
      its blank, unless it is the last line of the text, and there may be lines that begin
      with a backslash, which say nothing about the body. */
  predicate StandsFor(lines: seq<string>, i: nat, end: nat, body: seq<string>)
    requires i <= end <= |lines|
    decreases end - i
  {
    if i == end then body == []
    else if lines[i] != "" && lines[i][0] == '\\' then StandsFor(lines, i + 1, end, body)
    else
      && body != [] && StandsFor(lines, i + 1, end, body[1..])
      && (|| (lines[i] == body[0] && TaggedLine(body[0]) && !StartsOldName(body[0]))
          || (lines[i] == "" && body[0] == " " && i < |lines| - 1))
  }

  lemma {:induction false} BodyRead(lines: seq<string>, i: nat, end: nat, body: seq<string>)
    requires i <= end <= |lines| && StandsFor(lines, i, end, body) && EndsBody(lines, end)
    ensures ParseBody(lines, i) == (body, end)
    decreases end - i
  {
    if i < end {
      if lines[i] != "" && lines[i][0] == '\\' {
        BodyRead(lines, i + 1, end, body);
        assert [] + body == body;
      } else {
        BodyRead(lines, i + 1, end, body[1..]);
        assert [body[0]] + body[1..] == body;
      }
    }
  }

  /** A hunk header of fewer than three words, or with another first word than "@@", or
      whose ranges are not numbers, makes the whole text an error. */
  lemma BadHeaderFails(lines: seq<string>, i: nat, patches: seq<FilePatch>)
    requires i < |lines| && StartsHunk(lines[i]) && !StartsOldName(lines[i]) && patches != []
    ensures var fields := Fields(lines[i]);
      && (|fields| < 3 || fields[0] != "@@" ==> ParseFrom(lines, i, patches) == Err(BadHunkHeader(lines[i])))
      && (|fields| >= 3 && fields[0] == "@@"
          && (ParseRange(TrimPrefix(fields[1], "-")).Err? || ParseRange(TrimPrefix(fields[2], "+")).Err?)
          ==> ParseFrom(lines, i, patches) == Err(BadNumber))
  {
  }

  /** A range without a comma is one number, and stands for one line. */
  lemma RangeNumbers(s: string)
    requires ',' !in s
    ensures ParseRange(s) == match Atoi(s) case Some(n) => Ok(Span(n, 1)) case None => Err(BadNumber)
  {
    NoComma(s, 0);
  }

  lemma {:induction false} NoComma(s: string, i: nat)
    requires i <= |s| && ',' !in s
    ensures CommaFrom(s, i) == |s|
    decreases |s| - i
  {
    if i < |s| {
      assert s[i] in s;
      NoComma(s, i + 1);
    }
  }
}
