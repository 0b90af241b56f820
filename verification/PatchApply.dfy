/** applyHunks and reverseHunks: what a parsed unified diff does to a list of lines. */
module PatchApply {
  type Line = string

  /** One @@ block; each of its lines begins with ' ', '-' or '+'. */
  datatype Hunk = Hunk(oldStart: int, oldLen: int, newStart: int, newLen: int, lines: seq<Line>)

  /** Two of the errors are panics of the Go program: `Overlap`, where a hunk starts
      before the end of its predecessor and the file would be sliced backwards, and
      `EmptyLine`, a body line without the tag the parser always leaves on it. */
  datatype PatchError =
    BeyondEnd(start: int) | ContextMismatch(line: nat) | DeleteMismatch(line: nat) | Overlap | EmptyLine

  datatype Applied = Patched(lines: seq<Line>) | Failed(error: PatchError)

  /** What the body of one hunk leaves, and the line of the file behind it. */
  datatype Body = Done(out: seq<Line>, pos: nat) | Bad(error: PatchError)

  function ApplyBody(orig: seq<Line>, pos: nat, lines: seq<Line>): (r: Body)
    requires pos <= |orig|
    ensures r.Done? ==> pos <= r.pos <= |orig|
    decreases |lines|
  {
    if lines == [] then Done([], pos)
    else if lines[0] == "" then Bad(EmptyLine)
    else
      var tag, text := lines[0][0], lines[0][1..];
      if tag == ' ' then
        if pos >= |orig| || orig[pos] != text then Bad(ContextMismatch(pos + 1))
        else Emit([orig[pos]], ApplyBody(orig, pos + 1, lines[1..]))
      else if tag == '-' then
        if pos >= |orig| || orig[pos] != text then Bad(DeleteMismatch(pos + 1))
        else ApplyBody(orig, pos + 1, lines[1..])
      else if tag == '+' then Emit([text], ApplyBody(orig, pos, lines[1..]))
      else ApplyBody(orig, pos, lines[1..])
  }

  function Emit(out: seq<Line>, r: Body): Body {
    match r
    case Done(more, pos) => Done(out + more, pos)
    case Bad(e) => Bad(e)
  }

  function Before(out: seq<Line>, r: Applied): Applied {
    match r
    case Patched(more) => Patched(out + more)
    case Failed(e) => Failed(e)
  }

  const MIN_INT := -0x8000_0000_0000_0000

  /** start - 1 on 64-bit integers: below the least of them comes the greatest. */
  function Previous(start: int): int {
    if start == MIN_INT then -1 - MIN_INT else start - 1
  }

  /** The line, counted from 0, at which a hunk with this start begins. */
  function Target(start: int): nat {
    if Previous(start) < 0 then 0 else Previous(start)
  }

  function ApplyFrom(orig: seq<Line>, pos: nat, hunks: seq<Hunk>): Applied
    requires pos <= |orig|
    decreases |hunks|
  {
    if hunks == [] then Patched(orig[pos..])
    else
      var h, target := hunks[0], Target(hunks[0].oldStart);
      if target > |orig| then Failed(BeyondEnd(h.oldStart))
      else if target < pos then Failed(Overlap)
      else
        match ApplyBody(orig, target, h.lines)
        case Bad(e) => Failed(e)
        case Done(out, pos') => Before(orig[pos..target] + out, ApplyFrom(orig, pos', hunks[1..]))
  }

  function Apply(orig: seq<Line>, hunks: seq<Hunk>): Applied {
    ApplyFrom(orig, 0, hunks)
  }

  method ApplyHunkBody(orig: seq<Line>, start: nat, lines: seq<Line>) returns (r: Body)
    requires start <= |orig|
    ensures r == ApplyBody(orig, start, lines)
  {
    var out: seq<Line> := [];
    var pos := start;
    for k := 0 to |lines|
      invariant start <= pos <= |orig|
      invariant ApplyBody(orig, start, lines) == Emit(out, ApplyBody(orig, pos, lines[k..]))
    {
      var l := lines[k];
      assert lines[k..][0] == l && lines[k..][1..] == lines[k + 1..];
      if l == "" {
        return Bad(EmptyLine);
      }
      match l[0]
      case ' ' =>
        if pos >= |orig| || orig[pos] != l[1..] {
          return Bad(ContextMismatch(pos + 1));
        }
        EmitEmit(out, [orig[pos]], ApplyBody(orig, pos + 1, lines[k + 1..]));
        out := out + [orig[pos]];
        pos := pos + 1;
      case '-' =>
        if pos >= |orig| || orig[pos] != l[1..] {
          return Bad(DeleteMismatch(pos + 1));
        }
        pos := pos + 1;
      case '+' =>
        EmitEmit(out, [l[1..]], ApplyBody(orig, pos, lines[k + 1..]));
        out := out + [l[1..]];
      case _ =>
    }
    assert out + [] == out;
    return Done(out, pos);
  }

  method ApplyHunks(orig: seq<Line>, hunks: seq<Hunk>) returns (r: Applied)
    ensures r == Apply(orig, hunks)
  {
    var out: seq<Line> := [];
    var pos: nat := 0;
    BeforeNothing(Apply(orig, hunks));
    for k := 0 to |hunks|
      invariant pos <= |orig|
      invariant Apply(orig, hunks) == Before(out, ApplyFrom(orig, pos, hunks[k..]))
    {
      var h := hunks[k];
      assert hunks[k..][0] == h && hunks[k..][1..] == hunks[k + 1..];
      var target := Previous(h.oldStart);
      if target < 0 {
        target := 0;
      }
      if target > |orig| {
        return Failed(BeyondEnd(h.oldStart));
      }
      if target < pos {
        return Failed(Overlap);
      }
      var body := ApplyHunkBody(orig, target, h.lines);
      if body.Bad? {
        return Failed(body.error);
      }
      BeforeBefore(out, orig[pos..target] + body.out, ApplyFrom(orig, body.pos, hunks[k + 1..]));
      out := out + (orig[pos..target] + body.out);
      pos := body.pos;
    }
    return Patched(out + orig[pos..]);
  }

  /** One hunk that applies, in front of the rest. */
  lemma ApplyStep(orig: seq<Line>, pos: nat, hunks: seq<Hunk>, out: seq<Line>, pos': nat, more: seq<Line>)
    requires hunks != [] && pos <= Target(hunks[0].oldStart) <= |orig|
    requires ApplyBody(orig, Target(hunks[0].oldStart), hunks[0].lines) == Done(out, pos')
    requires ApplyFrom(orig, pos', hunks[1..]) == Patched(more)
    ensures ApplyFrom(orig, pos, hunks) == Patched(orig[pos..Target(hunks[0].oldStart)] + out + more)
  {
  }

  lemma EmitEmit(x: seq<Line>, y: seq<Line>, r: Body)
    ensures Emit(x, Emit(y, r)) == Emit(x + y, r)
  {
    if r.Done? {
      assert x + (y + r.out) == x + y + r.out;
    }
  }

  lemma BeforeNothing(r: Applied)
    ensures Before([], r) == r
  {
    if r.Patched? {
      assert [] + r.lines == r.lines;
    }
  }

  lemma BeforeBefore(x: seq<Line>, y: seq<Line>, r: Applied)
    ensures Before(x, Before(y, r)) == Before(x + y, r)
  {
    if r.Patched? {
      assert x + (y + r.lines) == x + y + r.lines;
    }
  }

  // ----- reversing

  function ReverseLine(l: Line): Line {
    if l == "" then l
    else if l[0] == '-' then "+" + l[1..]
    else if l[0] == '+' then "-" + l[1..]
    else l
  }

  function ReverseLines(lines: seq<Line>): (r: seq<Line>)
    ensures |r| == |lines|
  {
    seq(|lines|, k requires 0 <= k < |lines| => ReverseLine(lines[k]))
  }

  function ReverseHunk(h: Hunk): Hunk {
    Hunk(h.newStart, h.newLen, h.oldStart, h.oldLen, ReverseLines(h.lines))
  }

  function Reverse(hunks: seq<Hunk>): (r: seq<Hunk>)
    ensures |r| == |hunks|
  {
    seq(|hunks|, k requires 0 <= k < |hunks| => ReverseHunk(hunks[k]))
  }

  /** The hunks of one file, with its --- and +++ names. */
  datatype FilePatch = FilePatch(oldName: string, newName: string, hunks: seq<Hunk>)

  /** A file patch that is edited in place before it is applied. */
  class PatchedFile {
    var oldName: string
    var newName: string
    var hunks: seq<Hunk>

    constructor (fp: FilePatch)
      ensures FilePatch(oldName, newName, hunks) == fp
    {
      oldName, newName, hunks := fp.oldName, fp.newName, fp.hunks;
    }

    method ReverseHunks()
      modifies this`hunks
      ensures hunks == Reverse(old(hunks))
    {
      ghost var before := hunks;
      for hi := 0 to |hunks|
        invariant |hunks| == |before|
        invariant forall k :: 0 <= k < |hunks| ==> hunks[k] == if k < hi then ReverseHunk(before[k]) else before[k]
      {
        var h := hunks[hi];
        h := h.(oldStart := h.newStart, newStart := h.oldStart);
        h := h.(oldLen := h.newLen, newLen := h.oldLen);
        var lines := h.lines;
        for li := 0 to |lines|
          invariant |lines| == |h.lines|
          invariant forall k :: 0 <= k < |lines| ==> lines[k] == if k < li then ReverseLine(h.lines[k]) else h.lines[k]
        {
          var l := lines[li];
          if l != "" {
            match l[0]
            case '-' => lines := lines[li := "+" + l[1..]];
            case '+' => lines := lines[li := "-" + l[1..]];
            case _ =>
          }
        }
        assert lines == ReverseLines(before[hi].lines);
        hunks := hunks[hi := h.(lines := lines)];
      }
      assert hunks == Reverse(before);
    }
  }

  lemma ReverseInvolution(hunks: seq<Hunk>)
    ensures Reverse(Reverse(hunks)) == hunks
  {
    forall k | 0 <= k < |hunks| ensures Reverse(Reverse(hunks))[k] == hunks[k] {
      var lines := hunks[k].lines;
      forall i | 0 <= i < |lines| ensures ReverseLine(ReverseLine(lines[i])) == lines[i] {
        if lines[i] != "" {
          assert lines[i] == [lines[i][0]] + lines[i][1..];
          assert ("+" + lines[i][1..])[1..] == lines[i][1..] && ("-" + lines[i][1..])[1..] == lines[i][1..];
        }
      }
      assert ReverseLines(ReverseLines(lines)) == lines;
    }
  }

  // ----- un-applying

  function OldCount(lines: seq<Line>): nat {
    if lines == [] then 0 else (if lines[0] != "" && (lines[0][0] == ' ' || lines[0][0] == '-') then 1 else 0) + OldCount(lines[1..])
  }

  function NewCount(lines: seq<Line>): nat {
    if lines == [] then 0 else (if lines[0] != "" && (lines[0][0] == ' ' || lines[0][0] == '+') then 1 else 0) + NewCount(lines[1..])
  }

  /** From line p of the old file and line q of the new one, the hunks leave the same
      number of lines untouched before each of them on both sides. */
  predicate Consistent(hunks: seq<Hunk>, p: nat, q: nat) {
    hunks != [] ==>
      var h := hunks[0];
      var t, u := Target(h.oldStart), Target(h.newStart);
      p <= t && q <= u && t - p == u - q && Consistent(hunks[1..], t + OldCount(h.lines), u + NewCount(h.lines))
  }

  lemma ReversedFront(lines: seq<Line>)
    requires lines != [] && lines[0] != ""
    ensures var reversed := ReverseLines(lines); var tag := lines[0][0];
      && |reversed| == |lines| && reversed[1..] == ReverseLines(lines[1..])
      && reversed[0] != "" && reversed[0][1..] == lines[0][1..]
      && reversed[0][0] == if tag == '-' then '+' else if tag == '+' then '-' else tag
  {
    assert lines[0] == [lines[0][0]] + lines[0][1..];
    assert ("+" + lines[0][1..])[1..] == lines[0][1..] && ("-" + lines[0][1..])[1..] == lines[0][1..];
  }

  /** The body has put out what stands in b at u, and reversed it takes it back. */
  predicate TakesBack(a: seq<Line>, t: nat, b: seq<Line>, u: nat, lines: seq<Line>)
    requires t <= |a| && u <= |b| && ApplyBody(a, t, lines).Done?
  {
    var r := ApplyBody(a, t, lines);
    && r.pos == t + OldCount(lines) && |r.out| == NewCount(lines)
    && ApplyBody(b, u, ReverseLines(lines)) == Done(a[t..r.pos], u + |r.out|)
  }

  lemma {:induction false} UndoBody(a: seq<Line>, t: nat, b: seq<Line>, u: nat, lines: seq<Line>)
    requires t <= |a| && u <= |b|
    requires ApplyBody(a, t, lines).Done? && ApplyBody(a, t, lines).out <= b[u..]
    ensures TakesBack(a, t, b, u, lines)
    decreases |lines|
  {
    if lines == [] {
      assert a[t..t] == [];
    } else {
      var tag := lines[0][0];
      var taken, put := tag == ' ' || tag == '-', tag == ' ' || tag == '+';
      if put {
        PutFirst(a, t, b, u, lines);
      }
      var t', u' := if taken then t + 1 else t, if put then u + 1 else u;
      UndoBody(a, t', b, u', lines[1..]);
      UndoLine(a, t, b, u, lines, t', u');
    }
  }

  lemma PutFirst(a: seq<Line>, t: nat, b: seq<Line>, u: nat, lines: seq<Line>)
    requires t <= |a| && u <= |b| && lines != []
    requires ApplyBody(a, t, lines).Done? && ApplyBody(a, t, lines).out <= b[u..]
    requires lines[0][0] == ' ' || lines[0][0] == '+'
    ensures u < |b| && b[u] == lines[0][1..]
    ensures ApplyBody(a, if lines[0][0] == ' ' then t + 1 else t, lines[1..]).out <= b[u + 1..]
  {
    var out := ApplyBody(a, t, lines).out;
    assert out[0] == b[u..][0] && out[1..] <= b[u + 1..];
    assert out[1..] == ApplyBody(a, if lines[0][0] == ' ' then t + 1 else t, lines[1..]).out;
  }

  lemma UndoLine(a: seq<Line>, t: nat, b: seq<Line>, u: nat, lines: seq<Line>, t': nat, u': nat)
    requires t <= |a| && u <= |b| && lines != [] && ApplyBody(a, t, lines).Done?
    requires var tag := lines[0][0];
      && t' == (if tag == ' ' || tag == '-' then t + 1 else t) <= |a|
      && u' == (if tag == ' ' || tag == '+' then u + 1 else u) <= |b|
      && (tag == ' ' || tag == '+' ==> b[u] == lines[0][1..])
    requires ApplyBody(a, t', lines[1..]).Done? && TakesBack(a, t', b, u', lines[1..])
    ensures TakesBack(a, t, b, u, lines)
  {
    ReversedFront(lines);
    var r := ApplyBody(a, t, lines);
    if t' > t {
      assert a[t..r.pos] == [a[t]] + a[t'..r.pos];
    }
  }

  /** If hunks with consistent positions turn a, from p on, into the part of b from q
      on, the reversed hunks turn it back. */
  lemma {:induction false} UndoFrom(a: seq<Line>, p: nat, b: seq<Line>, q: nat, hunks: seq<Hunk>)
    requires p <= |a| && q <= |b| && Consistent(hunks, p, q)
    requires ApplyFrom(a, p, hunks) == Patched(b[q..])
    ensures ApplyFrom(b, q, Reverse(hunks)) == Patched(a[p..])
    decreases |hunks|
  {
    if hunks != [] {
      var t, p', u, q' := PeelBoth(a, p, b, q, hunks);
      UndoFrom(a, p', b, q', hunks[1..]);
      UndoStep(a, p, t, p', b, q, u, q', hunks);
    }
  }

  /** The first hunk takes a[t..p'] to b[u..q'], and its reverse takes it back. */
  lemma PeelBoth(a: seq<Line>, p: nat, b: seq<Line>, q: nat, hunks: seq<Hunk>)
    returns (t: nat, p': nat, u: nat, q': nat)
    requires p <= |a| && q <= |b| && Consistent(hunks, p, q)
    requires hunks != [] && ApplyFrom(a, p, hunks) == Patched(b[q..])
    ensures p <= t <= p' <= |a| && q <= u <= q' <= |b|
    ensures u == Target(hunks[0].newStart) && b[q..u] == a[p..t]
    ensures ApplyBody(b, u, ReverseLines(hunks[0].lines)) == Done(a[t..p'], q')
    ensures ApplyFrom(a, p', hunks[1..]) == Patched(b[q'..]) && Consistent(hunks[1..], p', q')
  {
    ConsistentRest(hunks, p, q);
    t, u := Target(hunks[0].oldStart), Target(hunks[0].newStart);
    var out, next, more := Peel(a, p, hunks, b[q..]);
    CutInThree(b, q, a[p..t], out, more);
    UndoBody(a, t, b, u, hunks[0].lines);
    p', q' := next, u + |out|;
  }

  lemma ConsistentRest(hunks: seq<Hunk>, p: nat, q: nat)
    requires hunks != [] && Consistent(hunks, p, q)
    ensures var h := hunks[0];
      var t, u := Target(h.oldStart), Target(h.newStart);
      p <= t && q <= u && t - p == u - q && Consistent(hunks[1..], t + OldCount(h.lines), u + NewCount(h.lines))
  {
  }

  lemma ConsistentCons(hunks: seq<Hunk>, p: nat, q: nat, p': nat, q': nat)
    requires hunks != []
    requires p <= Target(hunks[0].oldStart) && q <= Target(hunks[0].newStart)
    requires Target(hunks[0].oldStart) - p == Target(hunks[0].newStart) - q
    requires p' == Target(hunks[0].oldStart) + OldCount(hunks[0].lines)
    requires q' == Target(hunks[0].newStart) + NewCount(hunks[0].lines)
    requires Consistent(hunks[1..], p', q')
    ensures Consistent(hunks, p, q)
  {
  }

  /** What the first hunk contributes to a result. */
  lemma Peel(a: seq<Line>, p: nat, hunks: seq<Hunk>, z: seq<Line>) returns (out: seq<Line>, p': nat, more: seq<Line>)
    requires p <= |a| && hunks != [] && ApplyFrom(a, p, hunks) == Patched(z)
    ensures var t := Target(hunks[0].oldStart);
      && p <= t <= p' <= |a| && ApplyBody(a, t, hunks[0].lines) == Done(out, p')
      && z == a[p..t] + out + more
    ensures ApplyFrom(a, p', hunks[1..]) == Patched(more)
  {
    var r := ApplyBody(a, Target(hunks[0].oldStart), hunks[0].lines);
    out, p' := r.out, r.pos;
    more := ApplyFrom(a, p', hunks[1..]).lines;
  }

  lemma UndoStep(a: seq<Line>, p: nat, t: nat, p': nat, b: seq<Line>, q: nat, u: nat, q': nat, hunks: seq<Hunk>)
    requires p <= t <= p' <= |a| && q <= u <= q' <= |b| && hunks != []
    requires u == Target(hunks[0].newStart) && b[q..u] == a[p..t]
    requires ApplyBody(b, u, ReverseLines(hunks[0].lines)) == Done(a[t..p'], q')
    requires ApplyFrom(b, q', Reverse(hunks[1..])) == Patched(a[p'..])
    ensures ApplyFrom(b, q, Reverse(hunks)) == Patched(a[p..])
  {
    var reversed := Reverse(hunks);
    assert reversed[0] == ReverseHunk(hunks[0]) && reversed[1..] == Reverse(hunks[1..]);
    ApplyStep(b, q, reversed, a[t..p'], q', a[p'..]);
    InThree(a, p, t, p');
  }

  lemma InThree(a: seq<Line>, p: nat, t: nat, p': nat)
    requires p <= t <= p' <= |a|
    ensures a[p..] == a[p..t] + a[t..p'] + a[p'..]
  {
  }

  lemma CutInThree(b: seq<Line>, q: nat, x: seq<Line>, y: seq<Line>, z: seq<Line>)
    requires q <= |b| && b[q..] == x + y + z
    ensures q + |x| + |y| <= |b| && b[q..q + |x|] == x
    ensures y <= b[q + |x|..] && b[q + |x| + |y|..] == z
  {
    assert b[q..][..|x|] == x;
    assert b[q..][|x|..] == b[q + |x|..] == y + z;
    assert b[q..][|x| + |y|..] == b[q + |x| + |y|..];
  }

  lemma Undo(a: seq<Line>, b: seq<Line>, hunks: seq<Hunk>)
    requires Consistent(hunks, 0, 0)
    requires Apply(a, hunks) == Patched(b)
    ensures Apply(b, Reverse(hunks)) == Patched(a)
  {
    assert b[0..] == b && a[0..] == a;
    UndoFrom(a, 0, b, 0, hunks);
  }
}
