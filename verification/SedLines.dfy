/** What one command does to all lines, in terms of the lines alone. */
module SedLines {
  import opened Sequences
  import opened Text
  import opened SedSelect
  import opened SedEditor
  import opened SedRanges

  /** The lines that pass, or fail, a test. */
  function Filter(lines: seq<string>, test: string -> bool, wanted: bool): seq<string> {
    if lines == [] then [] else (if test(lines[0]) == wanted then [lines[0]] else []) + Filter(lines[1..], test, wanted)
  }

  function Single(a: Option<Address>, action: Action): seq<Cmd> {
    [Cmd(a, None, action)]
  }

  /** One line under one command without a range: the flag stays as it is. */
  lemma SingleLine(a: Option<Address>, action: Action, lineNo: nat, last: nat, line: string)
    ensures var r := RunLine(Single(a, action), [false], 0, lineNo, last, line);
      var hit := a.Some? ==> MatchAddr(a.value, lineNo, last, line);
      && r.flags == [false]
      && r.pattern == (if hit && action.Substitute? then action.apply(line) else line)
      && (r.deleted <==> hit && action.Delete?) && (r.quit <==> hit && action.Quit?)
      && r.out == if !hit then [] else match action
                  case Print => [line]
                  case Substitute(apply, prints) => (if prints(line) then [apply(line)] else [])
                  case _ => []
  {
    assert [false][0 := false] == [false];
    var program := Single(a, action);
    var next := if action.Substitute? then action.apply(line) else line;
    assert RunLine(program, [false], 1, lineNo, last, next) == LineResult(next, false, false, [false], []);
    assert RunLine(program, [false], 1, lineNo, last, line) == LineResult(line, false, false, [false], []);
  }

  lemma Next(a: Option<Address>, action: Action, quiet: bool, lines: seq<string>, k: nat)
    requires k < |lines|
    ensures var r := RunLine(Single(a, action), [false], 0, k + 1, |lines|, lines[k]);
      RunLines(Single(a, action), [false], quiet, lines, k)
      == Shown(r, quiet) + if r.quit then [] else RunLines(Single(a, action), [false], quiet, lines, k + 1)
  {
    SingleLine(a, action, k + 1, |lines|, lines[k]);
  }

  // ----- commands in sequence

  /** The rest of a program behind its first commands is what these commands are without
      them. */
  lemma {:induction false} RestAlone(p: seq<Cmd>, q: seq<Cmd>, f: seq<bool>, g: seq<bool>, j: nat, lineNo: nat, last: nat, line: string)
    requires |f| == |p| && |g| == |q| && j <= |q|
    ensures var t := RunLine(q, g, j, lineNo, last, line);
      RunLine(p + q, f + g, |p| + j, lineNo, last, line) == t.(flags := f + t.flags)
    decreases |q| - j
  {
    if j < |q| {
      var c := q[j];
      var active := Select(c, g[j], lineNo, last, line).1;
      assert (p + q)[|p| + j] == c && (f + g)[|p| + j] == g[j];
      assert (f + g)[|p| + j := active] == f + g[j := active];
      RestAlone(p, q, f, g[j := active], j + 1, lineNo, last, line);
      if c.action.Substitute? {
        RestAlone(p, q, f, g[j := active], j + 1, lineNo, last, c.action.apply(line));
      }
    }
  }

  /** What comes behind the result of the first commands. */
  function Then(r: LineResult, q: seq<Cmd>, g: seq<bool>, lineNo: nat, last: nat): LineResult
    requires |g| == |q|
  {
    if r.deleted || r.quit then r.(flags := r.flags + g)
    else
      var t := RunLine(q, g, 0, lineNo, last, r.pattern);
      LineResult(t.pattern, t.deleted, t.quit, r.flags + t.flags, r.out + t.out)
  }

  lemma {:induction false} SequenceFrom(p: seq<Cmd>, q: seq<Cmd>, f: seq<bool>, g: seq<bool>, i: nat, lineNo: nat, last: nat, line: string)
    requires |f| == |p| && |g| == |q| && i <= |p|
    ensures RunLine(p + q, f + g, i, lineNo, last, line)
         == Then(RunLine(p, f, i, lineNo, last, line), q, g, lineNo, last)
    decreases |p| - i
  {
    if i == |p| {
      RestAlone(p, q, f, g, 0, lineNo, last, line);
    } else {
      var c := p[i];
      var active := Select(c, f[i], lineNo, last, line).1;
      assert (p + q)[i] == c && (f + g)[i] == f[i];
      assert (f + g)[i := active] == f[i := active] + g;
      SequenceFrom(p, q, f[i := active], g, i + 1, lineNo, last, line);
      ThenPrinted([line], RunLine(p, f[i := active], i + 1, lineNo, last, line), q, g, lineNo, last);
      if c.action.Substitute? {
        var next := c.action.apply(line);
        SequenceFrom(p, q, f[i := active], g, i + 1, lineNo, last, next);
        ThenPrinted(if c.action.prints(line) then [next] else [],
                    RunLine(p, f[i := active], i + 1, lineNo, last, next), q, g, lineNo, last);
      }
    }
  }

  /** What was printed before stays in front. */
  lemma ThenPrinted(x: seq<string>, r: LineResult, q: seq<Cmd>, g: seq<bool>, lineNo: nat, last: nat)
    requires |g| == |q|
    ensures var t := Then(r, q, g, lineNo, last);
      Then(r.(out := x + r.out), q, g, lineNo, last) == t.(out := x + t.out)
  {
    Reassociate(x, r.out, RunLine(q, g, 0, lineNo, last, r.pattern).out);
  }

  /** On each line commands run one after another: the second part of a program sees what
      the first has made of the line, unless that has deleted it or quit. */
  lemma Sequence(p: seq<Cmd>, q: seq<Cmd>, f: seq<bool>, g: seq<bool>, lineNo: nat, last: nat, line: string)
    requires |f| == |p| && |g| == |q|
    ensures RunLine(p + q, f + g, 0, lineNo, last, line) == Then(RunLine(p, f, 0, lineNo, last, line), q, g, lineNo, last)
  {
    SequenceFrom(p, q, f, g, 0, lineNo, last, line);
  }

  // ----- a test of the line

  lemma {:induction false} MatchingFrom(lines: seq<string>, m: string -> bool, k: nat)
    requires k <= |lines|
    ensures RunLines(Single(Some(Regex(m)), Print), [false], true, lines, k) == Filter(lines[k..], m, true)
    ensures RunLines(Single(Some(Regex(m)), Delete), [false], false, lines, k) == Filter(lines[k..], m, false)
    decreases |lines| - k
  {
    if k < |lines| {
      assert lines[k..][0] == lines[k] && lines[k..][1..] == lines[k + 1..];
      SingleLine(Some(Regex(m)), Print, k + 1, |lines|, lines[k]);
      SingleLine(Some(Regex(m)), Delete, k + 1, |lines|, lines[k]);
      Next(Some(Regex(m)), Print, true, lines, k);
      Next(Some(Regex(m)), Delete, false, lines, k);
      MatchingFrom(lines, m, k + 1);
    }
  }

  /** sed -n '/m/p' prints the lines that match, in order, and sed '/m/d' the others. */
  lemma Matching(lines: seq<string>, m: string -> bool)
    ensures RunLines(Single(Some(Regex(m)), Print), [false], true, lines, 0) == Filter(lines, m, true)
    ensures RunLines(Single(Some(Regex(m)), Delete), [false], false, lines, 0) == Filter(lines, m, false)
  {
    MatchingFrom(lines, m, 0);
    assert lines[0..] == lines;
  }

  /** The lines up to the first that matches, it included, or all. */
  function UpToMatch(lines: seq<string>, m: string -> bool): seq<string> {
    if lines == [] then [] else [lines[0]] + if m(lines[0]) then [] else UpToMatch(lines[1..], m)
  }

  lemma {:induction false} QuitFrom(lines: seq<string>, m: string -> bool, k: nat)
    requires k <= |lines|
    ensures RunLines(Single(Some(Regex(m)), Quit), [false], false, lines, k) == UpToMatch(lines[k..], m)
    decreases |lines| - k
  {
    if k < |lines| {
      assert lines[k..][0] == lines[k] && lines[k..][1..] == lines[k + 1..];
      SingleLine(Some(Regex(m)), Quit, k + 1, |lines|, lines[k]);
      Next(Some(Regex(m)), Quit, false, lines, k);
      QuitFrom(lines, m, k + 1);
    }
  }

  /** sed '/m/q' prints up to the first line that matches. */
  lemma QuitsAtMatch(lines: seq<string>, m: string -> bool)
    ensures RunLines(Single(Some(Regex(m)), Quit), [false], false, lines, 0) == UpToMatch(lines, m)
  {
    QuitFrom(lines, m, 0);
    assert lines[0..] == lines;
  }

  // ----- substitution

  /** Each line rewritten if it is to be, and, with -n, only where the rewriting prints. */
  function Rewritten(lines: seq<string>, m: string -> bool, apply: string -> string): seq<string> {
    if lines == [] then [] else [if m(lines[0]) then apply(lines[0]) else lines[0]] + Rewritten(lines[1..], m, apply)
  }

  function Reported(lines: seq<string>, m: string -> bool, apply: string -> string, prints: string -> bool): seq<string> {
    if lines == [] then []
    else (if m(lines[0]) && prints(lines[0]) then [apply(lines[0])] else []) + Reported(lines[1..], m, apply, prints)
  }

  lemma {:induction false} RewritesFrom(lines: seq<string>, m: string -> bool, apply: string -> string,
                                        prints: string -> bool, k: nat)
    requires k <= |lines| && forall l :: !prints(l)
    ensures RunLines(Single(Some(Regex(m)), Substitute(apply, prints)), [false], false, lines, k)
         == Rewritten(lines[k..], m, apply)
    decreases |lines| - k
  {
    if k < |lines| {
      assert lines[k..][0] == lines[k] && lines[k..][1..] == lines[k + 1..];
      SingleLine(Some(Regex(m)), Substitute(apply, prints), k + 1, |lines|, lines[k]);
      Next(Some(Regex(m)), Substitute(apply, prints), false, lines, k);
      RewritesFrom(lines, m, apply, prints, k + 1);
    }
  }

  lemma {:induction false} ReportsFrom(lines: seq<string>, m: string -> bool, apply: string -> string,
                                       prints: string -> bool, k: nat)
    requires k <= |lines|
    ensures RunLines(Single(Some(Regex(m)), Substitute(apply, prints)), [false], true, lines, k)
         == Reported(lines[k..], m, apply, prints)
    decreases |lines| - k
  {
    if k < |lines| {
      assert lines[k..][0] == lines[k] && lines[k..][1..] == lines[k + 1..];
      SingleLine(Some(Regex(m)), Substitute(apply, prints), k + 1, |lines|, lines[k]);
      Next(Some(Regex(m)), Substitute(apply, prints), true, lines, k);
      ReportsFrom(lines, m, apply, prints, k + 1);
    }
  }

  /** sed '/m/s/…/…/' rewrites the lines that match and keeps the others; with -n and the
      flag p only the rewritten lines are printed, where there was something to rewrite. */
  lemma Substitutes(lines: seq<string>, m: string -> bool, apply: string -> string, prints: string -> bool)
    ensures (forall l :: !prints(l)) ==>
      RunLines(Single(Some(Regex(m)), Substitute(apply, prints)), [false], false, lines, 0) == Rewritten(lines, m, apply)
    ensures RunLines(Single(Some(Regex(m)), Substitute(apply, prints)), [false], true, lines, 0)
         == Reported(lines, m, apply, prints)
  {
    assert lines[0..] == lines;
    if forall l :: !prints(l) {
      RewritesFrom(lines, m, apply, prints, 0);
    }
    ReportsFrom(lines, m, apply, prints, 0);
  }

  // ----- the last line, and line n

  lemma {:induction false} LastFrom(lines: seq<string>, k: nat)
    requires k < |lines|
    ensures RunLines(Single(Some(LastLine), Print), [false], true, lines, k) == [lines[|lines| - 1]]
    ensures RunLines(Single(Some(LastLine), Delete), [false], false, lines, k) == lines[k..|lines| - 1]
    decreases |lines| - k
  {
    SingleLine(Some(LastLine), Print, k + 1, |lines|, lines[k]);
    SingleLine(Some(LastLine), Delete, k + 1, |lines|, lines[k]);
    Next(Some(LastLine), Print, true, lines, k);
    Next(Some(LastLine), Delete, false, lines, k);
    if k + 1 < |lines| {
      LastFrom(lines, k + 1);
      assert lines[k..|lines| - 1] == [lines[k]] + lines[k + 1..|lines| - 1];
    }
  }

  /** sed -n '$p' prints the last line alone, and sed '$d' all others. */
  lemma LastLineOnly(lines: seq<string>)
    requires lines != []
    ensures RunLines(Single(Some(LastLine), Print), [false], true, lines, 0) == [lines[|lines| - 1]]
    ensures RunLines(Single(Some(LastLine), Delete), [false], false, lines, 0) == lines[..|lines| - 1]
  {
    LastFrom(lines, 0);
  }

  lemma {:induction false} QuitAtFrom(lines: seq<string>, n: nat, k: nat)
    requires k < n && k <= |lines|
    ensures RunLines(Single(Some(LineNumber(n)), Quit), [false], false, lines, k)
         == lines[k..if n <= |lines| then n else |lines|]
    decreases |lines| - k
  {
    if k < |lines| {
      SingleLine(Some(LineNumber(n)), Quit, k + 1, |lines|, lines[k]);
      Next(Some(LineNumber(n)), Quit, false, lines, k);
      var end := if n <= |lines| then n else |lines|;
      if k + 1 < n {
        QuitAtFrom(lines, n, k + 1);
      }
      assert lines[k..end] == [lines[k]] + lines[k + 1..end];
    }
  }

  /** sed 'nq' prints the first n lines. */
  lemma QuitsAtLine(lines: seq<string>, n: nat)
    requires n > 0
    ensures RunLines(Single(Some(LineNumber(n)), Quit), [false], false, lines, 0)
         == lines[..if n <= |lines| then n else |lines|]
  {
    QuitAtFrom(lines, n, 0);
  }

  // ----- ranges from one test to another

  predicate NoneIn(patterns: seq<string>, test: string -> bool, lo: nat, hi: nat)
    requires hi <= |patterns|
  {
    forall k :: lo <= k < hi ==> !test(patterns[k])
  }

  /** From `at` on: each range starts at the first line that passes the first test and ends
      at the first line behind that one that passes the second, or with the last line. */
  predicate RangesOver(m1: string -> bool, m2: string -> bool, patterns: seq<string>, ranges: seq<Range>, at: nat)
    requires at <= |patterns|
    decreases |ranges|
  {
    if ranges == [] then NoneIn(patterns, m1, at, |patterns|)
    else
      var r := ranges[0];
      && at <= r.start < |patterns| && NoneIn(patterns, m1, at, r.start) && m1(patterns[r.start])
      && r.start < r.end <= |patterns| && NoneIn(patterns, m2, r.start + 1, r.end)
      && (if r.end < |patterns| then m2(patterns[r.end]) && RangesOver(m1, m2, patterns, ranges[1..], r.end + 1)
          else ranges[1..] == [])
  }

  lemma {:induction false} RangesAre(m1: string -> bool, m2: string -> bool, patterns: seq<string>, ranges: seq<Range>, at: nat)
    requires at <= |patterns| && RangesOver(m1, m2, patterns, ranges, at)
    ensures AreRanges(View(Regex(m1), Regex(m2), patterns), ranges, at)
    decreases |ranges|
  {
    if ranges != [] && ranges[0].end < |patterns| {
      RangesAre(m1, m2, patterns, ranges[1..], ranges[0].end + 1);
    }
  }

  /** /m1/,/m2/ selects exactly the lines of these ranges. */
  lemma SelectsBetween(m1: string -> bool, m2: string -> bool, patterns: seq<string>, ranges: seq<Range>, k: nat)
    requires RangesOver(m1, m2, patterns, ranges, 0) && k < |patterns|
    ensures View(Regex(m1), Regex(m2), patterns).Selects(k) <==> Covered(ranges, k)
  {
    RangesAre(m1, m2, patterns, ranges, 0);
    SelectsRanges(View(Regex(m1), Regex(m2), patterns), ranges, k);
  }

  /** /m/,$ selects the first line that matches and all behind it. */
  lemma SelectsFrom(v: View, m: string -> bool, i: nat, k: nat)
    requires v.from == Regex(m) && v.to == LastLine && k < |v.patterns|
    requires i <= |v.patterns| && NoneIn(v.patterns, m, 0, i) && (i < |v.patterns| ==> m(v.patterns[i]))
    ensures v.Selects(k) <==> i <= k
  {
    var n := |v.patterns|;
    if i == n {
      SelectsRanges(v, [], k);
    } else {
      var r := Range(i, if i + 1 < n then n - 1 else n);
      assert [r][1..] == [] && v.Starts(i);
      assert r.end < n ==> AreRanges(v, [], r.end + 1);
      assert AreRanges(v, [r], 0);
      SelectsRanges(v, [r], k);
      CoveredFirst([r], k);
    }
  }

  /** sed -n '/m/,$p' prints from the first line that matches on, and sed '/m/,$d' up to
      the line before it. */
  lemma FromMatchOn(lines: seq<string>, m: string -> bool, i: nat)
    requires i <= |lines| && NoneIn(lines, m, 0, i) && (i < |lines| ==> m(lines[i]))
    ensures var v := View(Regex(m), LastLine, lines);
      && RunLines(SedRanges.OneCommand(v, Print), [false], true, lines, 0) == lines[i..]
      && RunLines(SedRanges.OneCommand(v, Delete), [false], false, lines, 0) == lines[..i]
  {
    var v := View(Regex(m), LastLine, lines);
    forall k | 0 <= k < |lines| ensures v.Selects(k) <==> i <= k < |lines| {
      SelectsFrom(v, m, i, k);
    }
    PrintsOrDeletes(v);
    ChosenSlice(v, i, |lines|);
    WholeTail(lines, i);
  }

  lemma WholeTail(lines: seq<string>, i: nat)
    requires i <= |lines|
    ensures lines[i..|lines|] == lines[i..] && lines[..i] + lines[|lines|..] == lines[..i]
  {
  }
}
