/** Ranges inside a running program. */
module SedRanges {
  import opened Text
  import opened SedSelect
  import opened SedEditor

  /** A selected d or q keeps the commands behind it from the line. */
  predicate Stops(c: Cmd) {
    c.action.Delete? || c.action.Quit?
  }

  /** What the commands behind c see of a line. */
  function Passed(c: Cmd, selected: bool, pattern: string): string {
    if selected && c.action.Substitute? then c.action.apply(pattern) else pattern
  }

  /** No command before ci deletes the line or quits on it. */
  predicate Reaches(program: seq<Cmd>, flags: seq<bool>, from: nat, ci: nat, lineNo: nat, last: nat, pattern: string)
    requires |flags| == |program| && from <= ci <= |program|
    decreases ci - from
  {
    from < ci ==>
      var (selected, active) := Select(program[from], flags[from], lineNo, last, pattern);
      && !(selected && Stops(program[from]))
      && Reaches(program, flags[from := active], from + 1, ci, lineNo, last, Passed(program[from], selected, pattern))
  }

  /** The pattern space a command is reached with on a line. */
  function PatternAt(program: seq<Cmd>, flags: seq<bool>, from: nat, ci: nat, lineNo: nat, last: nat, pattern: string): string
    requires |flags| == |program| && from <= ci <= |program|
    decreases ci - from
  {
    if from == ci then pattern
    else
      var (selected, active) := Select(program[from], flags[from], lineNo, last, pattern);
      PatternAt(program, flags[from := active], from + 1, ci, lineNo, last, Passed(program[from], selected, pattern))
  }

  /** The range flags before line k, if the program has not quit. */
  function FlagsBefore(program: seq<Cmd>, lines: seq<string>, k: nat): (flags: seq<bool>)
    requires k <= |lines|
    ensures |flags| == |program|
  {
    if k == 0 then seq(|program|, _ => false)
    else RunLine(program, FlagsBefore(program, lines, k - 1), 0, k, |lines|, lines[k - 1]).flags
  }

  function Reaching(program: seq<Cmd>, lines: seq<string>, ci: nat, k: nat): string
    requires ci < |program| && k < |lines|
  {
    PatternAt(program, FlagsBefore(program, lines, k), 0, ci, k + 1, |lines|, lines[k])
  }

  /** Each of the first n lines gets as far as the command. */
  predicate AllReach(program: seq<Cmd>, lines: seq<string>, ci: nat, n: nat)
    requires ci < |program| && n <= |lines|
  {
    n > 0 ==>
      && AllReach(program, lines, ci, n - 1)
      && Reaches(program, FlagsBefore(program, lines, n - 1), 0, ci, n, |lines|, lines[n - 1])
  }

  /** The pattern spaces a command is reached with. */
  function Seen(program: seq<Cmd>, lines: seq<string>, ci: nat): (patterns: seq<string>)
    requires ci < |program|
    ensures |patterns| == |lines| && forall k :: 0 <= k < |lines| ==> patterns[k] == Reaching(program, lines, ci, k)
  {
    seq(|lines|, k requires 0 <= k < |lines| => Reaching(program, lines, ci, k))
  }

  /** A line changes the flag of a command it reaches as Select says, and other commands
      leave it alone. */
  lemma {:induction false} FlagAfterLine(program: seq<Cmd>, flags: seq<bool>, from: nat, ci: nat, lineNo: nat, last: nat, pattern: string)
    requires |flags| == |program| && from <= ci < |program|
    requires Reaches(program, flags, from, ci, lineNo, last, pattern)
    ensures RunLine(program, flags, from, lineNo, last, pattern).flags[ci]
         == Select(program[ci], flags[ci], lineNo, last, PatternAt(program, flags, from, ci, lineNo, last, pattern)).1
    decreases ci - from
  {
    var (selected, active) := Select(program[from], flags[from], lineNo, last, pattern);
    var flags' := flags[from := active];
    if from == ci {
      OthersKeepFlag(program, flags', ci + 1, ci, lineNo, last, pattern);
      if program[ci].action.Substitute? {
        OthersKeepFlag(program, flags', ci + 1, ci, lineNo, last, program[ci].action.apply(pattern));
      }
    } else {
      FlagAfterLine(program, flags', from + 1, ci, lineNo, last, Passed(program[from], selected, pattern));
    }
  }

  lemma {:induction false} OthersKeepFlag(program: seq<Cmd>, flags: seq<bool>, from: nat, ci: nat, lineNo: nat, last: nat, pattern: string)
    requires |flags| == |program| && ci < from <= |program|
    ensures RunLine(program, flags, from, lineNo, last, pattern).flags[ci] == flags[ci]
    decreases |program| - from
  {
    if from < |program| {
      var (selected, active) := Select(program[from], flags[from], lineNo, last, pattern);
      var flags' := flags[from := active];
      OthersKeepFlag(program, flags', from + 1, ci, lineNo, last, Passed(program[from], selected, pattern));
    }
  }

  /** The view of a two-address command in a program. */
  function ViewOf(program: seq<Cmd>, lines: seq<string>, ci: nat): View
    requires ci < |program| && program[ci].a1.Some? && program[ci].a2.Some?
  {
    View(program[ci].a1.value, program[ci].a2.value, Seen(program, lines, ci))
  }

  lemma {:induction false} FlagIsActive(program: seq<Cmd>, lines: seq<string>, ci: nat, k: nat)
    requires ci < |program| && program[ci].a1.Some? && program[ci].a2.Some? && k <= |lines|
    requires AllReach(program, lines, ci, k)
    ensures FlagsBefore(program, lines, k)[ci] == ViewOf(program, lines, ci).ActiveBefore(k)
    decreases k
  {
    if k > 0 {
      FlagIsActive(program, lines, ci, k - 1);
      FlagGoesOn(program, lines, ci, k - 1);
      ViewGoesOn(ViewOf(program, lines, ci), k - 1);
    }
  }

  lemma ViewGoesOn(v: View, k: nat)
    requires k < |v.patterns|
    ensures v.ActiveBefore(k + 1) == Select(v.Command(), v.ActiveBefore(k), k + 1, |v.patterns|, v.patterns[k]).1
  {
  }

  lemma FlagGoesOn(program: seq<Cmd>, lines: seq<string>, ci: nat, k: nat)
    requires ci < |program| && program[ci].a1.Some? && program[ci].a2.Some? && k < |lines|
    requires Reaches(program, FlagsBefore(program, lines, k), 0, ci, k + 1, |lines|, lines[k])
    ensures FlagsBefore(program, lines, k + 1)[ci]
         == Select(ViewOf(program, lines, ci).Command(), FlagsBefore(program, lines, k)[ci], k + 1, |lines|,
                   Reaching(program, lines, ci, k)).1
  {
    FlagAfterLine(program, FlagsBefore(program, lines, k), 0, ci, k + 1, |lines|, lines[k]);
    SameFlag(program[ci], FlagsBefore(program, lines, k)[ci], k + 1, |lines|, Reaching(program, lines, ci, k));
  }

  lemma SameFlag(c: Cmd, active: bool, lineNo: nat, last: nat, pattern: string)
    requires c.a1.Some? && c.a2.Some?
    ensures Select(c, active, lineNo, last, pattern) == Select(Cmd(c.a1, c.a2, Print), active, lineNo, last, pattern)
  {
  }

  /** In any program, a two-address command is selected on exactly the lines of its ranges,
      on the pattern spaces it sees, as long as no line before has been deleted before it
      got there, and the program has not quit. */
  lemma RangesInProgram(program: seq<Cmd>, lines: seq<string>, ci: nat, ranges: seq<Range>, k: nat)
    requires ci < |program| && program[ci].a1.Some? && program[ci].a2.Some? && k < |lines|
    requires AllReach(program, lines, ci, k)
    requires AreRanges(ViewOf(program, lines, ci), ranges, 0)
    ensures Select(program[ci], FlagsBefore(program, lines, k)[ci], k + 1, |lines|, Reaching(program, lines, ci, k)).0
       <==> Covered(ranges, k)
  {
    FlagIsActive(program, lines, ci, k);
    SelectsRanges(ViewOf(program, lines, ci), ranges, k);
  }

  // ----- printing and deleting a range

  /** The lines from k on that a command selects, or those it does not. */
  function Chosen(v: View, k: nat, selected: bool): seq<string>
    requires k <= |v.patterns|
    decreases |v.patterns| - k
  {
    if k == |v.patterns| then []
    else (if v.Selects(k) == selected then [v.patterns[k]] else []) + Chosen(v, k + 1, selected)
  }

  function OneCommand(v: View, action: Action): seq<Cmd> {
    [Cmd(Some(v.from), Some(v.to), action)]
  }

  lemma OneLine(v: View, action: Action, k: nat)
    requires k < |v.patterns| && (action == Print || action == Delete)
    ensures var r := RunLine(OneCommand(v, action), [v.ActiveBefore(k)], 0, k + 1, |v.patterns|, v.patterns[k]);
      && r.flags == [v.ActiveBefore(k + 1)] && !r.quit
      && Shown(r, action == Print) == if v.Selects(k) == (action == Print) then [v.patterns[k]] else []
  {
    var program, flags := OneCommand(v, action), [v.ActiveBefore(k)];
    var active := Select(program[0], flags[0], k + 1, |v.patterns|, v.patterns[k]).1;
    assert flags[0 := active] == [active];
    var rest := RunLine(program, [active], 1, k + 1, |v.patterns|, v.patterns[k]);
    assert rest.flags == [active] && rest.out == [];
  }

  lemma {:induction false} OnlyChosen(v: View, action: Action, k: nat)
    requires k <= |v.patterns| && (action == Print || action == Delete)
    ensures RunLines(OneCommand(v, action), [v.ActiveBefore(k)], action == Print, v.patterns, k)
         == Chosen(v, k, action == Print)
    decreases |v.patterns| - k
  {
    if k < |v.patterns| {
      OneLineMore(v, action, k);
      OnlyChosen(v, action, k + 1);
    }
  }

  lemma OneLineMore(v: View, action: Action, k: nat)
    requires k < |v.patterns| && (action == Print || action == Delete)
    ensures RunLines(OneCommand(v, action), [v.ActiveBefore(k)], action == Print, v.patterns, k)
         == (if v.Selects(k) == (action == Print) then [v.patterns[k]] else [])
          + RunLines(OneCommand(v, action), [v.ActiveBefore(k + 1)], action == Print, v.patterns, k + 1)
  {
    OneLine(v, action, k);
  }

  /** sed -n 'a,bp' prints the selected lines and sed 'a,bd' the others. */
  lemma PrintsOrDeletes(v: View)
    ensures RunLines(OneCommand(v, Print), [false], true, v.patterns, 0) == Chosen(v, 0, true)
    ensures RunLines(OneCommand(v, Delete), [false], false, v.patterns, 0) == Chosen(v, 0, false)
  {
    OnlyChosen(v, Print, 0);
    OnlyChosen(v, Delete, 0);
  }

  /** The command selects lines lo to hi, hi not included. */
  predicate SelectsSlice(v: View, lo: nat, hi: nat) {
    lo <= hi <= |v.patterns| && forall j :: 0 <= j < |v.patterns| ==> (v.Selects(j) <==> lo <= j < hi)
  }

  lemma {:induction false} ChosenAlike(v: View, k: nat, end: nat, selected: bool)
    requires k <= end <= |v.patterns| && forall j :: k <= j < end ==> v.Selects(j) == selected
    ensures Chosen(v, k, selected) == v.patterns[k..end] + Chosen(v, end, selected)
    ensures Chosen(v, k, !selected) == Chosen(v, end, !selected)
    decreases end - k
  {
    if k < end {
      assert v.Selects(k) == selected;
      ChosenAlike(v, k + 1, end, selected);
      FirstOf(v.patterns, k, end, Chosen(v, end, selected));
    }
  }

  lemma FirstOf(p: seq<string>, k: nat, end: nat, more: seq<string>)
    requires k < end <= |p|
    ensures [p[k]] + (p[k + 1..end] + more) == p[k..end] + more
  {
  }

  lemma Ends(p: seq<string>, lo: nat, hi: nat)
    requires lo <= hi <= |p|
    ensures p[0..lo] == p[..lo] && p[hi..|p|] == p[hi..]
    ensures p[lo..hi] + [] == p[lo..hi] && p[hi..] + [] == p[hi..]
  {
  }

  lemma ChosenSlice(v: View, lo: nat, hi: nat)
    requires SelectsSlice(v, lo, hi)
    ensures Chosen(v, 0, true) == v.patterns[lo..hi]
    ensures Chosen(v, 0, false) == v.patterns[..lo] + v.patterns[hi..]
  {
    var n := |v.patterns|;
    ChosenAlike(v, 0, lo, false);
    ChosenAlike(v, lo, hi, true);
    ChosenAlike(v, hi, n, false);
    Ends(v.patterns, lo, hi);
  }

  /** sed -n 'n,mp' prints lines n to m and sed 'n,md' all others; line n alone counts if
      m is not after it. */
  lemma NumericSlice(lines: seq<string>, n: nat, m: int)
    requires n >= 1
    ensures var v := View(LineNumber(n), LineNumber(m), lines);
      var lo := if n - 1 < |lines| then n - 1 else |lines|;
      var hi := if m <= n then (if n < |lines| then n else |lines|) else if m < |lines| then m else |lines|;
      && lo <= hi
      && RunLines(OneCommand(v, Print), [false], true, lines, 0) == lines[lo..hi]
      && RunLines(OneCommand(v, Delete), [false], false, lines, 0) == lines[..lo] + lines[hi..]
  {
    var v := View(LineNumber(n), LineNumber(m), lines);
    var lo := if n - 1 < |lines| then n - 1 else |lines|;
    var hi := if m <= n then (if n < |lines| then n else |lines|) else if m < |lines| then m else |lines|;
    forall j | 0 <= j < |lines| ensures v.Selects(j) <==> lo <= j < hi {
      NumericRange(v, n, m, j);
    }
    PrintsOrDeletes(v);
    ChosenSlice(v, lo, hi);
  }
}
