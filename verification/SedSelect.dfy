/** Which lines a sed command applies to, and what a program prints. */
module SedSelect {
  import opened Text

  /** A regular expression is any test of the pattern space. */
  datatype Address = LineNumber(n: int) | LastLine | Regex(matches: string -> bool)

  /** Substitution is any rewriting of the pattern space that may also print the result. */
  datatype Action = Substitute(apply: string -> string, prints: string -> bool) | Print | Delete | Quit

  datatype Cmd = Cmd(a1: Option<Address>, a2: Option<Address>, action: Action)

  predicate MatchAddr(a: Address, lineNo: nat, last: nat, pattern: string) {
    match a
    case LineNumber(n) => n == lineNo
    case LastLine => lineNo == last
    case Regex(matches) => matches(pattern)
  }

  /** Whether a command is selected, and whether its range is active after the line. */
  function Select(c: Cmd, active: bool, lineNo: nat, last: nat, pattern: string): (bool, bool) {
    if c.a1.None? then (true, active)
    else if c.a2.None? then (MatchAddr(c.a1.value, lineNo, last, pattern), active)
    else if active then (true, !MatchAddr(c.a2.value, lineNo, last, pattern))
    else if MatchAddr(c.a1.value, lineNo, last, pattern) then
      (true, !(c.a2.value.LineNumber? && c.a2.value.n <= lineNo))
    else (false, false)
  }

  // ----- one two-address command

  /** A two-address command and the pattern spaces it is reached with, one for each line. */
  datatype View = View(from: Address, to: Address, patterns: seq<string>)
  {
    function Command(): Cmd {
      Cmd(Some(from), Some(to), Print)
    }

    /** Line k, counted from 0, can start a range. */
    predicate Starts(k: nat)
      requires k < |patterns|
    {
      MatchAddr(from, k + 1, |patterns|, patterns[k])
    }

    /** Line k can end a range that started before it. */
    predicate Ends(k: nat)
      requires k < |patterns|
    {
      MatchAddr(to, k + 1, |patterns|, patterns[k])
    }

    /** A range that starts at line k has only that line. */
    predicate IsSingle(k: nat) {
      to.LineNumber? && to.n <= k + 1
    }

    function ActiveBefore(k: nat): bool
      requires k <= |patterns|
    {
      if k == 0 then false else Select(Command(), ActiveBefore(k - 1), k, |patterns|, patterns[k - 1]).1
    }

    predicate Selects(k: nat)
      requires k < |patterns|
    {
      Select(Command(), ActiveBefore(k), k + 1, |patterns|, patterns[k]).0
    }
  }

  /** Lines start to end, the end included; a range nothing ends has its end behind the
      last line. */
  datatype Range = Range(start: nat, end: nat)

  /** From a line that no range covers on, these are the ranges: each starts at the first
      line that can start one after the range before it, and ends there if it is a single
      line and otherwise at the first later line that can end it. */
  predicate AreRanges(v: View, ranges: seq<Range>, at: nat)
    requires at <= |v.patterns|
    decreases |ranges|
  {
    if ranges == [] then NoStart(v, at, |v.patterns|)
    else
      var r := ranges[0];
      && at <= r.start < |v.patterns| && NoStart(v, at, r.start) && v.Starts(r.start)
      && IsEnd(v, r.start, r.end)
      && (if r.end < |v.patterns| then AreRanges(v, ranges[1..], r.end + 1) else ranges[1..] == [])
  }

  predicate IsEnd(v: View, start: nat, end: nat)
    requires start < |v.patterns|
  {
    if v.IsSingle(start) then end == start
    else start < end <= |v.patterns| && NoEnd(v, start + 1, end) && (end < |v.patterns| ==> v.Ends(end))
  }

  predicate NoStart(v: View, lo: nat, hi: nat)
    requires lo <= hi <= |v.patterns|
  {
    forall k :: lo <= k < hi ==> !v.Starts(k)
  }

  predicate NoEnd(v: View, lo: nat, hi: nat)
    requires lo <= hi <= |v.patterns|
  {
    forall k :: lo <= k < hi ==> !v.Ends(k)
  }

  predicate Covered(ranges: seq<Range>, k: nat) {
    exists r :: r in ranges && r.start <= k <= r.end
  }

  lemma {:induction false} StaysIdle(v: View, lo: nat, hi: nat)
    requires lo <= hi <= |v.patterns| && !v.ActiveBefore(lo) && NoStart(v, lo, hi)
    ensures !v.ActiveBefore(hi) && forall k :: lo <= k < hi ==> !v.Selects(k)
    decreases hi - lo
  {
    if lo < hi {
      assert !v.Starts(lo);
      StaysIdle(v, lo + 1, hi);
    }
  }

  lemma {:induction false} StaysActive(v: View, lo: nat, hi: nat)
    requires lo <= hi <= |v.patterns| && v.ActiveBefore(lo) && NoEnd(v, lo, hi)
    ensures v.ActiveBefore(hi) && forall k :: lo <= k < hi ==> v.Selects(k)
    decreases hi - lo
  {
    if lo < hi {
      assert !v.Ends(lo);
      StaysActive(v, lo + 1, hi);
    }
  }

  /** The first range: nothing before it is selected, all of it is, and after it the flag
      is off again. */
  lemma FirstRange(v: View, r: Range, at: nat)
    requires at <= r.start < |v.patterns| && !v.ActiveBefore(at)
    requires NoStart(v, at, r.start) && v.Starts(r.start)
    requires IsEnd(v, r.start, r.end)
    ensures forall k :: at <= k <= r.end && k < |v.patterns| ==> (v.Selects(k) <==> r.start <= k)
    ensures r.end < |v.patterns| ==> !v.ActiveBefore(r.end + 1)
  {
    StaysIdle(v, at, r.start);
    if !v.IsSingle(r.start) {
      StaysActive(v, r.start + 1, r.end);
    }
  }

  lemma {:induction false} RangesFrom(v: View, ranges: seq<Range>, at: nat, k: nat)
    requires at <= k < |v.patterns| && !v.ActiveBefore(at) && AreRanges(v, ranges, at)
    ensures v.Selects(k) <==> Covered(ranges, k)
    decreases |ranges|
  {
    if ranges == [] {
      StaysIdle(v, at, |v.patterns|);
    } else {
      var r, rest := ranges[0], ranges[1..];
      FirstRange(v, r, at);
      CoveredFirst(ranges, k);
      if k > r.end {
        RangesFrom(v, rest, r.end + 1, k);
      } else if r.end < |v.patterns| {
        RangesLater(v, rest, r.end + 1, k);
      }
    }
  }

  lemma CoveredFirst(ranges: seq<Range>, k: nat)
    requires ranges != []
    ensures Covered(ranges, k) <==> ranges[0].start <= k <= ranges[0].end || Covered(ranges[1..], k)
  {
    assert forall r :: r in ranges <==> r == ranges[0] || r in ranges[1..];
  }

  lemma {:induction false} RangesLater(v: View, ranges: seq<Range>, at: nat, k: nat)
    requires at <= |v.patterns| && AreRanges(v, ranges, at) && k < at
    ensures !Covered(ranges, k)
    decreases |ranges|
  {
    if ranges != [] {
      CoveredFirst(ranges, k);
      if ranges[0].end < |v.patterns| {
        RangesLater(v, ranges[1..], ranges[0].end + 1, k);
      }
    }
  }

  /** A two-address command selects exactly the lines of its ranges. */
  lemma SelectsRanges(v: View, ranges: seq<Range>, k: nat)
    requires AreRanges(v, ranges, 0) && k < |v.patterns|
    ensures v.Selects(k) <==> Covered(ranges, k)
  {
    RangesFrom(v, ranges, 0, k);
  }

  function FirstStart(v: View, at: nat): (s: nat)
    requires at <= |v.patterns|
    ensures at <= s <= |v.patterns| && NoStart(v, at, s) && (s < |v.patterns| ==> v.Starts(s))
    decreases |v.patterns| - at
  {
    if at == |v.patterns| || v.Starts(at) then at else FirstStart(v, at + 1)
  }

  function FirstEnd(v: View, at: nat): (e: nat)
    requires at <= |v.patterns|
    ensures at <= e <= |v.patterns| && NoEnd(v, at, e) && (e < |v.patterns| ==> v.Ends(e))
    decreases |v.patterns| - at
  {
    if at == |v.patterns| || v.Ends(at) then at else FirstEnd(v, at + 1)
  }

  /** There are always ranges, and only one list of them. */
  function RangesOf(v: View, at: nat): (ranges: seq<Range>)
    requires at <= |v.patterns|
    ensures AreRanges(v, ranges, at)
    decreases |v.patterns| - at
  {
    var s := FirstStart(v, at);
    if s == |v.patterns| then []
    else
      var e := if v.IsSingle(s) then s else FirstEnd(v, s + 1);
      if e < |v.patterns| then
        var rest := RangesOf(v, e + 1);
        assert ([Range(s, e)] + rest)[1..] == rest;
        [Range(s, e)] + rest
      else [Range(s, e)]
  }

  lemma {:induction false} OneList(v: View, ranges: seq<Range>, others: seq<Range>, at: nat)
    requires at <= |v.patterns| && AreRanges(v, ranges, at) && AreRanges(v, others, at)
    ensures ranges == others
    decreases |ranges|
  {
    if ranges != [] && others != [] {
      var r, o := ranges[0], others[0];
      assert r.start == o.start;
      assert r.end == o.end;
      if r.end < |v.patterns| {
        OneList(v, ranges[1..], others[1..], r.end + 1);
      }
      assert ranges == [r] + ranges[1..] && others == [o] + others[1..];
    }
  }

  /** With line numbers n and m for addresses, n at least 1, the lines n to m, or line n
      alone if m is not after it. */
  lemma NumericRange(v: View, n: int, m: int, k: nat)
    requires v.from == LineNumber(n) && v.to == LineNumber(m) && n >= 1 && k < |v.patterns|
    ensures v.Selects(k) <==> n <= k + 1 <= if m > n then m else n
  {
    var last := |v.patterns|;
    if n > last {
      SelectsRanges(v, [], k);
    } else {
      var e := if m <= n then n - 1 else if m <= last then m - 1 else last;
      var r := Range(n - 1, e);
      assert [r][1..] == [];
      assert AreRanges(v, [r], 0);
      SelectsRanges(v, [r], k);
      CoveredFirst([r], k);
    }
  }
}
