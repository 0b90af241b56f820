/** Running a sed program over the lines, and what its ranges select there. */
module SedEditor {
  import opened SedSelect

  /** After the commands from some index on have seen a line. */
  datatype LineResult = LineResult(pattern: string, deleted: bool, quit: bool, flags: seq<bool>, out: seq<string>)

  function RunLine(program: seq<Cmd>, flags: seq<bool>, ci: nat, lineNo: nat, last: nat, pattern: string): (r: LineResult)
    requires |flags| == |program| && ci <= |program|
    ensures |r.flags| == |program|
    decreases |program| - ci
  {
    if ci == |program| then LineResult(pattern, false, false, flags, [])
    else
      var (selected, active) := Select(program[ci], flags[ci], lineNo, last, pattern);
      var flags' := flags[ci := active];
      if !selected then RunLine(program, flags', ci + 1, lineNo, last, pattern)
      else
        match program[ci].action
        case Substitute(apply, prints) =>
          var r := RunLine(program, flags', ci + 1, lineNo, last, apply(pattern));
          r.(out := (if prints(pattern) then [apply(pattern)] else []) + r.out)
        case Print =>
          var r := RunLine(program, flags', ci + 1, lineNo, last, pattern);
          r.(out := [pattern] + r.out)
        case Delete => LineResult(pattern, true, false, flags', [])
        case Quit => LineResult(pattern, false, true, flags', [])
  }

  /** What a line prints in all. */
  function Shown(r: LineResult, quiet: bool): seq<string> {
    r.out + if !r.deleted && !quiet then [r.pattern] else []
  }

  function RunLines(program: seq<Cmd>, flags: seq<bool>, quiet: bool, lines: seq<string>, k: nat): seq<string>
    requires |flags| == |program| && k <= |lines|
    decreases |lines| - k
  {
    if k == |lines| then []
    else
      var r := RunLine(program, flags, 0, k + 1, |lines|, lines[k]);
      Shown(r, quiet) + if r.quit then [] else RunLines(program, r.flags, quiet, lines, k + 1)
  }

  class Editor {
    const program: seq<Cmd>
    const quiet: bool
    const active: array<bool>
    var out: seq<string>

    predicate Valid()
      reads this
    {
      active.Length == |program|
    }

    constructor (program: seq<Cmd>, quiet: bool)
      ensures Valid() && this.program == program && this.quiet == quiet && out == [] && fresh(active)
      ensures forall k :: 0 <= k < active.Length ==> !active[k]
    {
      this.program, this.quiet, out := program, quiet, [];
      active := new bool[|program|](_ => false);
    }

    method Selected(ci: nat, lineNo: nat, last: nat, pattern: string) returns (selected: bool)
      requires Valid() && ci < |program|
      modifies active
      ensures selected == old(Select(program[ci], active[ci], lineNo, last, pattern)).0
      ensures active[..] == old(active[..][ci := Select(program[ci], active[ci], lineNo, last, pattern).1])
    {
      var c := program[ci];
      if c.a1.None? {
        return true;
      }
      if c.a2.None? {
        return MatchAddr(c.a1.value, lineNo, last, pattern);
      }
      if !active[ci] {
        if MatchAddr(c.a1.value, lineNo, last, pattern) {
          active[ci] := true;
          if c.a2.value.LineNumber? && c.a2.value.n <= lineNo {
            active[ci] := false;
          }
          return true;
        }
        return false;
      }
      if MatchAddr(c.a2.value, lineNo, last, pattern) {
        active[ci] := false;
      }
      return true;
    }

    /** The commands on one line. */
    method RunCommands(lineNo: nat, last: nat, line: string) returns (pattern: string, deleted: bool, quit: bool)
      requires Valid()
      modifies `out, active
      ensures var r := RunLine(program, old(active[..]), 0, lineNo, last, line);
        r == LineResult(pattern, deleted, quit, active[..], r.out) && out == old(out) + r.out
    {
      pattern, deleted, quit := line, false, false;
      ghost var r := RunLine(program, active[..], 0, lineNo, last, line);
      ghost var before := out;
      assert out + r.out == before + r.out;
      for ci := 0 to |program|
        invariant Valid() && !deleted && !quit
        invariant Goes(before + r.out, r, out, RunLine(program, active[..], ci, lineNo, last, pattern))
      {
        ghost var flags, was, seen := active[..], out, pattern;
        var selected := Selected(ci, lineNo, last, pattern);
        if selected {
          match program[ci].action
          case Substitute(apply, prints) =>
            if prints(pattern) {
              out := out + [apply(pattern)];
            }
            pattern := apply(pattern);
          case Print =>
            out := out + [pattern];
          case Delete =>
            deleted := true;
          case Quit =>
            quit := true;
        }
        OneCommand(program, flags, ci, lineNo, last, seen, was);
        if deleted || quit {
          return;
        }
      }
    }

    method Run(lines: seq<string>)
      requires Valid()
      modifies `out, active
      ensures Valid() && out == old(out) + RunLines(program, old(active[..]), quiet, lines, 0)
    {
      ghost var all := out + RunLines(program, active[..], quiet, lines, 0);
      for k := 0 to |lines|
        invariant Valid() && all == out + RunLines(program, active[..], quiet, lines, k)
      {
        ghost var flags, was := active[..], out;
        ghost var r := RunLine(program, flags, 0, k + 1, |lines|, lines[k]);
        var pattern, deleted, quit := RunCommands(k + 1, |lines|, lines[k]);
        if !deleted && !quiet {
          out := out + [pattern];
        }
        ShownThen(was, r, quiet, if r.quit then [] else RunLines(program, r.flags, quiet, lines, k + 1));
        if quit {
          assert out + [] == out;
          return;
        }
      }
      assert out + [] == out;
    }
  }

  /** The line ends as foretold: the same result, and what is printed in all. */
  predicate Goes(all: seq<string>, r: LineResult, out: seq<string>, rest: LineResult) {
    r == rest.(out := r.out) && all == out + rest.out
  }

  lemma OneCommand(program: seq<Cmd>, flags: seq<bool>, ci: nat, lineNo: nat, last: nat, pattern: string, out: seq<string>)
    requires |flags| == |program| && ci < |program|
    ensures var (selected, active) := Select(program[ci], flags[ci], lineNo, last, pattern);
      var flags' := flags[ci := active];
      var now := RunLine(program, flags, ci, lineNo, last, pattern);
      if !selected then now == RunLine(program, flags', ci + 1, lineNo, last, pattern)
      else
        match program[ci].action
        case Substitute(apply, prints) =>
          var rest := RunLine(program, flags', ci + 1, lineNo, last, apply(pattern));
          now == rest.(out := now.out)
          && out + now.out == (if prints(pattern) then out + [apply(pattern)] else out) + rest.out
        case Print =>
          var rest := RunLine(program, flags', ci + 1, lineNo, last, pattern);
          now == rest.(out := now.out) && out + now.out == (out + [pattern]) + rest.out
        case Delete => now == LineResult(pattern, true, false, flags', [])
        case Quit => now == LineResult(pattern, false, true, flags', [])
  {
  }

  lemma ShownThen(out: seq<string>, r: LineResult, quiet: bool, more: seq<string>)
    ensures out + (Shown(r, quiet) + more)
         == (if !r.deleted && !quiet then (out + r.out) + [r.pattern] else out + r.out) + more
  {
  }
}
