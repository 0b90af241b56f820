/** collectHunks: the change hunks of the normal diff format. */
module DiffHunks {
  import opened Sequences
  import opened DiffScript

  datatype ChangeHunk = ChangeHunk(aPos: nat, bPos: nat, dels: seq<nat>, ins: seq<nat>)

  /** The indices n deletes, or inserts, starting at a line refer to. */
  function Consecutive(start: nat, n: nat): (s: seq<nat>)
    ensures |s| == n
    decreases n
  {
    if n == 0 then [] else [start] + Consecutive(start + 1, n - 1)
  }

  function Dels(ops: seq<Op>): seq<nat> {
    if ops == [] then [] else (if ops[0].kind == Delete then [ops[0].ai] else []) + Dels(ops[1..])
  }

  function Ins(ops: seq<Op>): seq<nat> {
    if ops == [] then [] else (if ops[0].kind == Insert then [ops[0].bi] else []) + Ins(ops[1..])
  }

  predicate AllChanged(ops: seq<Op>) {
    forall k :: 0 <= k < |ops| ==> ops[k].kind != Equal
  }

  /** The number of changed ops at the front. */
  function RunLength(ops: seq<Op>): (n: nat)
    ensures n <= |ops| && AllChanged(ops[..n])
    ensures n < |ops| ==> ops[n].kind == Equal
  {
    if ops == [] || ops[0].kind == Equal then 0 else RunLength(ops[1..]) + 1
  }

  function HunkOf(run: seq<Op>): ChangeHunk
    requires run != []
  {
    ChangeHunk(run[0].ai, run[0].bi, Dels(run), Ins(run))
  }

  function Collect(ops: seq<Op>): seq<ChangeHunk> {
    if ops == [] then []
    else if ops[0].kind == Equal then Collect(ops[1..])
    else
      var n := RunLength(ops);
      [HunkOf(ops[..n])] + Collect(ops[n..])
  }

  /** The run of changes that starts at an index, as a hunk, and where it ends. */
  method TakeRun(ops: seq<Op>, start: nat) returns (h: ChangeHunk, i: nat)
    requires start < |ops| && ops[start].kind != Equal
    ensures i == start + RunLength(ops[start..]) > start
    ensures h == HunkOf(ops[start..i])
  {
    h := ChangeHunk(ops[start].ai, ops[start].bi, [], []);
    i := start;
    while i < |ops| && ops[i].kind != Equal
      invariant start <= i <= |ops|
      invariant AllChanged(ops[start..i])
      invariant h == ChangeHunk(ops[start].ai, ops[start].bi, Dels(ops[start..i]), Ins(ops[start..i]))
    {
      AppendChange(ops[start..i], ops[i]);
      assert ops[start..i + 1] == ops[start..i] + [ops[i]];
      if ops[i].kind == Delete {
        h := h.(dels := h.dels + [ops[i].ai]);
      } else {
        h := h.(ins := h.ins + [ops[i].bi]);
      }
      i := i + 1;
    }
    assert ops[start..][..i - start] == ops[start..i];
    RunIs(ops[start..], i - start);
  }

  lemma CollectStep(ops: seq<Op>, start: nat, i: nat)
    requires start < |ops| && ops[start].kind != Equal
    requires i == start + RunLength(ops[start..]) > start
    ensures Collect(ops[start..]) == [HunkOf(ops[start..i])] + Collect(ops[i..])
  {
    assert ops[start..][..i - start] == ops[start..i];
    assert ops[start..][i - start..] == ops[i..];
  }

  method CollectHunks(ops: seq<Op>) returns (hunks: seq<ChangeHunk>)
    ensures hunks == Collect(ops)
  {
    hunks := [];
    var i := 0;
    while i < |ops|
      invariant i <= |ops|
      invariant Collect(ops) == hunks + Collect(ops[i..])
    {
      if ops[i].kind == Equal {
        assert ops[i..][1..] == ops[i + 1..];
        i := i + 1;
      } else {
        var h, next := TakeRun(ops, i);
        CollectStep(ops, i, next);
        hunks := hunks + [h];
        i := next;
      }
    }
    assert hunks + [] == hunks;
  }

  lemma {:induction false} AppendChange(ops: seq<Op>, o: Op)
    ensures Dels(ops + [o]) == Dels(ops) + if o.kind == Delete then [o.ai] else []
    ensures Ins(ops + [o]) == Ins(ops) + if o.kind == Insert then [o.bi] else []
  {
    if ops == [] {
      assert [] + [o] == [o] && [o][1..] == [];
      assert Dels([]) == [] && Ins([]) == [];
    } else {
      var x := ops[0];
      assert (ops + [o])[0] == x && (ops + [o])[1..] == ops[1..] + [o];
      AppendChange(ops[1..], o);
      Reassociate(if x.kind == Delete then [x.ai] else [], Dels(ops[1..]), if o.kind == Delete then [o.ai] else []);
      Reassociate(if x.kind == Insert then [x.bi] else [], Ins(ops[1..]), if o.kind == Insert then [o.bi] else []);
    }
  }

  lemma {:induction false} RunIs(ops: seq<Op>, n: nat)
    requires n <= |ops| && AllChanged(ops[..n]) && (n < |ops| ==> ops[n].kind == Equal)
    ensures RunLength(ops) == n
  {
    if n > 0 {
      assert ops[..n][0] == ops[0];
      assert ops[1..][..n - 1] == ops[..n][1..];
      RunIs(ops[1..], n - 1);
    }
  }

  // ----- what a hunk says

  /** In a run of changes, however mixed, the deleted lines and the inserted lines are
      each consecutive. */
  lemma {:induction false} RunConsecutive(run: seq<Op>, i: nat, j: nat)
    requires From(run, i, j) && AllChanged(run)
    ensures Dels(run) == Consecutive(i, Olds(run)) && Ins(run) == Consecutive(j, News(run))
  {
    if run != [] {
      assert AllChanged(run[1..]);
      RunConsecutive(run[1..], run[0].NextA(), run[0].NextB());
    }
  }

  /** Hunks in order: each names consecutive lines from where it starts, and at least
      one unchanged line, the same on both sides, lies between two of them. */
  predicate Ordered(hunks: seq<ChangeHunk>, i: nat, j: nat, n: nat, m: nat) {
    if hunks == [] then i <= n && j <= m && n - i == m - j
    else
      var h := hunks[0];
      && i <= h.aPos && j <= h.bPos && h.aPos - i == h.bPos - j
      && h.dels == Consecutive(h.aPos, |h.dels|) && h.ins == Consecutive(h.bPos, |h.ins|)
      && |h.dels| + |h.ins| > 0
      && (|hunks| > 1 ==> hunks[1].aPos > h.aPos + |h.dels|)
      && Ordered(hunks[1..], h.aPos + |h.dels|, h.bPos + |h.ins|, n, m)
  }

  lemma {:induction false} OrderedBounds(hunks: seq<ChangeHunk>, i: nat, j: nat, n: nat, m: nat)
    requires Ordered(hunks, i, j, n, m)
    ensures i <= n && j <= m
  {
    if hunks != [] {
      var h := hunks[0];
      OrderedBounds(hunks[1..], h.aPos + |h.dels|, h.bPos + |h.ins|, n, m);
    }
  }

  /** Replace, hunk by hunk, the deleted range of a by the inserted range of b. */
  function Splice(a: seq<Line>, b: seq<Line>, hunks: seq<ChangeHunk>, i: nat, j: nat): seq<Line>
    requires Ordered(hunks, i, j, |a|, |b|)
  {
    OrderedBounds(hunks, i, j, |a|, |b|);
    if hunks == [] then a[i..]
    else
      var h := hunks[0];
      OrderedBounds(hunks[1..], h.aPos + |h.dels|, h.bPos + |h.ins|, |a|, |b|);
      a[i..h.aPos]
        + (b[h.bPos..h.bPos + |h.ins|] + Splice(a, b, hunks[1..], h.aPos + |h.dels|, h.bPos + |h.ins|))
  }

  lemma {:induction false} RunReplay(run: seq<Op>, i: nat, j: nat, a: seq<Line>, b: seq<Line>, eq: (Line, Line) -> bool)
    requires From(run, i, j) && AllChanged(run) && Fits(run, a, b, eq)
    requires j + News(run) <= |b|
    ensures Replay(run, a, b) == b[j..j + News(run)]
  {
    if run != [] {
      assert run == [run[0]] + run[1..];
      FitsSplit([run[0]], run[1..], a, b, eq);
      assert AllChanged(run[1..]);
      RunReplay(run[1..], run[0].NextA(), run[0].NextB(), a, b, eq);
    }
  }

  /** An equal op in front only moves the start back by one line on both sides. */
  lemma OrderedInFront(hunks: seq<ChangeHunk>, i: nat, j: nat, n: nat, m: nat)
    requires Ordered(hunks, i + 1, j + 1, n, m)
    ensures i < n && Ordered(hunks, i, j, n, m)
  {
    OrderedBounds(hunks, i + 1, j + 1, n, m);
  }

  function SpliceTail(a: seq<Line>, b: seq<Line>, hunks: seq<ChangeHunk>): seq<Line>
    requires hunks != []
    requires Ordered(hunks[1..], hunks[0].aPos + |hunks[0].dels|, hunks[0].bPos + |hunks[0].ins|, |a|, |b|)
  {
    var h := hunks[0];
    OrderedBounds(hunks[1..], h.aPos + |h.dels|, h.bPos + |h.ins|, |a|, |b|);
    b[h.bPos..h.bPos + |h.ins|] + Splice(a, b, hunks[1..], h.aPos + |h.dels|, h.bPos + |h.ins|)
  }

  lemma SpliceIs(a: seq<Line>, b: seq<Line>, hunks: seq<ChangeHunk>, i: nat, j: nat)
    requires hunks != [] && Ordered(hunks, i, j, |a|, |b|)
    ensures i <= hunks[0].aPos <= |a|
    ensures Splice(a, b, hunks, i, j) == a[i..hunks[0].aPos] + SpliceTail(a, b, hunks)
  {
    var h := hunks[0];
    OrderedBounds(hunks[1..], h.aPos + |h.dels|, h.bPos + |h.ins|, |a|, |b|);
  }

  lemma SpliceInFront(hunks: seq<ChangeHunk>, i: nat, j: nat, a: seq<Line>, b: seq<Line>)
    requires i < |a| && Ordered(hunks, i, j, |a|, |b|) && Ordered(hunks, i + 1, j + 1, |a|, |b|)
    ensures Splice(a, b, hunks, i, j) == [a[i]] + Splice(a, b, hunks, i + 1, j + 1)
  {
    if hunks == [] {
      assert a[i..] == [a[i]] + a[i + 1..];
    } else {
      SpliceIs(a, b, hunks, i, j);
      SpliceIs(a, b, hunks, i + 1, j + 1);
      var k, tail := hunks[0].aPos, SpliceTail(a, b, hunks);
      assert a[i..k] + tail == [a[i]] + (a[i + 1..k] + tail);
    }
  }

  lemma {:induction false} CollectFrom(ops: seq<Op>, i: nat, j: nat, a: seq<Line>, b: seq<Line>, eq: (Line, Line) -> bool)
    requires From(ops, i, j) && Fits(ops, a, b, eq)
    requires i + Olds(ops) == |a| && j + News(ops) == |b|
    ensures Ordered(Collect(ops), i, j, |a|, |b|)
    ensures Splice(a, b, Collect(ops), i, j) == Replay(ops, a, b)
    ensures ops != [] && ops[0].kind == Equal && Collect(ops) != [] ==> Collect(ops)[0].aPos > i
    decreases |ops|
  {
    if ops == [] {
      assert a[i..] == [];
    } else if ops[0].kind == Equal {
      assert ops == [ops[0]] + ops[1..];
      FitsSplit([ops[0]], ops[1..], a, b, eq);
      CollectFrom(ops[1..], i + 1, j + 1, a, b, eq);
      OrderedInFront(Collect(ops[1..]), i, j, |a|, |b|);
      SpliceInFront(Collect(ops[1..]), i, j, a, b);
    } else {
      CollectRun(ops, i, j, a, b, eq);
    }
  }

  lemma {:induction false} CollectRun(ops: seq<Op>, i: nat, j: nat, a: seq<Line>, b: seq<Line>, eq: (Line, Line) -> bool)
    requires From(ops, i, j) && Fits(ops, a, b, eq)
    requires i + Olds(ops) == |a| && j + News(ops) == |b|
    requires ops != [] && ops[0].kind != Equal
    ensures Ordered(Collect(ops), i, j, |a|, |b|)
    ensures Splice(a, b, Collect(ops), i, j) == Replay(ops, a, b)
    decreases |ops|, 0
  {
    var run, rest := CutRun(ops, i, j, a, b, eq);
    RunHunk(run, i, j);
    var i', j' := i + Olds(run), j + News(run);
    CollectFrom(rest, i', j', a, b, eq);
    var hunks := [HunkOf(run)] + Collect(rest);
    assert hunks[0] == HunkOf(run) && hunks[1..] == Collect(rest);
    OrderedCons(hunks, |a|, |b|);
    HunkInFront(hunks, i, j, i', j', a, b);
    assert Collect(ops) == hunks;
  }

  /** The run of changes at the front and what is behind it. */
  lemma CutRun(ops: seq<Op>, i: nat, j: nat, a: seq<Line>, b: seq<Line>, eq: (Line, Line) -> bool)
      returns (run: seq<Op>, rest: seq<Op>)
    requires From(ops, i, j) && Fits(ops, a, b, eq)
    requires i + Olds(ops) == |a| && j + News(ops) == |b|
    requires ops != [] && ops[0].kind != Equal
    ensures run != [] && |rest| < |ops| && (rest != [] ==> rest[0].kind == Equal)
    ensures Collect(ops) == [HunkOf(run)] + Collect(rest)
    ensures From(run, i, j) && AllChanged(run)
    ensures From(rest, i + Olds(run), j + News(run)) && Fits(rest, a, b, eq)
    ensures i + Olds(run) + Olds(rest) == |a| && j + News(run) + News(rest) == |b|
    ensures Replay(ops, a, b) == b[j..j + News(run)] + Replay(rest, a, b)
  {
    var n := RunLength(ops);
    run, rest := ops[..n], ops[n..];
    assert ops == run + rest;
    FromSplit(run, rest, i, j);
    CountsSplit(run, rest);
    ReplaySplit(run, rest, a, b, eq);
    RunReplay(run, i, j, a, b, eq);
  }

  lemma RunHunk(run: seq<Op>, i: nat, j: nat)
    requires From(run, i, j) && AllChanged(run) && run != []
    ensures HunkOf(run) == ChangeHunk(i, j, Consecutive(i, Olds(run)), Consecutive(j, News(run)))
    ensures |HunkOf(run).dels| == Olds(run) && |HunkOf(run).ins| == News(run)
    ensures Olds(run) + News(run) > 0
  {
    RunConsecutive(run, i, j);
    RunCount(run);
  }

  lemma OrderedCons(hunks: seq<ChangeHunk>, n: nat, m: nat)
    requires hunks != []
    requires hunks[0].dels == Consecutive(hunks[0].aPos, |hunks[0].dels|)
    requires hunks[0].ins == Consecutive(hunks[0].bPos, |hunks[0].ins|)
    requires |hunks[0].dels| + |hunks[0].ins| > 0
    requires |hunks| > 1 ==> hunks[1].aPos > hunks[0].aPos + |hunks[0].dels|
    requires Ordered(hunks[1..], hunks[0].aPos + |hunks[0].dels|, hunks[0].bPos + |hunks[0].ins|, n, m)
    ensures Ordered(hunks, hunks[0].aPos, hunks[0].bPos, n, m)
  {
  }

  /** A hunk that starts at once splices its inserted range in front of the rest. */
  lemma HunkInFront(hunks: seq<ChangeHunk>, i: nat, j: nat, i': nat, j': nat, a: seq<Line>, b: seq<Line>)
    requires hunks != [] && hunks[0].aPos == i && hunks[0].bPos == j
    requires i' == i + |hunks[0].dels| && j' == j + |hunks[0].ins|
    requires Ordered(hunks, i, j, |a|, |b|) && Ordered(hunks[1..], i', j', |a|, |b|)
    ensures j' <= |b| && Splice(a, b, hunks, i, j) == b[j..j'] + Splice(a, b, hunks[1..], i', j')
  {
    OrderedBounds(hunks[1..], i', j', |a|, |b|);
    SpliceIs(a, b, hunks, i, j);
    NothingKept(a, i, SpliceTail(a, b, hunks));
  }

  lemma NothingKept(a: seq<Line>, i: nat, x: seq<Line>)
    requires i <= |a|
    ensures a[i..i] + x == x
  {
  }

  lemma RunCount(run: seq<Op>)
    requires run != []
    ensures Olds(run) + News(run) > 0
  {
  }

  /** The normal-format hunks of a script are ordered runs of consecutive lines, and
      replacing them one by one in a gives what the script leaves: b, if it is exact. */
  lemma CollectSplices(ops: seq<Op>, a: seq<Line>, b: seq<Line>, eq: (Line, Line) -> bool)
    requires Script(ops, a, b, eq)
    ensures Ordered(Collect(ops), 0, 0, |a|, |b|)
    ensures Splice(a, b, Collect(ops), 0, 0) == Replay(ops, a, b)
    ensures (forall x, y :: eq(x, y) ==> x == y) ==> Splice(a, b, Collect(ops), 0, 0) == b
  {
    CollectFrom(ops, 0, 0, a, b, eq);
    ReplayReaches(ops, a, b, eq);
  }
}
