/** diffLines: the longest-common-subsequence table and the walk along it. */
module DiffLcs {
  import opened DiffScript

  /** The length the table holds for a[i..] and b[j..]. */
  function Lcs(a: seq<Line>, b: seq<Line>, eq: (Line, Line) -> bool, i: nat, j: nat): nat
    requires i <= |a| && j <= |b|
    decreases |a| - i + |b| - j
  {
    if i == |a| || j == |b| then 0
    else if eq(a[i], b[j]) then Lcs(a, b, eq, i + 1, j + 1) + 1
    else if Lcs(a, b, eq, i + 1, j) >= Lcs(a, b, eq, i, j + 1) then Lcs(a, b, eq, i + 1, j)
    else Lcs(a, b, eq, i, j + 1)
  }

  /** The op the walk takes at (i, j). */
  function Step(a: seq<Line>, b: seq<Line>, eq: (Line, Line) -> bool, i: nat, j: nat): Op
    requires i <= |a| && j <= |b| && (i < |a| || j < |b|)
  {
    if i < |a| && j < |b| then
      if eq(a[i], b[j]) then Op(Equal, i, j)
      else if Lcs(a, b, eq, i + 1, j) >= Lcs(a, b, eq, i, j + 1) then Op(Delete, i, j)
      else Op(Insert, i, j)
    else if i < |a| then Op(Delete, i, j)
    else Op(Insert, i, j)
  }

  /** The walk from (i, j): a match is taken at once, otherwise the better side, the
      deletion when both are as good. */
  function Walk(a: seq<Line>, b: seq<Line>, eq: (Line, Line) -> bool, i: nat, j: nat): seq<Op>
    requires i <= |a| && j <= |b|
    decreases |a| - i + |b| - j
  {
    if i == |a| && j == |b| then []
    else
      var o := Step(a, b, eq, i, j);
      [o] + Walk(a, b, eq, o.NextA(), o.NextB())
  }

  /** The table is filled below row i, and in row i from column j on; its last column
      still holds the zeros it was made with. */
  ghost predicate Filled(lcs: array2<nat>, a: seq<Line>, b: seq<Line>, eq: (Line, Line) -> bool, i: int, j: int)
    reads lcs
  {
    && lcs.Length0 == |a| + 1 && lcs.Length1 == |b| + 1
    && (forall x, y :: 0 <= x <= |a| && 0 <= y <= |b| && (x > i || (x == i && y >= j)) ==>
          lcs[x, y] == Lcs(a, b, eq, x, y))
    && (forall x :: 0 <= x <= |a| ==> lcs[x, |b|] == 0)
  }

  /** One cell of the table, from its right, lower and diagonal neighbours. */
  method FillCell(lcs: array2<nat>, a: seq<Line>, b: seq<Line>, eq: (Line, Line) -> bool, i: nat, j: nat)
    requires i < |a| && j < |b| && Filled(lcs, a, b, eq, i, j + 1)
    modifies lcs
    ensures Filled(lcs, a, b, eq, i, j)
  {
    if eq(a[i], b[j]) {
      lcs[i, j] := lcs[i + 1, j + 1] + 1;
    } else if lcs[i + 1, j] >= lcs[i, j + 1] {
      lcs[i, j] := lcs[i + 1, j];
    } else {
      lcs[i, j] := lcs[i, j + 1];
    }
    assert lcs[i, j] == Lcs(a, b, eq, i, j);
  }

  method LcsTable(a: seq<Line>, b: seq<Line>, eq: (Line, Line) -> bool) returns (lcs: array2<nat>)
    ensures fresh(lcs) && Filled(lcs, a, b, eq, 0, 0)
  {
    var n, m := |a|, |b|;
    lcs := new nat[n + 1, m + 1]((i, j) => 0);
    for i := n downto 0
      invariant Filled(lcs, a, b, eq, i, 0)
    {
      assert Filled(lcs, a, b, eq, i, m);
      for j := m downto 0
        invariant Filled(lcs, a, b, eq, i, j)
      {
        FillCell(lcs, a, b, eq, i, j);
      }
    }
  }

  ghost predicate WalkedTo(a: seq<Line>, b: seq<Line>, eq: (Line, Line) -> bool, i: nat, j: nat, ops: seq<Op>) {
    i <= |a| && j <= |b| && Walk(a, b, eq, 0, 0) == ops + Walk(a, b, eq, i, j)
  }

  lemma WalkStep(a: seq<Line>, b: seq<Line>, eq: (Line, Line) -> bool, i: nat, j: nat, ops: seq<Op>)
    requires WalkedTo(a, b, eq, i, j, ops) && (i < |a| || j < |b|)
    ensures var o := Step(a, b, eq, i, j); WalkedTo(a, b, eq, o.NextA(), o.NextB(), ops + [o])
  {
    var o := Step(a, b, eq, i, j);
    assert Walk(a, b, eq, i, j) == [o] + Walk(a, b, eq, o.NextA(), o.NextB());
    assert ops + ([o] + Walk(a, b, eq, o.NextA(), o.NextB())) == ops + [o] + Walk(a, b, eq, o.NextA(), o.NextB());
  }

  method DiffLines(a: seq<Line>, b: seq<Line>, eq: (Line, Line) -> bool) returns (ops: seq<Op>)
    ensures ops == Walk(a, b, eq, 0, 0)
  {
    var n, m := |a|, |b|;
    var lcs := LcsTable(a, b, eq);
    ops := [];
    var i, j := 0, 0;
    while i < n && j < m
      invariant WalkedTo(a, b, eq, i, j, ops) && Filled(lcs, a, b, eq, 0, 0)
      decreases n - i + m - j
    {
      WalkStep(a, b, eq, i, j, ops);
      ghost var o := Step(a, b, eq, i, j);
      if eq(a[i], b[j]) {
        assert o == Op(Equal, i, j);
        ops := ops + [Op(Equal, i, j)];
        i, j := i + 1, j + 1;
      } else if lcs[i + 1, j] >= lcs[i, j + 1] {
        assert o == Op(Delete, i, j);
        ops := ops + [Op(Delete, i, j)];
        i := i + 1;
      } else {
        assert o == Op(Insert, i, j);
        ops := ops + [Op(Insert, i, j)];
        j := j + 1;
      }
    }
    while i < n
      invariant WalkedTo(a, b, eq, i, j, ops) && (i == n || j == m)
    {
      WalkStep(a, b, eq, i, j, ops);
      ops := ops + [Op(Delete, i, j)];
      i := i + 1;
    }
    while j < m
      invariant WalkedTo(a, b, eq, i, j, ops) && i == n
    {
      WalkStep(a, b, eq, i, j, ops);
      ops := ops + [Op(Insert, i, j)];
      j := j + 1;
    }
    assert ops + [] == ops;
  }

  // ----- optimality, for any relation eq

  /** One line less, on either side, loses at most one match. */
  lemma {:induction false} LcsSteps(a: seq<Line>, b: seq<Line>, eq: (Line, Line) -> bool, i: nat, j: nat)
    requires i <= |a| && j <= |b|
    ensures i < |a| ==> Lcs(a, b, eq, i + 1, j) <= Lcs(a, b, eq, i, j) <= Lcs(a, b, eq, i + 1, j) + 1
    ensures j < |b| ==> Lcs(a, b, eq, i, j + 1) <= Lcs(a, b, eq, i, j) <= Lcs(a, b, eq, i, j + 1) + 1
    decreases |a| - i + |b| - j
  {
    if i < |a| && j < |b| {
      LcsSteps(a, b, eq, i + 1, j + 1);
      LcsSteps(a, b, eq, i + 1, j);
      LcsSteps(a, b, eq, i, j + 1);
    }
  }

  /** A common subsequence: matching index pairs that increase on both sides. */
  predicate Common(pairs: seq<(nat, nat)>, a: seq<Line>, b: seq<Line>, eq: (Line, Line) -> bool, i: nat, j: nat) {
    pairs != [] ==>
      && i <= pairs[0].0 < |a| && j <= pairs[0].1 < |b|
      && eq(a[pairs[0].0], b[pairs[0].1])
      && Common(pairs[1..], a, b, eq, pairs[0].0 + 1, pairs[0].1 + 1)
  }

  lemma {:induction false} CommonBound(pairs: seq<(nat, nat)>, a: seq<Line>, b: seq<Line>, eq: (Line, Line) -> bool, i: nat, j: nat)
    requires i <= |a| && j <= |b| && Common(pairs, a, b, eq, i, j)
    ensures |pairs| <= Lcs(a, b, eq, i, j)
    decreases |a| - i + |b| - j
  {
    if pairs != [] {
      LcsSteps(a, b, eq, i, j);
      if pairs[0] == (i, j) {
        CommonBound(pairs[1..], a, b, eq, i + 1, j + 1);
      } else if pairs[0].0 > i {
        CommonBound(pairs, a, b, eq, i + 1, j);
      } else {
        CommonBound(pairs, a, b, eq, i, j + 1);
      }
    }
  }

  /** The index pairs of a script's equal ops. */
  function Matched(ops: seq<Op>): seq<(nat, nat)> {
    if ops == [] then []
    else (if ops[0].kind == Equal then [(ops[0].ai, ops[0].bi)] else []) + Matched(ops[1..])
  }

  lemma {:induction false} MatchedCommon(ops: seq<Op>, a: seq<Line>, b: seq<Line>, eq: (Line, Line) -> bool, i: nat, j: nat)
    requires From(ops, i, j) && Fits(ops, a, b, eq)
    ensures Common(Matched(ops), a, b, eq, i, j) && |Matched(ops)| == Equals(ops)
  {
    if ops != [] {
      var o := ops[0];
      assert ops == [o] + ops[1..];
      FitsSplit([o], ops[1..], a, b, eq);
      MatchedCommon(ops[1..], a, b, eq, o.NextA(), o.NextB());
      var rest := Matched(ops[1..]);
      CommonEarlier(rest, a, b, eq, o.NextA(), o.NextB(), i, j);
      assert [o][0] == o && ([(i, j)] + rest)[1..] == rest && [] + rest == rest;
    }
  }

  lemma CommonEarlier(pairs: seq<(nat, nat)>, a: seq<Line>, b: seq<Line>, eq: (Line, Line) -> bool, i: nat, j: nat, i': nat, j': nat)
    requires Common(pairs, a, b, eq, i, j) && i' <= i && j' <= j
    ensures Common(pairs, a, b, eq, i', j')
  {
  }

  lemma Extend(o: Op, ops: seq<Op>, a: seq<Line>, b: seq<Line>, eq: (Line, Line) -> bool)
    requires From(ops, o.NextA(), o.NextB()) && Fits([o], a, b, eq) && Fits(ops, a, b, eq)
    ensures From([o] + ops, o.ai, o.bi) && Fits([o] + ops, a, b, eq)
    ensures Olds([o] + ops) == Olds(ops) + (if o.kind == Insert then 0 else 1)
    ensures News([o] + ops) == News(ops) + (if o.kind == Delete then 0 else 1)
    ensures Equals([o] + ops) == Equals(ops) + (if o.kind == Equal then 1 else 0)
  {
    assert ([o] + ops)[1..] == ops;
    forall k | 0 < k < |ops| + 1 ensures ([o] + ops)[k] == ops[k - 1] {}
    assert [o][0] == o;
  }

  lemma {:induction false} WalkScript(a: seq<Line>, b: seq<Line>, eq: (Line, Line) -> bool, i: nat, j: nat)
    requires i <= |a| && j <= |b|
    ensures var ops := Walk(a, b, eq, i, j);
      From(ops, i, j) && Olds(ops) == |a| - i && News(ops) == |b| - j && Fits(ops, a, b, eq)
      && Equals(ops) == Lcs(a, b, eq, i, j)
    decreases |a| - i + |b| - j
  {
    if i < |a| || j < |b| {
      var o := Step(a, b, eq, i, j);
      WalkScript(a, b, eq, o.NextA(), o.NextB());
      Extend(o, Walk(a, b, eq, o.NextA(), o.NextB()), a, b, eq);
    }
  }

  /** The script diffLines finds turns a into b, its equal lines form a longest common
      subsequence, and no edit script has fewer deletes and inserts. */
  lemma DiffOptimal(a: seq<Line>, b: seq<Line>, eq: (Line, Line) -> bool)
    ensures var ops := Walk(a, b, eq, 0, 0);
      && Script(ops, a, b, eq)
      && Common(Matched(ops), a, b, eq, 0, 0)
      && (forall pairs :: Common(pairs, a, b, eq, 0, 0) ==> |pairs| <= |Matched(ops)|)
      && (forall other :: Script(other, a, b, eq) ==> Changes(ops) <= Changes(other))
  {
    var ops := Walk(a, b, eq, 0, 0);
    WalkScript(a, b, eq, 0, 0);
    MatchedCommon(ops, a, b, eq, 0, 0);
    ChangesAndEquals(ops);
    forall pairs | Common(pairs, a, b, eq, 0, 0) ensures |pairs| <= |Matched(ops)| {
      CommonBound(pairs, a, b, eq, 0, 0);
    }
    forall other | Script(other, a, b, eq) ensures Changes(ops) <= Changes(other) {
      MatchedCommon(other, a, b, eq, 0, 0);
      CommonBound(Matched(other), a, b, eq, 0, 0);
      ChangesAndEquals(other);
    }
  }
}
