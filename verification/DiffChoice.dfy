/** Which of the shortest edit scripts diffLines finds. */
module DiffChoice {
  import opened DiffScript
  import opened DiffLcs

  /** Two related lines at the place of op k are kept. */
  predicate KeepsRelated(ops: seq<Op>, k: nat, a: seq<Line>, b: seq<Line>, eq: (Line, Line) -> bool)
    requires k < |ops|
  {
    var o := ops[k];
    o.ai < |a| && o.bi < |b| && eq(a[o.ai], b[o.bi]) ==> o.kind == Equal
  }

  /** Where op k inserts, no script as short that begins alike deletes there. */
  ghost predicate DeletesFirst(ops: seq<Op>, k: nat, a: seq<Line>, b: seq<Line>, eq: (Line, Line) -> bool)
    requires k < |ops|
  {
    ops[k].kind == Insert ==>
      forall other :: Script(other, a, b, eq) && Deviates(other, ops, k) ==> Changes(other) > Changes(ops)
  }

  /** The script deletes at k, behind the same ops. */
  predicate Deviates(other: seq<Op>, ops: seq<Op>, k: nat) {
    k < |ops| && k < |other| && other[..k] == ops[..k] && other[k].kind == Delete
  }

  /** A shortest script that keeps related lines and deletes before it inserts. */
  ghost predicate Preferred(ops: seq<Op>, a: seq<Line>, b: seq<Line>, eq: (Line, Line) -> bool) {
    && Script(ops, a, b, eq)
    && (forall other :: Script(other, a, b, eq) ==> Changes(ops) <= Changes(other))
    && forall k :: 0 <= k < |ops| ==> KeepsRelated(ops, k, a, b, eq) && DeletesFirst(ops, k, a, b, eq)
  }

  /** The walk from its k-th op on is the walk from that op's place. */
  lemma {:induction false} WalkRest(a: seq<Line>, b: seq<Line>, eq: (Line, Line) -> bool, i: nat, j: nat, k: nat)
    requires i <= |a| && j <= |b| && k < |Walk(a, b, eq, i, j)|
    ensures var ops := Walk(a, b, eq, i, j); var o := ops[k];
      && o.ai <= |a| && o.bi <= |b| && (o.ai < |a| || o.bi < |b|)
      && o == Step(a, b, eq, o.ai, o.bi) && ops[k..] == Walk(a, b, eq, o.ai, o.bi)
    decreases k
  {
    var ops := Walk(a, b, eq, i, j);
    if k > 0 {
      var o := Step(a, b, eq, i, j);
      assert ops[1..] == Walk(a, b, eq, o.NextA(), o.NextB());
      WalkRest(a, b, eq, o.NextA(), o.NextB(), k - 1);
      assert ops[k] == ops[1..][k - 1] && ops[k..] == ops[1..][k - 1..];
    }
  }

  /** A script that deletes at (i, j) and goes on from there keeps fewer lines than the
      walk, where the walk inserts. */
  lemma DeletingKeepsLess(a: seq<Line>, b: seq<Line>, eq: (Line, Line) -> bool, i: nat, j: nat, rest: seq<Op>)
    requires i < |a| && j <= |b| && Step(a, b, eq, i, j).kind == Insert
    requires From(rest, i + 1, j) && Fits(rest, a, b, eq)
    ensures Equals(rest) < Equals(Walk(a, b, eq, i, j))
  {
    WalkScript(a, b, eq, i, j);
    MatchedCommon(rest, a, b, eq, i + 1, j);
    CommonBound(Matched(rest), a, b, eq, i + 1, j);
  }

  lemma EqualsAt(ops: seq<Op>, k: nat)
    requires k <= |ops|
    ensures Equals(ops) == Equals(ops[..k]) + Equals(ops[k..])
  {
    assert ops == ops[..k] + ops[k..];
    CountsSplit(ops[..k], ops[k..]);
  }

  /** The place of op k, and what follows a deletion there. */
  lemma BehindDelete(other: seq<Op>, k: nat, a: seq<Line>, b: seq<Line>, eq: (Line, Line) -> bool)
    requires Script(other, a, b, eq) && k < |other| && other[k].kind == Delete
    ensures other[k].ai == Olds(other[..k]) < |a| && other[k].bi == News(other[..k])
    ensures From(other[k + 1..], other[k].ai + 1, other[k].bi) && Fits(other[k + 1..], a, b, eq)
    ensures Equals(other) == Equals(other[..k]) + Equals(other[k + 1..])
  {
    OpAt(other, k);
    assert other[k..][1..] == other[k + 1..];
    EqualsAt(other, k);
    assert other == other[..k + 1] + other[k + 1..];
    FitsSplit(other[..k + 1], other[k + 1..], a, b, eq);
  }

  lemma FewerEquals(x: seq<Op>, y: seq<Op>)
    requires Olds(x) == Olds(y) && News(x) == News(y) && Equals(x) < Equals(y)
    ensures Changes(x) > Changes(y)
  {
    ChangesAndEquals(x);
    ChangesAndEquals(y);
  }

  lemma DeviatingIsLonger(a: seq<Line>, b: seq<Line>, eq: (Line, Line) -> bool, ops: seq<Op>, k: nat, other: seq<Op>)
    requires ops == Walk(a, b, eq, 0, 0)
    requires k < |ops| && ops[k].kind == Insert && Script(other, a, b, eq) && Deviates(other, ops, k)
    ensures Changes(other) > Changes(ops)
  {
    WalkScript(a, b, eq, 0, 0);
    WalkRest(a, b, eq, 0, 0, k);
    OpAt(ops, k);
    BehindDelete(other, k, a, b, eq);
    DeletingKeepsLess(a, b, eq, ops[k].ai, ops[k].bi, other[k + 1..]);
    EqualsAt(ops, k);
    FewerEquals(other, ops);
  }

  lemma WalkPreferred(a: seq<Line>, b: seq<Line>, eq: (Line, Line) -> bool)
    ensures Preferred(Walk(a, b, eq, 0, 0), a, b, eq)
  {
    var ops := Walk(a, b, eq, 0, 0);
    DiffOptimal(a, b, eq);
    forall k | 0 <= k < |ops| ensures KeepsRelated(ops, k, a, b, eq) && DeletesFirst(ops, k, a, b, eq) {
      WalkRest(a, b, eq, 0, 0, k);
      if ops[k].kind == Insert {
        forall other | Script(other, a, b, eq) && Deviates(other, ops, k) ensures Changes(other) > Changes(ops) {
          DeviatingIsLonger(a, b, eq, ops, k, other);
        }
      }
    }
  }

  /** Preferred scripts agree as far as both go. */
  lemma {:induction false} PreferredAgree(x: seq<Op>, y: seq<Op>, k: nat, a: seq<Line>, b: seq<Line>, eq: (Line, Line) -> bool)
    requires Preferred(x, a, b, eq) && Preferred(y, a, b, eq) && k <= |x| && k <= |y|
    ensures x[..k] == y[..k]
  {
    if k > 0 {
      PreferredAgree(x, y, k - 1, a, b, eq);
      OpAt(x, k - 1);
      OpAt(y, k - 1);
      assert KeepsRelated(x, k - 1, a, b, eq) && KeepsRelated(y, k - 1, a, b, eq);
      assert DeletesFirst(x, k - 1, a, b, eq) && DeletesFirst(y, k - 1, a, b, eq);
      assert x[..k] == x[..k - 1] + [x[k - 1]] && y[..k] == y[..k - 1] + [y[k - 1]];
      assert Deviates(x, y, k - 1) || Deviates(y, x, k - 1) || x[k - 1] == y[k - 1];
    }
  }

  /** Only one script is a shortest one that keeps related lines and deletes first, and it
      is the one diffLines finds. */
  lemma OnlyPreferred(ops: seq<Op>, a: seq<Line>, b: seq<Line>, eq: (Line, Line) -> bool)
    ensures Preferred(ops, a, b, eq) <==> ops == Walk(a, b, eq, 0, 0)
  {
    var walk := Walk(a, b, eq, 0, 0);
    WalkPreferred(a, b, eq);
    if Preferred(ops, a, b, eq) {
      var k := if |ops| < |walk| then |ops| else |walk|;
      PreferredAgree(ops, walk, k, a, b, eq);
      SameLength(ops, walk, k);
    }
  }

  lemma LongerCounts(x: seq<Op>, k: nat)
    requires k < |x|
    ensures Olds(x) + News(x) > Olds(x[..k]) + News(x[..k])
  {
    assert x == x[..k] + x[k..];
    CountsSplit(x[..k], x[k..]);
  }

  /** A script of both files cannot be the front of a longer one. */
  lemma SameLength(x: seq<Op>, y: seq<Op>, k: nat)
    requires k == (if |x| < |y| then |x| else |y|) && x[..k] == y[..k]
    requires Olds(x) == Olds(y) && News(x) == News(y)
    ensures x == y
  {
    assert x[..|x|] == x && y[..|y|] == y;
    if k < |x| {
      LongerCounts(x, k);
    } else if k < |y| {
      LongerCounts(y, k);
    }
  }
}
