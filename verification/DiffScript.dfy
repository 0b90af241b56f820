/** Edit scripts between two lists of lines, independent of how they are found. */
module DiffScript {
  type Line = string

  datatype Kind = Equal | Delete | Insert

  /** ai and bi are the lines of a and b consumed before the op. */
  datatype Op = Op(kind: Kind, ai: nat, bi: nat) {
    function NextA(): nat {
      if kind == Insert then ai else ai + 1
    }

    function NextB(): nat {
      if kind == Delete then bi else bi + 1
    }
  }

  /** How many lines of a, and of b, a script consumes. */
  function Olds(ops: seq<Op>): nat {
    if ops == [] then 0 else (if ops[0].kind == Insert then 0 else 1) + Olds(ops[1..])
  }

  function News(ops: seq<Op>): nat {
    if ops == [] then 0 else (if ops[0].kind == Delete then 0 else 1) + News(ops[1..])
  }

  function Equals(ops: seq<Op>): nat {
    if ops == [] then 0 else (if ops[0].kind == Equal then 1 else 0) + Equals(ops[1..])
  }

  /** The cost of a script: its deletes and inserts. */
  function Changes(ops: seq<Op>): nat {
    if ops == [] then 0 else (if ops[0].kind == Equal then 0 else 1) + Changes(ops[1..])
  }

  /** The ops carry on from (i, j) without leaving a line out or taking one twice. */
  predicate From(ops: seq<Op>, i: nat, j: nat) {
    ops == [] ||
    (ops[0].ai == i && ops[0].bi == j && From(ops[1..], ops[0].NextA(), ops[0].NextB()))
  }

  /** Every op names lines that exist, and equal ones where it says so. */
  predicate Fits(ops: seq<Op>, a: seq<Line>, b: seq<Line>, eq: (Line, Line) -> bool) {
    forall k :: 0 <= k < |ops| ==>
      && (ops[k].kind != Insert ==> ops[k].ai < |a|)
      && (ops[k].kind != Delete ==> ops[k].bi < |b|)
      && (ops[k].kind == Equal ==> eq(a[ops[k].ai], b[ops[k].bi]))
  }

  /** An edit script that turns all of a into all of b. */
  predicate Script(ops: seq<Op>, a: seq<Line>, b: seq<Line>, eq: (Line, Line) -> bool) {
    From(ops, 0, 0) && Olds(ops) == |a| && News(ops) == |b| && Fits(ops, a, b, eq)
  }

  /** The lines a script leaves: kept lines of a and inserted lines of b. */
  function Replay(ops: seq<Op>, a: seq<Line>, b: seq<Line>): seq<Line>
    requires forall k :: 0 <= k < |ops| ==>
      (ops[k].kind == Equal ==> ops[k].ai < |a|) && (ops[k].kind == Insert ==> ops[k].bi < |b|)
  {
    if ops == [] then []
    else
      var rest := Replay(ops[1..], a, b);
      match ops[0].kind
      case Equal => [a[ops[0].ai]] + rest
      case Delete => rest
      case Insert => [b[ops[0].bi]] + rest
  }

  function Same(): (Line, Line) -> bool {
    (x, y) => x == y
  }

  // ----- splitting

  lemma {:induction false} CountsSplit(x: seq<Op>, y: seq<Op>)
    ensures Olds(x + y) == Olds(x) + Olds(y) && News(x + y) == News(x) + News(y)
    ensures Equals(x + y) == Equals(x) + Equals(y) && Changes(x + y) == Changes(x) + Changes(y)
  {
    if x == [] {
      assert x + y == y;
    } else {
      assert (x + y)[1..] == x[1..] + y;
      CountsSplit(x[1..], y);
    }
  }

  lemma {:induction false} FromSplit(x: seq<Op>, y: seq<Op>, i: nat, j: nat)
    ensures From(x + y, i, j) <==> From(x, i, j) && From(y, i + Olds(x), j + News(x))
  {
    if x == [] {
      assert x + y == y;
    } else {
      assert (x + y)[1..] == x[1..] + y;
      FromSplit(x[1..], y, x[0].NextA(), x[0].NextB());
    }
  }

  lemma {:induction false} ReplaySplit(x: seq<Op>, y: seq<Op>, a: seq<Line>, b: seq<Line>, eq: (Line, Line) -> bool)
    requires Fits(x + y, a, b, eq)
    ensures Fits(x, a, b, eq) && Fits(y, a, b, eq)
    ensures Replay(x + y, a, b) == Replay(x, a, b) + Replay(y, a, b)
  {
    FitsSplit(x, y, a, b, eq);
    if x == [] {
      assert x + y == y;
    } else {
      assert (x + y)[1..] == x[1..] + y;
      ReplaySplit(x[1..], y, a, b, eq);
    }
  }

  lemma FitsSplit(x: seq<Op>, y: seq<Op>, a: seq<Line>, b: seq<Line>, eq: (Line, Line) -> bool)
    requires Fits(x + y, a, b, eq)
    ensures Fits(x, a, b, eq) && Fits(y, a, b, eq)
  {
    forall k | 0 <= k < |x| ensures x[k] == (x + y)[k] {}
    forall k | 0 <= k < |y| ensures y[k] == (x + y)[|x| + k] {}
  }

  /** The op at index k starts where the ops before it end. */
  lemma OpAt(ops: seq<Op>, k: nat)
    requires From(ops, 0, 0) && k < |ops|
    ensures ops[k].ai == Olds(ops[..k]) && ops[k].bi == News(ops[..k])
    ensures From(ops[k..], ops[k].ai, ops[k].bi)
  {
    assert ops == ops[..k] + ops[k..];
    FromSplit(ops[..k], ops[k..], 0, 0);
  }

  lemma OldsSlice(ops: seq<Op>, i: nat, j: nat)
    requires i <= j <= |ops|
    ensures Olds(ops[..j]) == Olds(ops[..i]) + Olds(ops[i..j])
    ensures News(ops[..j]) == News(ops[..i]) + News(ops[i..j])
  {
    assert ops[..j] == ops[..i] + ops[i..j];
    CountsSplit(ops[..i], ops[i..j]);
  }

  // ----- what a script achieves

  lemma {:induction false} ReplayFrom(ops: seq<Op>, i: nat, j: nat, a: seq<Line>, b: seq<Line>, eq: (Line, Line) -> bool)
    requires From(ops, i, j) && Fits(ops, a, b, eq)
    requires j + News(ops) == |b|
    ensures |Replay(ops, a, b)| == |b| - j
    ensures forall k :: 0 <= k < |b| - j ==> Replay(ops, a, b)[k] == b[j + k] || eq(Replay(ops, a, b)[k], b[j + k])
  {
    if ops != [] {
      var o := ops[0];
      assert ops == [o] + ops[1..];
      FitsSplit([o], ops[1..], a, b, eq);
      ReplayFrom(ops[1..], o.NextA(), o.NextB(), a, b, eq);
      if o.kind != Delete {
        var rest := Replay(ops[1..], a, b);
        forall k | 0 < k < |b| - j ensures Replay(ops, a, b)[k] == rest[k - 1] && b[j + k] == b[j + 1 + (k - 1)] {}
      }
    }
  }

  /** Replaying a script over the exact relation turns a into b; over any relation it
      yields b up to that relation, line by line. */
  lemma ReplayReaches(ops: seq<Op>, a: seq<Line>, b: seq<Line>, eq: (Line, Line) -> bool)
    requires Script(ops, a, b, eq)
    ensures |Replay(ops, a, b)| == |b|
    ensures forall k :: 0 <= k < |b| ==> Replay(ops, a, b)[k] == b[k] || eq(Replay(ops, a, b)[k], b[k])
    ensures (forall x, y :: eq(x, y) ==> x == y) ==> Replay(ops, a, b) == b
  {
    ReplayFrom(ops, 0, 0, a, b, eq);
  }

  /** Few changes and many equal lines are the same thing. */
  lemma {:induction false} ChangesAndEquals(ops: seq<Op>)
    ensures Changes(ops) + 2 * Equals(ops) == Olds(ops) + News(ops)
  {
    if ops != [] {
      ChangesAndEquals(ops[1..]);
    }
  }
}
