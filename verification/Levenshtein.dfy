/** The edit distance behind the "did you mean" suggestions: the two-row dynamic program
    computes the least number of single-rune edits, and that is a metric. */
module Levenshtein {
  type Runes = seq<char>

  function Min3(a: nat, b: nat, c: nat): nat {
    var m := if b < a then b else a;
    if c < m then c else m
  }

  function Cost(x: char, y: char): nat {
    if x == y then 0 else 1
  }

  function Init(s: Runes): Runes
    requires s != []
  {
    s[..|s| - 1]
  }

  function Last(s: Runes): char
    requires s != []
  {
    s[|s| - 1]
  }

  /** The recurrence the rows tabulate. */
  function Lev(a: Runes, b: Runes): nat
    decreases |a| + |b|
  {
    if a == [] then |b|
    else if b == [] then |a|
    else Min3(Lev(Init(a), b) + 1, Lev(a, Init(b)) + 1, Lev(Init(a), Init(b)) + Cost(Last(a), Last(b)))
  }

  /** The distances from a to every prefix of b. */
  ghost function Row(a: Runes, b: Runes): (row: seq<nat>)
    ensures |row| == |b| + 1 && row[|b|] == Lev(a, b)
  {
    assert b[..|b|] == b;
    seq(|b| + 1, k requires 0 <= k <= |b| => Lev(a, b[..k]))
  }

  lemma RowCell(a: Runes, b: Runes, i: nat, j: nat)
    requires 0 < i <= |a| && 0 < j <= |b|
    ensures Row(a[..i], b)[0] == i
    ensures Row(a[..i], b)[j]
         == Min3(Row(a[..i - 1], b)[j] + 1, Row(a[..i], b)[j - 1] + 1,
                 Row(a[..i - 1], b)[j - 1] + Cost(a[i - 1], b[j - 1]))
  {
    assert Init(a[..i]) == a[..i - 1] && Init(b[..j]) == b[..j - 1];
  }

  method Min(a: nat, b: nat, c: nat) returns (m: nat)
    ensures m == Min3(a, b, c)
    ensures m <= a && m <= b && m <= c && (m == a || m == b || m == c)
  {
    m := a;
    if b < m {
      m := b;
    }
    if c < m {
      m := c;
    }
  }

  /** One row of the table from the row before. */
  method FillRow(a: Runes, b: Runes, i: nat, prev: array<nat>, curr: array<nat>)
    requires 1 <= i <= |a| && b != [] && prev != curr && prev.Length == curr.Length == |b| + 1
    requires prev[..] == Row(a[..i - 1], b)
    modifies curr
    ensures curr[..] == Row(a[..i], b)
  {
    ghost var row := Row(a[..i], b);
    RowCell(a, b, i, 1);
    curr[0] := i;
    for j := 1 to |b| + 1
      invariant forall k :: 0 <= k < j ==> curr[k] == row[k]
    {
      var cost := 1;
      if a[i - 1] == b[j - 1] {
        cost := 0;
      }
      RowCell(a, b, i, j);
      assert prev[..][j] == prev[j] && prev[..][j - 1] == prev[j - 1];
      curr[j] := Min(prev[j] + 1, curr[j - 1] + 1, prev[j - 1] + cost);
    }
  }

  method Distance(a: Runes, b: Runes) returns (d: nat)
    ensures d == Lev(a, b)
  {
    if |a| == 0 {
      return |b|;
    }
    if |b| == 0 {
      return |a|;
    }
    var prev, curr := new nat[|b| + 1], new nat[|b| + 1];
    for j := 0 to |b| + 1
      invariant forall k :: 0 <= k < j ==> prev[k] == k
    {
      prev[j] := j;
    }
    assert prev[..] == Row(a[..0], b);
    for i := 1 to |a| + 1
      invariant fresh(prev) && fresh(curr) && prev != curr && prev.Length == curr.Length == |b| + 1
      invariant prev[..] == Row(a[..i - 1], b)
    {
      FillRow(a, b, i, prev, curr);
      prev, curr := curr, prev;
    }
    assert a[..|a|] == a && prev[..][|b|] == prev[|b|];
    d := prev[|b|];
  }

  // ----- edit scripts

  datatype Edit = Insert(at: nat, c: char) | Delete(at: nat) | Substitute(at: nat, c: char)

  predicate Can(u: Runes, e: Edit) {
    if e.Insert? then e.at <= |u| else e.at < |u|
  }

  function Do(u: Runes, e: Edit): Runes
    requires Can(u, e)
  {
    match e
    case Insert(at, c) => u[..at] + [c] + u[at..]
    case Delete(at) => u[..at] + u[at + 1..]
    case Substitute(at, c) => u[at := c]
  }

  predicate Turns(a: Runes, es: seq<Edit>, b: Runes)
    decreases |es|
  {
    if es == [] then a == b else Can(a, es[0]) && Turns(Do(a, es[0]), es[1..], b)
  }

  /** Scripts compose. */
  lemma {:induction false} TurnsBoth(a: Runes, es: seq<Edit>, b: Runes, fs: seq<Edit>, c: Runes)
    requires Turns(a, es, b) && Turns(b, fs, c)
    ensures Turns(a, es + fs, c)
    decreases |es|
  {
    if es == [] {
      assert [] + fs == fs;
    } else {
      assert (es + fs)[0] == es[0] && (es + fs)[1..] == es[1..] + fs;
      TurnsBoth(Do(a, es[0]), es[1..], b, fs, c);
    }
  }

  /** Edits count positions from the left, so a rune more at the end changes nothing. */
  lemma {:induction false} TurnsMore(a: Runes, es: seq<Edit>, b: Runes, x: char)
    requires Turns(a, es, b)
    ensures Turns(a + [x], es, b + [x])
    decreases |es|
  {
    if es != [] {
      assert Do(a + [x], es[0]) == Do(a, es[0]) + [x];
      TurnsMore(Do(a, es[0]), es[1..], b, x);
    }
  }

  lemma OneEdit(a: Runes, e: Edit, b: Runes)
    requires Can(a, e) && Do(a, e) == b
    ensures Turns(a, [e], b)
  {
    assert [e][1..] == [];
  }

  // ----- no script is shorter

  lemma {:induction false} LevSymmetric(a: Runes, b: Runes)
    ensures Lev(a, b) == Lev(b, a)
    decreases |a| + |b|
  {
    if a != [] && b != [] {
      LevSymmetric(Init(a), b);
      LevSymmetric(a, Init(b));
      LevSymmetric(Init(a), Init(b));
    }
  }

  lemma LevSnoc(a: Runes, x: char, b: Runes)
    ensures Lev(a + [x], b) <= Lev(a, b) + 1
    ensures b != [] ==> Lev(a + [x], b) <= Lev(a + [x], Init(b)) + 1
    ensures b != [] ==> Lev(a + [x], b) <= Lev(a, Init(b)) + Cost(x, Last(b))
    ensures b != [] ==> (
      || Lev(a + [x], b) == Lev(a, b) + 1
      || Lev(a + [x], b) == Lev(a + [x], Init(b)) + 1
      || Lev(a + [x], b) == Lev(a, Init(b)) + Cost(x, Last(b)))
  {
    assert Init(a + [x]) == a && Last(a + [x]) == x;
  }

  /** Dropping the last rune costs at most one edit. */
  lemma {:induction false} LevDrop(p: Runes, x: char, b: Runes)
    ensures Lev(p, b) <= Lev(p + [x], b) + 1
    decreases |b|
  {
    LevSnoc(p, x, b);
    if b != [] {
      LevDrop(p, x, Init(b));
      LevInit(p, b);
    }
  }

  lemma LevInit(p: Runes, b: Runes)
    requires b != []
    ensures Lev(p, b) <= Lev(p, Init(b)) + 1
  {
  }

  lemma {:induction false} LevSwap(p: Runes, x: char, y: char, b: Runes)
    ensures Lev(p + [y], b) <= Lev(p + [x], b) + 1
    decreases |b|
  {
    LevSnoc(p, x, b);
    LevSnoc(p, y, b);
    if b != [] {
      LevSwap(p, x, y, Init(b));
    }
  }

  lemma LevNearEnd(p: Runes, x: Runes, y: Runes, b: Runes)
    requires |x| <= 1 && |y| <= 1
    ensures Lev(p + x, b) <= Lev(p + y, b) + 1
  {
    assert p + [] == p;
    if |x| == 1 {
      assert x == [x[0]];
      LevSnoc(p, x[0], b);
    }
    if |y| == 1 {
      assert y == [y[0]];
      LevDrop(p, y[0], b);
    }
    if |x| == |y| == 1 {
      LevSwap(p, y[0], x[0], b);
    }
  }

  /** Strings that differ in at most one rune are at most one apart from each third one. */
  lemma {:induction false} LevNear(p: Runes, x: Runes, y: Runes, q: Runes, b: Runes)
    requires |x| <= 1 && |y| <= 1
    ensures Lev(p + x + q, b) <= Lev(p + y + q, b) + 1
    decreases |q| + |b|
  {
    if q == [] {
      assert p + x + [] == p + x && p + y + [] == p + y;
      LevNearEnd(p, x, y, b);
    } else {
      assert p + x + q == p + x + Init(q) + [Last(q)] && p + y + q == p + y + Init(q) + [Last(q)];
      LevSnoc(p + x + Init(q), Last(q), b);
      LevSnoc(p + y + Init(q), Last(q), b);
      LevNear(p, x, y, Init(q), b);
      if b != [] {
        LevNear(p, x, y, q, Init(b));
        LevNear(p, x, y, Init(q), Init(b));
      }
    }
  }

  /** An edit replaces at most one rune by at most one rune. */
  lemma EditParts(a: Runes, e: Edit) returns (p: Runes, x: Runes, y: Runes, q: Runes)
    requires Can(a, e)
    ensures |x| <= 1 && |y| <= 1 && a == p + x + q && Do(a, e) == p + y + q
  {
    p := a[..e.at];
    x := if e.Insert? then [] else [a[e.at]];
    y := if e.Delete? then [] else [e.c];
    q := a[e.at + |x|..];
  }

  lemma LevEdit(a: Runes, e: Edit, b: Runes)
    requires Can(a, e)
    ensures Lev(a, b) <= Lev(Do(a, e), b) + 1
  {
    var p, x, y, q := EditParts(a, e);
    LevNear(p, x, y, q, b);
  }

  lemma {:induction false} LevSelf(a: Runes)
    ensures Lev(a, a) == 0
    decreases |a|
  {
    if a != [] {
      LevSelf(Init(a));
    }
  }

  /** No edit script is shorter than the computed distance. */
  lemma {:induction false} NoShorterScript(a: Runes, es: seq<Edit>, b: Runes)
    requires Turns(a, es, b)
    ensures |es| >= Lev(a, b)
    decreases |es|
  {
    if es == [] {
      LevSelf(a);
    } else {
      LevEdit(a, es[0], b);
      NoShorterScript(Do(a, es[0]), es[1..], b);
    }
  }

  /** Some edit script is as short as the computed distance. */
  lemma {:induction false} ShortestScript(a: Runes, b: Runes) returns (es: seq<Edit>)
    ensures Turns(a, es, b) && |es| == Lev(a, b)
    decreases |a| + |b|
  {
    if a == [] && b == [] {
      es := [];
    } else if a != [] && Lev(a, b) == Lev(Init(a), b) + 1 {
      var e := DeleteLast(a);
      var rest := ShortestScript(Init(a), b);
      TurnsBoth(a, [e], Init(a), rest, b);
      es := [e] + rest;
    } else if b != [] && Lev(a, b) == Lev(a, Init(b)) + 1 {
      var most := ShortestScript(a, Init(b));
      var e := InsertLast(b);
      TurnsBoth(a, most, Init(b), [e], b);
      es := most + [e];
    } else {
      var most := ShortestScript(Init(a), Init(b));
      es := AlsoLast(a, most, b);
    }
  }

  lemma AlsoLast(a: Runes, most: seq<Edit>, b: Runes) returns (es: seq<Edit>)
    requires a != [] && b != [] && Turns(Init(a), most, Init(b))
    ensures Turns(a, es, b) && |es| == |most| + Cost(Last(a), Last(b))
  {
    es := most;
    TurnsMore(Init(a), es, Init(b), Last(a));
    assert Init(a) + [Last(a)] == a && Init(b) + [Last(b)] == b;
    if Last(a) != Last(b) {
      var e := ChangeLast(b, Last(a));
      TurnsBoth(a, es, Init(b) + [Last(a)], [e], b);
      es := es + [e];
    }
  }

  lemma DeleteLast(a: Runes) returns (e: Edit)
    requires a != []
    ensures Turns(a, [e], Init(a))
  {
    e := Delete(|a| - 1);
    OneEdit(a, e, Init(a));
  }

  lemma InsertLast(b: Runes) returns (e: Edit)
    requires b != []
    ensures Turns(Init(b), [e], b)
  {
    e := Insert(|b| - 1, Last(b));
    OneEdit(Init(b), e, b);
  }

  lemma ChangeLast(b: Runes, x: char) returns (e: Edit)
    requires b != []
    ensures Turns(Init(b) + [x], [e], b)
  {
    e := Substitute(|b| - 1, Last(b));
    OneEdit(Init(b) + [x], e, b);
  }

  /** The distance is a metric. */
  lemma Metric(a: Runes, b: Runes, c: Runes)
    ensures Lev(a, b) == 0 <==> a == b
    ensures Lev(a, b) == Lev(b, a)
    ensures Lev(a, c) <= Lev(a, b) + Lev(b, c)
  {
    LevSelf(a);
    LevSymmetric(a, b);
    var es := ShortestScript(a, b);
    var fs := ShortestScript(b, c);
    TurnsBoth(a, es, b, fs, c);
    NoShorterScript(a, es + fs, c);
  }
}
