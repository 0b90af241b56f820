/** Why the walk through the prefix table may be cut off: a walk longer than the table
    has met some code twice, so the program's loop would never leave it. */
module LzwWalk {
  import opened Bits
  import opened LzwCodes

  /** The code after i prefix links. */
  function Nth(prefix: seq<Code>, c: Code, i: nat): Code
    requires |prefix| == 65536
  {
    if i == 0 then c else prefix[Nth(prefix, c, i - 1)]
  }

  lemma {:induction false} NthFromNext(prefix: seq<Code>, c: Code, i: nat)
    requires |prefix| == 65536
    ensures Nth(prefix, c, i + 1) == Nth(prefix, prefix[c], i)
  {
    if i > 0 {
      NthFromNext(prefix, c, i - 1);
    }
  }

  lemma {:induction false} WalkStays(prefix: seq<Code>, suffix: seq<Byte>, c: Code, fuel: nat, i: nat)
    requires |prefix| == |suffix| == 65536
    requires Chain(prefix, suffix, c, fuel).Diverges? && i <= fuel
    ensures Nth(prefix, c, i) >= 256
    decreases fuel
  {
    if i > 0 {
      NthFromNext(prefix, c, i - 1);
      WalkStays(prefix, suffix, prefix[c], fuel - 1, i - 1);
    }
  }

  lemma {:induction false} StaysThenDiverges(prefix: seq<Code>, suffix: seq<Byte>, c: Code, fuel: nat)
    requires |prefix| == |suffix| == 65536
    requires forall i :: 0 <= i <= fuel ==> Nth(prefix, c, i) >= 256
    ensures Chain(prefix, suffix, c, fuel).Diverges?
    decreases fuel
  {
    assert Nth(prefix, c, 0) == c;
    if fuel > 0 {
      forall i | 0 <= i <= fuel - 1 ensures Nth(prefix, prefix[c], i) >= 256 {
        NthFromNext(prefix, c, i);
        assert Nth(prefix, c, i + 1) >= 256;
      }
      StaysThenDiverges(prefix, suffix, prefix[c], fuel - 1);
    }
  }

  function Below(n: nat): (s: set<int>)
    ensures |s| == n
    ensures forall k :: k in s <==> 0 <= k < n
  {
    if n == 0 then {} else Below(n - 1) + {n - 1}
  }

  lemma {:induction false} DistinctCount(s: seq<int>)
    requires forall i, j :: 0 <= i < j < |s| ==> s[i] != s[j]
    ensures |set x | x in s| == |s|
  {
    if s != [] {
      var n := |s| - 1;
      DistinctCount(s[..n]);
      assert s == s[..n] + [s[n]];
      assert (set x | x in s) == (set x | x in s[..n]) + {s[n]};
    }
  }

  lemma DistinctFit(s: seq<Code>)
    requires forall i, j :: 0 <= i < j < |s| ==> s[i] != s[j]
    ensures |s| <= 65536
  {
    DistinctCount(s);
    var values: set<int> := set x | x in s;
    assert Below(65536) == values + (Below(65536) - values);
  }

  /** Among more than 65536 codes two are the same. */
  lemma Repetition(s: seq<Code>)
    requires |s| > 65536
    ensures exists i, j :: 0 <= i < j < |s| && s[i] == s[j]
  {
    if forall i, j :: 0 <= i < j < |s| ==> s[i] != s[j] {
      DistinctFit(s);
      assert false;
    }
  }

  lemma {:induction false} Period(prefix: seq<Code>, c: Code, i: nat, j: nat, k: nat)
    requires |prefix| == 65536 && Nth(prefix, c, i) == Nth(prefix, c, j)
    ensures Nth(prefix, c, i + k) == Nth(prefix, c, j + k)
  {
    if k > 0 {
      Period(prefix, c, i, j, k - 1);
    }
  }

  lemma {:induction false} NeverLeaves(prefix: seq<Code>, c: Code, i: nat, j: nat, k: nat)
    requires |prefix| == 65536 && i < j && Nth(prefix, c, i) == Nth(prefix, c, j)
    requires forall n :: 0 <= n <= j ==> Nth(prefix, c, n) >= 256
    ensures Nth(prefix, c, k) >= 256
    decreases k
  {
    if k > j {
      Period(prefix, c, i, j, k - j);
      NeverLeaves(prefix, c, i, j, i + (k - j));
    }
  }

  /** The cut-off is exact: beyond it no number of steps brings the walk to an end. */
  lemma WalkLimitExact(prefix: seq<Code>, suffix: seq<Byte>, c: Code, fuel: nat)
    requires |prefix| == |suffix| == 65536
    requires Chain(prefix, suffix, c, WALK_LIMIT).Diverges?
    ensures Chain(prefix, suffix, c, fuel).Diverges?
  {
    var s: seq<Code> := seq(65537, n requires 0 <= n => Nth(prefix, c, n));
    Repetition(s);
    var i, j :| 0 <= i < j < |s| && s[i] == s[j];
    forall n | 0 <= n <= j ensures Nth(prefix, c, n) >= 256 {
      WalkStays(prefix, suffix, c, WALK_LIMIT, n);
    }
    forall k | 0 <= k <= fuel ensures Nth(prefix, c, k) >= 256 {
      NeverLeaves(prefix, c, i, j, k);
    }
    StaysThenDiverges(prefix, suffix, c, fuel);
  }
}
