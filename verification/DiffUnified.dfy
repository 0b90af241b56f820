/** groupUnified and unifiedRange: which ops go into which hunk of a unified diff, and
    what the hunk's header says. */
module DiffUnified {
  import opened DiffScript

  const CONTEXT := 3

  datatype Range = Range(lo: nat, hi: nat)

  /** Op k is a change or within three ops of one. */
  ghost predicate Near(ops: seq<Op>, k: int) {
    exists c :: 0 <= c < |ops| && ops[c].kind != Equal && c - CONTEXT <= k <= c + CONTEXT
  }

  ghost predicate InSome(ranges: seq<Range>, k: int) {
    exists r :: 0 <= r < |ranges| && ranges[r].lo <= k < ranges[r].hi
  }

  /** The ranges are in order with ops between them, so none can be merged. */
  predicate Separated(ranges: seq<Range>, n: nat) {
    && (forall r :: 0 <= r < |ranges| ==> ranges[r].lo < ranges[r].hi <= n)
    && (forall r, s :: 0 <= r < s < |ranges| ==> ranges[r].hi < ranges[s].lo)
  }

  /** The ranges a unified diff is to show: together exactly the ops near a change, each
      as long as it can be. */
  ghost predicate Grouping(ops: seq<Op>, ranges: seq<Range>) {
    && Separated(ranges, |ops|)
    && forall k :: 0 <= k < |ops| ==> (Near(ops, k) <==> InSome(ranges, k))
  }

  function Groups(ops: seq<Op>, ranges: seq<Range>): (groups: seq<seq<Op>>)
    requires Separated(ranges, |ops|)
  {
    seq(|ranges|, r requires 0 <= r < |ranges| => ops[ranges[r].lo..ranges[r].hi])
  }

  function Max0(n: int): nat {
    if n < 0 then 0 else n
  }

  function Min(a: nat, b: nat): nat {
    if a < b then a else b
  }

  // ----- the loop over the changed indices

  ghost predicate NearAny(changed: seq<nat>, k: int) {
    exists x :: 0 <= x < |changed| && changed[x] - CONTEXT <= k <= changed[x] + CONTEXT
  }

  /** The indices of the first t changed ops. */
  ghost predicate ChangedIn(ops: seq<Op>, changed: seq<nat>, n: nat) {
    && n <= |ops|
    && (forall x :: 0 <= x < |changed| ==> changed[x] < n && ops[changed[x]].kind != Equal)
    && (forall x, y :: 0 <= x < y < |changed| ==> changed[x] < changed[y])
    && (forall c :: 0 <= c < n && ops[c].kind != Equal ==> c in changed)
  }

  method ChangedOps(ops: seq<Op>) returns (changed: seq<nat>)
    ensures ChangedIn(ops, changed, |ops|)
  {
    changed := [];
    for i := 0 to |ops|
      invariant ChangedIn(ops, changed, i)
    {
      if ops[i].kind != Equal {
        changed := changed + [i];
      }
    }
  }

  /** All closed ranges and the open one cover what is near the changes seen so far. */
  ghost predicate Covered(ranges: seq<Range>, start: nat, end: nat, changed: seq<nat>, n: nat) {
    && changed != []
    && start <= changed[|changed| - 1] < n
    && (start == 0 || start + CONTEXT <= changed[|changed| - 1])
    && end == Min(n, changed[|changed| - 1] + 1 + CONTEXT)
    && Separated(ranges + [Range(start, end)], n)
    && forall k :: 0 <= k < n ==> (NearAny(changed, k) <==> (InSome(ranges, k) || start <= k < end))
  }

  lemma NearAppend(changed: seq<nat>, c: nat, k: int)
    ensures NearAny(changed + [c], k) <==> NearAny(changed, k) || c - CONTEXT <= k <= c + CONTEXT
  {
    if NearAny(changed, k) {
      var x :| 0 <= x < |changed| && changed[x] - CONTEXT <= k <= changed[x] + CONTEXT;
      assert (changed + [c])[x] == changed[x];
    }
    assert (changed + [c])[|changed|] == c;
  }

  lemma InSomeAppend(ranges: seq<Range>, r: Range, k: int)
    ensures InSome(ranges + [r], k) <==> InSome(ranges, k) || r.lo <= k < r.hi
  {
    if InSome(ranges, k) {
      var x :| 0 <= x < |ranges| && ranges[x].lo <= k < ranges[x].hi;
      assert (ranges + [r])[x] == ranges[x];
    }
    assert (ranges + [r])[|ranges|] == r;
  }

  lemma SeparatedDrop(ranges: seq<Range>, r: Range, n: nat)
    requires Separated(ranges + [r], n)
    ensures Separated(ranges, n) && r.lo < r.hi <= n
    ensures forall s :: 0 <= s < |ranges| ==> ranges[s].hi < r.lo
  {
    var all := ranges + [r];
    assert all[|ranges|] == r;
    forall s | 0 <= s < |ranges| ensures all[s] == ranges[s] {}
  }

  lemma SeparatedAppend(ranges: seq<Range>, r: Range, n: nat)
    requires Separated(ranges, n) && r.lo < r.hi <= n
    requires forall s :: 0 <= s < |ranges| ==> ranges[s].hi < r.lo
    ensures Separated(ranges + [r], n)
  {
  }

  lemma FirstRange(c: nat, n: nat)
    requires c < n
    ensures Covered([], Max0(c - CONTEXT), Min(n, c + 1 + CONTEXT), [c], n)
  {
    forall k | 0 <= k < n
      ensures NearAny([c], k) <==> (InSome([], k) || Max0(c - CONTEXT) <= k < Min(n, c + 1 + CONTEXT))
    {
      NearAppend([], c, k);
      assert [] + [c] == [c];
    }
  }

  lemma Merge(ranges: seq<Range>, start: nat, end: nat, changed: seq<nat>, c: nat, n: nat)
    requires Covered(ranges, start, end, changed, n) && changed[|changed| - 1] < c < n
    requires c - CONTEXT <= end
    ensures Covered(ranges, start, Min(n, c + 1 + CONTEXT), changed + [c], n)
  {
    var end' := Min(n, c + 1 + CONTEXT);
    forall k | 0 <= k < n
      ensures NearAny(changed + [c], k) <==> (InSome(ranges, k) || start <= k < end')
    {
      NearAppend(changed, c, k);
    }
    SeparatedDrop(ranges, Range(start, end), n);
    SeparatedAppend(ranges, Range(start, end'), n);
  }

  lemma OpenNew(ranges: seq<Range>, start: nat, end: nat, changed: seq<nat>, c: nat, n: nat)
    requires Covered(ranges, start, end, changed, n) && changed[|changed| - 1] < c < n
    requires c - CONTEXT > end
    ensures Covered(ranges + [Range(start, end)], Max0(c - CONTEXT), Min(n, c + 1 + CONTEXT), changed + [c], n)
  {
    forall k | 0 <= k < n
      ensures NearAny(changed + [c], k) <==>
        InSome(ranges + [Range(start, end)], k) || Max0(c - CONTEXT) <= k < Min(n, c + 1 + CONTEXT)
    {
      NearAppend(changed, c, k);
      InSomeAppend(ranges, Range(start, end), k);
    }
    var all := ranges + [Range(start, end)];
    forall s | 0 <= s < |all| ensures all[s].hi < Max0(c - CONTEXT) {
      if s < |ranges| {
        SeparatedDrop(ranges, Range(start, end), n);
      }
    }
    SeparatedAppend(all, Range(Max0(c - CONTEXT), Min(n, c + 1 + CONTEXT)), n);
  }

  lemma CoveredAll(ops: seq<Op>, ranges: seq<Range>, start: nat, end: nat, changed: seq<nat>)
    requires ChangedIn(ops, changed, |ops|) && Covered(ranges, start, end, changed, |ops|)
    ensures Grouping(ops, ranges + [Range(start, end)])
  {
    forall k | 0 <= k < |ops| ensures Near(ops, k) <==> InSome(ranges + [Range(start, end)], k) {
      InSomeAppend(ranges, Range(start, end), k);
      NearIsNearAny(ops, changed, k);
    }
  }

  lemma NearIsNearAny(ops: seq<Op>, changed: seq<nat>, k: int)
    requires ChangedIn(ops, changed, |ops|)
    ensures Near(ops, k) <==> NearAny(changed, k)
  {
    if Near(ops, k) {
      var c :| 0 <= c < |ops| && ops[c].kind != Equal && c - CONTEXT <= k <= c + CONTEXT;
      assert c in changed;
    }
    if NearAny(changed, k) {
      var x :| 0 <= x < |changed| && changed[x] - CONTEXT <= k <= changed[x] + CONTEXT;
      assert ops[changed[x]].kind != Equal;
    }
  }

  lemma GroupsAppend(ops: seq<Op>, ranges: seq<Range>, r: Range)
    requires Separated(ranges + [r], |ops|)
    ensures Separated(ranges, |ops|) && r.lo <= r.hi <= |ops|
    ensures Groups(ops, ranges + [r]) == Groups(ops, ranges) + [ops[r.lo..r.hi]]
  {
    SeparatedDrop(ranges, r, |ops|);
  }

  /** The groups are the ops of ranges that are a grouping. */
  ghost predicate AreGroups(ops: seq<Op>, groups: seq<seq<Op>>) {
    exists ranges :: Grouping(ops, ranges) && groups == Groups(ops, ranges)
  }

  lemma NoChanges(ops: seq<Op>, changed: seq<nat>)
    requires ChangedIn(ops, changed, |ops|) && changed == []
    ensures Grouping(ops, [])
  {
    forall k | 0 <= k < |ops| ensures !Near(ops, k) {
      NearIsNearAny(ops, changed, k);
    }
  }

  method GroupUnified(ops: seq<Op>) returns (groups: seq<seq<Op>>)
    ensures AreGroups(ops, groups)
  {
    var changed := ChangedOps(ops);
    groups := [];
    ghost var ranges: seq<Range> := [];
    if |changed| == 0 {
      NoChanges(ops, changed);
      return;
    }
    var start, end := Max0(changed[0] - CONTEXT), Min(|ops|, changed[0] + 1 + CONTEXT);
    FirstRange(changed[0], |ops|);
    assert changed[..1] == [changed[0]];
    for x := 1 to |changed|
      invariant Covered(ranges, start, end, changed[..x], |ops|)
      invariant Separated(ranges, |ops|) && groups == Groups(ops, ranges)
    {
      var ci := changed[x];
      assert changed[..x + 1] == changed[..x] + [ci];
      if ci - CONTEXT <= end {
        Merge(ranges, start, end, changed[..x], ci, |ops|);
        end := Min(|ops|, ci + 1 + CONTEXT);
        continue;
      }
      OpenNew(ranges, start, end, changed[..x], ci, |ops|);
      GroupsAppend(ops, ranges, Range(start, end));
      groups := groups + [ops[start..end]];
      ranges := ranges + [Range(start, end)];
      start := Max0(ci - CONTEXT);
      end := Min(|ops|, ci + 1 + CONTEXT);
    }
    assert changed[..|changed|] == changed;
    CoveredAll(ops, ranges, start, end, changed);
    GroupsAppend(ops, ranges, Range(start, end));
    groups := groups + [ops[start..end]];
    ranges := ranges + [Range(start, end)];
    assert Grouping(ops, ranges);
  }

  // ----- there is only one grouping

  lemma SameStart(ops: seq<Op>, x: seq<Range>, y: seq<Range>, k: nat)
    requires Grouping(ops, x) && Grouping(ops, y)
    requires k < |x| && k <= |y| && x[..k] == y[..k]
    ensures k < |y| && y[k].lo <= x[k].lo
  {
    forall s | 0 <= s < k ensures y[s].hi < x[k].lo {
      assert y[..k][s] == x[..k][s];
    }
    assert InSome(x, x[k].lo);
    var s :| 0 <= s < |y| && y[s].lo <= x[k].lo < y[s].hi;
    assert k <= s;
  }

  lemma InRange(ranges: seq<Range>, r: nat, k: int)
    requires r < |ranges|
    ensures ranges[r].lo <= k < ranges[r].hi ==> InSome(ranges, k)
  {
  }

  lemma SameEnd(ops: seq<Op>, x: seq<Range>, y: seq<Range>, k: nat)
    requires Grouping(ops, x) && Grouping(ops, y)
    requires k < |x| && k < |y| && x[k].lo == y[k].lo
    ensures y[k].hi <= x[k].hi
  {
    var h := x[k].hi;
    forall s | 0 <= s < |x| ensures !(x[s].lo <= h < x[s].hi) {
      if s < k {
        assert x[s].hi < x[k].lo;
      } else if s > k {
        assert x[k].hi < x[s].lo;
      }
    }
    assert !InSome(x, h);
    InRange(y, k, h);
  }

  /** The conditions on the ranges leave no choice. */
  lemma {:induction false} OneGrouping(ops: seq<Op>, x: seq<Range>, y: seq<Range>, k: nat)
    requires Grouping(ops, x) && Grouping(ops, y)
    requires k <= |x| && k <= |y| && x[..k] == y[..k]
    ensures x == y
    decreases |x| - k
  {
    if k < |x| {
      SameStart(ops, x, y, k);
      SameStart(ops, y, x, k);
      SameEnd(ops, x, y, k);
      SameEnd(ops, y, x, k);
      assert x[..k + 1] == x[..k] + [x[k]] && y[..k + 1] == y[..k] + [y[k]];
      OneGrouping(ops, x, y, k + 1);
    } else {
      if k < |y| {
        SameStart(ops, y, x, k);
        assert false;
      }
    }
  }

  // ----- headers

  datatype Header = Header(aStart: nat, aLen: nat, bStart: nat, bLen: nat)

  /** 1-based number of the first line of a (of b) a group shows, 0 if it shows none. */
  function FirstOld(g: seq<Op>): nat {
    if g == [] then 0 else if g[0].kind != Insert then g[0].ai + 1 else FirstOld(g[1..])
  }

  function FirstNew(g: seq<Op>): nat {
    if g == [] then 0 else if g[0].kind != Delete then g[0].bi + 1 else FirstNew(g[1..])
  }

  function HeaderOf(g: seq<Op>): Header {
    Header(FirstOld(g), Olds(g), FirstNew(g), News(g))
  }

  method UnifiedRange(g: seq<Op>) returns (h: Header)
    ensures h == HeaderOf(g)
  {
    var aStart, bStart, aLen, bLen := -1, -1, 0, 0;
    for k := 0 to |g|
      invariant aLen + Olds(g[k..]) == Olds(g) && bLen + News(g[k..]) == News(g) && aLen >= 0 && bLen >= 0
      invariant -1 <= aStart && -1 <= bStart && aStart != 0 && bStart != 0
      invariant FirstOld(g) == if aStart < 0 then FirstOld(g[k..]) else aStart
      invariant FirstNew(g) == if bStart < 0 then FirstNew(g[k..]) else bStart
    {
      assert g[k..][1..] == g[k + 1..];
      var o := g[k];
      if o.kind != Insert {
        if aStart < 0 {
          aStart := o.ai + 1;
        }
        aLen := aLen + 1;
      }
      if o.kind != Delete {
        if bStart < 0 {
          bStart := o.bi + 1;
        }
        bLen := bLen + 1;
      }
    }
    if aStart < 0 {
      aStart := 0;
    }
    if bStart < 0 {
      bStart := 0;
    }
    h := Header(aStart, aLen, bStart, bLen);
  }

  lemma {:induction false} FirstOfGroup(g: seq<Op>, i: nat, j: nat)
    requires From(g, i, j)
    ensures FirstOld(g) == if Olds(g) == 0 then 0 else i + 1
    ensures FirstNew(g) == if News(g) == 0 then 0 else j + 1
  {
    if g != [] {
      FirstOfGroup(g[1..], g[0].NextA(), g[0].NextB());
    }
  }

  // ----- what a grouping means for a script

  lemma NearChange(ops: seq<Op>, c: nat, k: int)
    requires c < |ops| && c - CONTEXT <= k <= c + CONTEXT
    ensures ops[c].kind != Equal ==> Near(ops, k)
  {
  }

  lemma OutsideEqual(ops: seq<Op>, ranges: seq<Range>, k: nat)
    requires Grouping(ops, ranges) && k < |ops| && !InSome(ranges, k)
    ensures ops[k].kind == Equal
  {
    NearChange(ops, k, k);
  }

  /** Every changed op lies in one group and in no other; ops in no group are equal. */
  lemma ChangedInOneGroup(ops: seq<Op>, ranges: seq<Range>, k: nat)
    requires Grouping(ops, ranges) && k < |ops|
    ensures ops[k].kind != Equal ==>
      exists r :: 0 <= r < |ranges| && ranges[r].lo <= k < ranges[r].hi
        && forall s :: 0 <= s < |ranges| && ranges[s].lo <= k < ranges[s].hi ==> s == r
  {
    if ops[k].kind != Equal {
      NearChange(ops, k, k);
      var r :| 0 <= r < |ranges| && ranges[r].lo <= k < ranges[r].hi;
      assert forall s :: 0 <= s < |ranges| && ranges[s].lo <= k < ranges[s].hi ==> s == r;
    }
  }

  lemma BeforeRange(ranges: seq<Range>, n: nat, r: nat)
    requires Separated(ranges, n) && r < |ranges|
    ensures !InSome(ranges, ranges[r].lo - 1)
  {
    forall s | 0 <= s < |ranges| ensures !(ranges[s].lo <= ranges[r].lo - 1 < ranges[s].hi) {
      if s < r {
        assert ranges[s].hi < ranges[r].lo;
      } else if s > r {
        assert ranges[r].hi < ranges[s].lo;
      }
    }
  }

  /** A group begins with a kept line unless it begins with the script itself. */
  lemma GroupStart(ops: seq<Op>, ranges: seq<Range>, r: nat)
    requires Grouping(ops, ranges) && r < |ranges| && ranges[r].lo > 0
    ensures ops[ranges[r].lo].kind == Equal
  {
    BeforeRange(ranges, |ops|, r);
    NearChange(ops, ranges[r].lo, ranges[r].lo - 1);
  }

  /** The header of a group in a script: its lengths are those of the slices of a and b
      it covers, its starts their 1-based places; a start of 0 means that this side of
      the group is empty, and then the group is at the front of the script. */
  lemma HeaderMatches(ops: seq<Op>, ranges: seq<Range>, r: nat)
    requires Grouping(ops, ranges) && From(ops, 0, 0) && r < |ranges|
    ensures var lo, hi := ranges[r].lo, ranges[r].hi;
      var h := HeaderOf(ops[lo..hi]);
      && h.aLen == Olds(ops[..hi]) - Olds(ops[..lo])
      && h.bLen == News(ops[..hi]) - News(ops[..lo])
      && h.aStart == (if h.aLen == 0 then 0 else Olds(ops[..lo]) + 1)
      && h.bStart == (if h.bLen == 0 then 0 else News(ops[..lo]) + 1)
      && (h.aLen == 0 || h.bLen == 0 ==> lo == 0)
  {
    var lo, hi := ranges[r].lo, ranges[r].hi;
    var g := ops[lo..hi];
    OldsSlice(ops, lo, hi);
    OpAt(ops, lo);
    assert ops[lo..] == g + ops[hi..];
    FromSplit(g, ops[hi..], Olds(ops[..lo]), News(ops[..lo]));
    FirstOfGroup(g, Olds(ops[..lo]), News(ops[..lo]));
    if lo > 0 {
      GroupStart(ops, ranges, r);
      assert g[0] == ops[lo];
    }
  }

  /** A group shows the three ops before and behind each change, and no op that is further
      away from all changes. */
  lemma ThreeLinesAround(ops: seq<Op>, ranges: seq<Range>, k: nat)
    requires Grouping(ops, ranges) && k < |ops|
    ensures (exists r :: 0 <= r < |ranges| && ranges[r].lo <= k < ranges[r].hi)
       <==> exists c :: 0 <= c < |ops| && ops[c].kind != Equal && -3 <= k - c <= 3
  {
    assert Near(ops, k) <==> InSome(ranges, k);
    if c :| 0 <= c < |ops| && ops[c].kind != Equal && -3 <= k - c <= 3 {
      assert c - CONTEXT <= k <= c + CONTEXT;
    }
    if c :| 0 <= c < |ops| && ops[c].kind != Equal && c - CONTEXT <= k <= c + CONTEXT {
      assert -3 <= k - c <= 3;
    }
  }
}
