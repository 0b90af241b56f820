/** Where a search takes the cursor. */
module ViSearch {
  import opened ViBuffer

  /** How many rows a row lies ahead of the cursor, around the end of the buffer. */
  function RowsAhead(t: Buffer, row: nat): nat
    requires row < |t.lines|
  {
    if row >= t.cy then row - t.cy else row + |t.lines| - t.cy
  }

  function RowsBehind(t: Buffer, row: nat): nat
    requires row < |t.lines|
  {
    if row <= t.cy then t.cy - row else t.cy + |t.lines| - row
  }

  /** A match a forward search can find: in the cursor's row it starts behind the cursor.
      The part of that row before the cursor is not searched, not even after going around. */
  predicate IsAhead(t: Buffer, row: nat, col: nat, pat: string) {
    row < |t.lines| && Matches(t.lines[row], col, pat) && (row == t.cy ==> col > t.cx)
  }

  predicate IsBehind(t: Buffer, row: nat, col: nat, pat: string) {
    row < |t.lines| && Matches(t.lines[row], col, pat) && (row == t.cy ==> col + |pat| <= t.cx)
  }

  lemma AheadRow(t: Buffer, off: nat)
    requires off < |t.lines|
    ensures RowsAhead(t, Ahead(t, off)) == off
    ensures forall row :: 0 <= row < |t.lines| && RowsAhead(t, row) == off ==> row == Ahead(t, off)
  {
    var n := |t.lines|;
    if t.cy + off >= n {
      assert t.cy + off == n + (t.cy + off - n);
      Wrap(t.cy + off - n, n);
    }
  }

  lemma Wrap(x: nat, n: nat)
    requires x < n
    ensures (n + x) % n == x
  {
  }

  lemma BehindRow(t: Buffer, off: nat)
    requires off < |t.lines|
    ensures RowsBehind(t, Behind(t, off)) == off
    ensures forall row :: 0 <= row < |t.lines| && RowsBehind(t, row) == off ==> row == Behind(t, off)
  {
    BehindIs(t, off);
  }

  lemma BehindIs(t: Buffer, off: nat)
    requires off < |t.lines|
    ensures Behind(t, off) == if t.cy >= off then t.cy - off else t.cy - off + |t.lines|
  {
    if t.cy >= off {
      Small(t.cy - off, |t.lines|);
      Wrap(t.cy - off, |t.lines|);
    } else {
      WrapDown(t.cy - off, |t.lines|);
      Wrap(t.cy - off + |t.lines|, |t.lines|);
    }
  }

  lemma Small(x: nat, n: nat)
    requires x < n
    ensures x % n == x
  {
  }

  lemma WrapDown(x: int, n: nat)
    requires x < 0 < x + n
    ensures x % n == x + n
  {
  }

  lemma {:induction false} AheadFrom(t: Buffer, off: nat, pat: string)
    requires pat != "" && off <= |t.lines|
    ensures var r := SearchAhead(t, off, pat);
      forall row, col :: IsAhead(t, row, col, pat) && RowsAhead(t, row) >= off ==>
        && IsAhead(t, r.cy, r.cx, pat) && RowsAhead(t, r.cy) <= RowsAhead(t, row)
        && (r.cy == row ==> r.cx <= col)
    ensures var r := SearchAhead(t, off, pat); r == t || IsAhead(t, r.cy, r.cx, pat)
    decreases |t.lines| - off
  {
    if off < |t.lines| {
      AheadRow(t, off);
      if MatchAhead(t, off, pat).None? {
        AheadFrom(t, off + 1, pat);
      }
    }
  }

  lemma {:induction false} BehindFrom(t: Buffer, off: nat, pat: string)
    requires pat != "" && off <= |t.lines|
    ensures var r := SearchBehind(t, off, pat);
      forall row, col :: IsBehind(t, row, col, pat) && RowsBehind(t, row) >= off ==>
        && IsBehind(t, r.cy, r.cx, pat) && RowsBehind(t, r.cy) <= RowsBehind(t, row)
        && (r.cy == row ==> r.cx >= col)
    ensures var r := SearchBehind(t, off, pat); r == t || IsBehind(t, r.cy, r.cx, pat)
    decreases |t.lines| - off
  {
    if off < |t.lines| {
      BehindRow(t, off);
      if MatchBehind(t, off, pat).None? {
        BehindFrom(t, off + 1, pat);
      }
    }
  }

  /** A forward search goes to the nearest match ahead, around the end of the buffer; a
      backward one to the nearest behind. Without one the cursor stays. */
  lemma SearchFindsNearest(t: Buffer, pat: string, forward: bool)
    requires pat != ""
    ensures var r := Search(t, pat, forward);
      if forward then
        && (r == t || IsAhead(t, r.cy, r.cx, pat))
        && forall row, col :: IsAhead(t, row, col, pat) ==>
             && IsAhead(t, r.cy, r.cx, pat) && RowsAhead(t, r.cy) <= RowsAhead(t, row)
             && (r.cy == row ==> r.cx <= col)
      else
        && (r == t || IsBehind(t, r.cy, r.cx, pat))
        && forall row, col :: IsBehind(t, row, col, pat) ==>
             && IsBehind(t, r.cy, r.cx, pat) && RowsBehind(t, r.cy) <= RowsBehind(t, row)
             && (r.cy == row ==> r.cx >= col)
  {
    if forward {
      AheadFrom(t, 0, pat);
    } else {
      BehindFrom(t, 0, pat);
    }
  }
}
