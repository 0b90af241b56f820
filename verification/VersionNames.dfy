/** What ls -v is for: numbers inside names are compared as numbers, everything else as
    it is. */
module VersionNames {
  import opened Sequences
  import opened Text
  import opened VersionSort

  /** Two parts of a name that do not run a number together. */
  predicate Apart(p: string, s: string) {
    p == "" || s == "" || !IsDigit(p[|p| - 1]) || !IsDigit(s[0])
  }

  lemma {:induction false} RunLengthIs(d: string, x: string)
    requires AreDigits(d) && (x == "" || !IsDigit(x[0]))
    ensures RunLength(d + x) == |d|
    decreases |d|
  {
    if d == "" {
      assert d + x == x;
    } else {
      assert d[0] in d && (d + x)[1..] == d[1..] + x;
      RunLengthIs(d[1..], x);
    }
  }

  lemma NumberFirst(d: string, x: string)
    requires d != "" && AreDigits(d) && (x == "" || !IsDigit(x[0]))
    ensures Tokens(d + x) == [Digits(Number(d))] + Tokens(x)
  {
    RunLengthIs(d, x);
    assert d[0] in d && (d + x)[..|d|] == d && (d + x)[|d|..] == x;
  }

  lemma {:induction false} RunInFront(p: string, s: string)
    requires p != "" && IsDigit(p[0]) && Apart(p, s)
    ensures RunLength(p + s) == RunLength(p)
    decreases |p|
  {
    assert (p + s)[0] == p[0] && (p + s)[1..] == p[1..] + s;
    if |p| == 1 {
      assert p[1..] == "" && p[1..] + s == s;
    } else if IsDigit(p[1]) {
      assert p[1..][0] == p[1];
      RunInFront(p[1..], s);
    } else {
      assert (p[1..] + s)[0] == p[1] && p[1..][0] == p[1];
    }
  }

  /** The length of the first token, and the token. */
  function FirstLength(p: string): (n: nat)
    requires p != ""
    ensures 0 < n <= |p|
  {
    if IsDigit(p[0]) then RunLength(p) else 1
  }

  function FirstToken(p: string): Token
    requires p != ""
  {
    if IsDigit(p[0]) then Digits(Number(p[..FirstLength(p)])) else Other(p[0])
  }

  lemma OneToken(p: string)
    requires p != ""
    ensures Tokens(p) == [FirstToken(p)] + Tokens(p[FirstLength(p)..])
  {
  }

  lemma SameFirst(p: string, s: string, n: nat)
    requires p != "" && Apart(p, s) && n == FirstLength(p)
    ensures FirstLength(p + s) == n && FirstToken(p + s) == FirstToken(p)
    ensures (p + s)[n..] == p[n..] + s && Apart(p[n..], s)
  {
    if IsDigit(p[0]) {
      RunInFront(p, s);
    }
    assert (p + s)[..n] == p[..n];
  }

  /** The parts of a name are its tokens one after another. */
  lemma {:induction false} TokensApart(p: string, s: string)
    requires Apart(p, s)
    ensures Tokens(p + s) == Tokens(p) + Tokens(s)
    decreases |p|
  {
    if p == "" {
      assert p + s == s && [] + Tokens(s) == Tokens(s);
    } else {
      var n := FirstLength(p);
      SameFirst(p, s, n);
      OneToken(p);
      OneToken(p + s);
      TokensApart(p[n..], s);
      Reassociate([FirstToken(p)], Tokens(p[n..]), Tokens(s));
    }
  }

  lemma {:induction false} LexFront(ts: seq<Token>, xs: seq<Token>, ys: seq<Token>)
    ensures Lex(ts + xs, ts + ys) == Lex(xs, ys)
    decreases |ts|
  {
    if ts == [] {
      assert ts + xs == xs && ts + ys == ys;
    } else {
      assert (ts + xs)[1..] == ts[1..] + xs && (ts + ys)[1..] == ts[1..] + ys;
      LexFront(ts[1..], xs, ys);
    }
  }

  /** Names that differ in one number are in the order of the numbers, leading zeros or
      not; with equal numbers what follows decides. */
  lemma NumbersDecide(p: string, d: string, x: string, e: string, y: string)
    requires d != "" && e != "" && AreDigits(d) && AreDigits(e)
    requires (p == "" || !IsDigit(p[|p| - 1])) && (x == "" || !IsDigit(x[0])) && (y == "" || !IsDigit(y[0]))
    ensures Number(d) < Number(e) ==> Compare(p + (d + x), p + (e + y)) < 0
    ensures Number(d) > Number(e) ==> Compare(p + (d + x), p + (e + y)) > 0
    ensures Number(d) == Number(e) ==> Compare(p + (d + x), p + (e + y)) == Compare(x, y)
  {
    TokensApart(p, d + x);
    TokensApart(p, e + y);
    LexFront(Tokens(p), Tokens(d + x), Tokens(e + y));
    NumberFirst(d, x);
    NumberFirst(e, y);
    SameKind(Digits(Number(d)), Tokens(x), Digits(Number(e)), Tokens(y));
  }

  /** So file2 comes before file10. */
  lemma CountedNames(p: string, m: nat, n: nat, x: string)
    requires m < n && (p == "" || !IsDigit(p[|p| - 1])) && (x == "" || !IsDigit(x[0]))
    ensures Compare(p + (Decimal(m) + x), p + (Decimal(n) + x)) < 0
  {
    DecimalDigits(m);
    DecimalDigits(n);
    ValueDecimal(m);
    ValueDecimal(n);
    NumbersDecide(p, Decimal(m), x, Decimal(n), x);
  }

  predicate NoDigits(s: string) {
    s == "" || (!IsDigit(s[0]) && NoDigits(s[1..]))
  }

  /** Without digits names are in the order of their bytes. */
  lemma {:induction false} WithoutDigits(a: string, b: string)
    requires NoDigits(a) && NoDigits(b)
    ensures Compare(a, b) == if a == b then 0 else if Less(a, b) then -1 else 1
    decreases |a|
  {
    if a != "" && b != "" {
      WithoutDigits(a[1..], b[1..]);
      SameKind(Other(a[0]), Tokens(a[1..]), Other(b[0]), Tokens(b[1..]));
      assert a == [a[0]] + a[1..] && b == [b[0]] + b[1..];
    }
  }

  /** What comes first decides, and a name comes before a longer one that begins with it. */
  lemma PrefixFirst(p: string, s: string)
    requires Apart(p, s) && s != ""
    ensures Compare(p, p + s) < 0
  {
    TokensApart(p, s);
    TokensEmpty(s);
    assert Tokens(p) + [] == Tokens(p);
    LexFront(Tokens(p), [], Tokens(s));
  }

  lemma BytesDecide(p: string, s: string, t: string)
    requires (p == "" || !IsDigit(p[|p| - 1])) && s != "" && t != ""
    requires !(IsDigit(s[0]) && IsDigit(t[0])) && s[0] < t[0]
    ensures Compare(p + s, p + t) < 0
  {
    TokensApart(p, s);
    TokensApart(p, t);
    LexFront(Tokens(p), Tokens(s), Tokens(t));
    assert s[0..] == s && t[0..] == t;
    if IsDigit(s[0]) != IsDigit(t[0]) {
      MixedTokens(s, 0, t, 0);
    } else {
      OtherToken(s, 0);
      OtherToken(t, 0);
      SameKind(Other(s[0]), Tokens(s[1..]), Other(t[0]), Tokens(t[1..]));
    }
  }

  /** In the listing: grouped directories before everything else, then smaller numbers
      before larger ones, and of names that only differ in leading zeros the one that is
      less as a string. */
  lemma ListingOrder(groupDirs: bool, a: Entry, b: Entry, p: string, d: string, e: string, x: string)
    requires d != "" && e != "" && AreDigits(d) && AreDigits(e)
    requires (p == "" || !IsDigit(p[|p| - 1])) && (x == "" || !IsDigit(x[0]))
    requires a.name == p + (d + x) && b.name == p + (e + x)
    ensures groupDirs && a.isDir && !b.isDir ==> EntryLess(groupDirs, a, b)
    ensures !groupDirs || a.isDir == b.isDir ==>
      (EntryLess(groupDirs, a, b) <==> Number(d) < Number(e) || (Number(d) == Number(e) && Less(a.name, b.name)))
  {
    NumbersDecide(p, d, x, e, x);
    LexAntisymmetric(Tokens(x), Tokens(x));
  }
}
