/** ls -v: names compared with their digit runs as numbers. */
module VersionSort {
  import opened Text

  // ----- numbers

  predicate AreDigits(d: string) {
    forall c :: c in d ==> IsDigit(c)
  }

  function Number(d: string): nat {
    Value(d, 0, |d|)
  }

  /** strings.TrimLeft(d, "0"). */
  function TrimZeros(d: string): string {
    if d != "" && d[0] == '0' then TrimZeros(d[1..]) else d
  }

  /** The order of strings in Go: byte by byte, a prefix first. */
  predicate Less(a: string, b: string) {
    b != "" && (a == "" || a[0] < b[0] || (a[0] == b[0] && Less(a[1..], b[1..])))
  }

  function Pow10(n: nat): (p: nat)
    ensures p > 0
  {
    if n == 0 then 1 else 10 * Pow10(n - 1)
  }

  lemma NumberSnoc(d: string, c: char)
    ensures Number(d + [c]) == 10 * Number(d) + DigitValue(c)
  {
    ValuePrefix(d, [c], |d|);
  }

  lemma {:induction false} NumberZero(d: string)
    ensures Number("0" + d) == Number(d)
    decreases |d|
  {
    if d == "" {
      NumberSnoc("", '0');
      assert "" + "0" == "0" + "";
    } else {
      var most, c := d[..|d| - 1], d[|d| - 1];
      assert d == most + [c] && "0" + d == ("0" + most) + [c];
      NumberZero(most);
      NumberSnoc(most, c);
      NumberSnoc("0" + most, c);
    }
  }

  lemma {:induction false} NumberTrim(d: string)
    requires AreDigits(d)
    ensures Number(TrimZeros(d)) == Number(d) && AreDigits(TrimZeros(d))
    ensures TrimZeros(d) != "" ==> TrimZeros(d)[0] != '0'
  {
    if d != "" && d[0] == '0' {
      assert d == "0" + d[1..];
      NumberZero(d[1..]);
      NumberTrim(d[1..]);
    }
  }

  lemma {:induction false} NumberBound(d: string)
    requires AreDigits(d)
    ensures Number(d) < Pow10(|d|)
    ensures d != "" && d[0] != '0' ==> Number(d) >= Pow10(|d| - 1)
    decreases |d|
  {
    if d != "" {
      var most, c := d[..|d| - 1], d[|d| - 1];
      assert d == most + [c] && c in d;
      NumberBound(most);
      NumberSnoc(most, c);
    }
  }

  lemma {:induction false} Pow10Grows(m: nat, n: nat)
    requires m <= n
    ensures Pow10(m) <= Pow10(n)
    decreases n
  {
    if m < n {
      Pow10Grows(m, n - 1);
    }
  }

  /** Without leading zeros the shorter number is less. */
  lemma ShorterIsLess(x: string, y: string)
    requires AreDigits(x) && AreDigits(y) && |x| < |y| && y[0] != '0'
    ensures Number(x) < Number(y)
  {
    NumberBound(x);
    NumberBound(y);
    Pow10Grows(|x|, |y| - 1);
  }

  lemma {:induction false} LessSnoc(x: string, c: char, y: string, d: char)
    requires |x| == |y|
    ensures Less(x + [c], y + [d]) <==> Less(x, y) || (x == y && c < d)
    decreases |x|
  {
    if x == "" {
      assert ("" + [c])[1..] == "" && ("" + [d])[1..] == "";
    } else {
      assert (x + [c])[1..] == x[1..] + [c] && (y + [d])[1..] == y[1..] + [d];
      LessSnoc(x[1..], c, y[1..], d);
      assert x == [x[0]] + x[1..] && y == [y[0]] + y[1..];
    }
  }

  /** Among digits of the same number the string order is the numeric one. */
  lemma {:induction false} SameLength(x: string, y: string)
    requires AreDigits(x) && AreDigits(y) && |x| == |y|
    ensures Less(x, y) <==> Number(x) < Number(y)
    ensures x == y <==> Number(x) == Number(y)
    decreases |x|
  {
    if x != "" {
      var p, c, q, d := x[..|x| - 1], x[|x| - 1], y[..|y| - 1], y[|y| - 1];
      assert x == p + [c] && y == q + [d] && c in x && d in y;
      SameLength(p, q);
      NumberSnoc(p, c);
      NumberSnoc(q, d);
      LessSnoc(p, c, q, d);
    }
  }

  function Sign(x: int): int {
    if x < 0 then -1 else if x > 0 then 1 else 0
  }

  /** How the code compares two digit runs. */
  method CompareRuns(x: string, y: string) returns (r: int)
    requires AreDigits(x) && AreDigits(y)
    ensures r == Sign(Number(x) - Number(y))
  {
    var na, nb := TrimZeros(x), TrimZeros(y);
    NumberTrim(x);
    NumberTrim(y);
    if |na| != |nb| {
      if |na| < |nb| {
        ShorterIsLess(na, nb);
        return -1;
      }
      ShorterIsLess(nb, na);
      return 1;
    }
    SameLength(na, nb);
    if na != nb {
      var less := IsLess(na, nb);
      if less {
        return -1;
      }
      return 1;
    }
    return 0;
  }

  method IsLess(a: string, b: string) returns (r: bool)
    ensures r == Less(a, b)
  {
    var i := 0;
    while i < |a| && i < |b| && a[i] == b[i]
      invariant i <= |a| && i <= |b| && Less(a, b) == Less(a[i..], b[i..])
    {
      assert a[i..][1..] == a[i + 1..] && b[i..][1..] == b[i + 1..];
      i := i + 1;
    }
    r := i < |b| && (i == |a| || a[i] < b[i]);
  }

  // ----- names as tokens

  datatype Token = Digits(n: nat) | Other(c: char)

  function RunLength(s: string): (n: nat)
    ensures n <= |s| && AreDigits(s[..n]) && (n < |s| ==> !IsDigit(s[n]))
    ensures s != "" && IsDigit(s[0]) ==> n > 0
  {
    if s == "" || !IsDigit(s[0]) then 0
    else
      var n := RunLength(s[1..]);
      assert s[..n + 1] == [s[0]] + s[1..][..n];
      n + 1
  }

  /** A name as the numbers and other bytes it consists of. */
  function Tokens(s: string): seq<Token>
    decreases |s|
  {
    if s == "" then []
    else if IsDigit(s[0]) then [Digits(Number(s[..RunLength(s)]))] + Tokens(s[RunLength(s)..])
    else [Other(s[0])] + Tokens(s[1..])
  }

  /** Numbers by value, other bytes by themselves, and a number where its digits are. */
  function CompareTokens(x: Token, y: Token): int {
    match (x, y)
    case (Digits(m), Digits(n)) => Sign(m - n)
    case (Other(c), Other(d)) => Sign(c as int - d as int)
    case (Digits(_), Other(d)) => if d < '0' then 1 else -1
    case (Other(c), Digits(_)) => if c < '0' then -1 else 1
  }

  /** The lexicographic order. */
  function Lex(xs: seq<Token>, ys: seq<Token>): int {
    if xs == [] then (if ys == [] then 0 else -1)
    else if ys == [] then 1
    else
      var c := CompareTokens(xs[0], ys[0]);
      if c != 0 then c else Lex(xs[1..], ys[1..])
  }

  function Compare(a: string, b: string): int {
    Lex(Tokens(a), Tokens(b))
  }

  method SkipDigits(s: string, from: nat) returns (end: nat)
    requires from <= |s|
    ensures end == from + RunLength(s[from..]) <= |s|
  {
    end := from;
    while end < |s| && IsDigit(s[end])
      invariant from <= end <= |s| && from + RunLength(s[from..]) == end + RunLength(s[end..])
    {
      assert s[end..][1..] == s[end + 1..];
      end := end + 1;
    }
  }

  lemma RunToken(s: string, i: nat, e: nat)
    requires i < |s| && IsDigit(s[i]) && e == i + RunLength(s[i..]) && e <= |s|
    ensures i < e && AreDigits(s[i..e])
    ensures Tokens(s[i..]) == [Digits(Number(s[i..e]))] + Tokens(s[e..])
  {
    assert s[i..][..e - i] == s[i..e] && s[i..][e - i..] == s[e..];
  }

  lemma OtherToken(s: string, i: nat)
    requires i < |s| && !IsDigit(s[i])
    ensures Tokens(s[i..]) == [Other(s[i])] + Tokens(s[i + 1..])
  {
    assert s[i..][1..] == s[i + 1..];
  }

  /** A byte other than a digit, against a digit, decides as the bytes do. */
  lemma MixedTokens(a: string, i: nat, b: string, j: nat)
    requires i < |a| && j < |b| && IsDigit(a[i]) != IsDigit(b[j])
    ensures a[i] != b[j] && Lex(Tokens(a[i..]), Tokens(b[j..])) == if a[i] < b[j] then -1 else 1
  {
    if IsDigit(a[i]) {
      RunToken(a, i, i + RunLength(a[i..]));
      OtherToken(b, j);
    } else {
      OtherToken(a, i);
      RunToken(b, j, j + RunLength(b[j..]));
    }
  }

  lemma SameKind(x: Token, xs: seq<Token>, y: Token, ys: seq<Token>)
    ensures Lex([x] + xs, [y] + ys) == if CompareTokens(x, y) != 0 then CompareTokens(x, y) else Lex(xs, ys)
  {
    assert ([x] + xs)[1..] == xs && ([y] + ys)[1..] == ys;
  }

  /** The two-index loop computes the lexicographic order of the tokens. */
  method VersionCompare(a: string, b: string) returns (r: int)
    ensures r == Compare(a, b)
  {
    var i, j := 0, 0;
    while i < |a| && j < |b|
      invariant i <= |a| && j <= |b|
      invariant Compare(a, b) == Lex(Tokens(a[i..]), Tokens(b[j..]))
      decreases |a| - i
    {
      if IsDigit(a[i]) && IsDigit(b[j]) {
        var ei := SkipDigits(a, i);
        var ej := SkipDigits(b, j);
        RunToken(a, i, ei);
        RunToken(b, j, ej);
        SameKind(Digits(Number(a[i..ei])), Tokens(a[ei..]), Digits(Number(b[j..ej])), Tokens(b[ej..]));
        var c := CompareRuns(a[i..ei], b[j..ej]);
        if c != 0 {
          return c;
        }
        i, j := ei, ej;
      } else {
        if IsDigit(a[i]) != IsDigit(b[j]) {
          MixedTokens(a, i, b, j);
        } else {
          OtherToken(a, i);
          OtherToken(b, j);
          SameKind(Other(a[i]), Tokens(a[i + 1..]), Other(b[j]), Tokens(b[j + 1..]));
        }
        if a[i] != b[j] {
          if a[i] < b[j] {
            return -1;
          }
          return 1;
        }
        i, j := i + 1, j + 1;
      }
    }
    TokensEmpty(a[i..]);
    TokensEmpty(b[j..]);
    if i < |a| {
      return 1;
    } else if j < |b| {
      return -1;
    } else {
      return 0;
    }
  }

  lemma TokensEmpty(s: string)
    ensures Tokens(s) == [] <==> s == ""
  {
  }

  // ----- the order

  lemma {:induction false} LexAntisymmetric(xs: seq<Token>, ys: seq<Token>)
    ensures Lex(xs, ys) == 0 - Lex(ys, xs)
    ensures Lex(xs, ys) == 0 <==> xs == ys
    decreases |xs|
  {
    if xs != [] && ys != [] {
      LexAntisymmetric(xs[1..], ys[1..]);
      assert xs == [xs[0]] + xs[1..] && ys == [ys[0]] + ys[1..];
    }
  }

  lemma {:induction false} LexTransitive(xs: seq<Token>, ys: seq<Token>, zs: seq<Token>)
    requires Lex(xs, ys) <= 0 && Lex(ys, zs) <= 0
    ensures Lex(xs, zs) <= 0
    ensures Lex(xs, ys) < 0 || Lex(ys, zs) < 0 ==> Lex(xs, zs) < 0
    decreases |xs|
  {
    if xs != [] && ys != [] && zs != [] {
      if CompareTokens(xs[0], ys[0]) == 0 && CompareTokens(ys[0], zs[0]) == 0 {
        LexTransitive(xs[1..], ys[1..], zs[1..]);
      }
    }
  }

  lemma {:induction false} LessOrders(a: string, b: string)
    ensures a == b ==> !Less(a, b)
    ensures a != b ==> (Less(a, b) <==> !Less(b, a))
    decreases |a|
  {
    if a != "" && b != "" {
      LessOrders(a[1..], b[1..]);
      assert a == [a[0]] + a[1..] && b == [b[0]] + b[1..];
    }
  }

  lemma {:induction false} LessTransitive(a: string, b: string, c: string)
    requires Less(a, b) && Less(b, c)
    ensures Less(a, c)
    decreases |a|
  {
    if a != "" && a[0] == b[0] == c[0] {
      LessTransitive(a[1..], b[1..], c[1..]);
    }
  }

  /** versionCompare is a total preorder: its sign turns around with the arguments, it is
      transitive, and it is 0 exactly for names with the same numbers and other bytes. */
  lemma Preorder(a: string, b: string, c: string)
    ensures Compare(a, b) == 0 - Compare(b, a)
    ensures Compare(a, b) == 0 <==> Tokens(a) == Tokens(b)
    ensures Compare(a, b) <= 0 && Compare(b, c) <= 0 ==> Compare(a, c) <= 0
    ensures Compare(a, b) < 0 && Compare(b, c) <= 0 ==> Compare(a, c) < 0
  {
    LexAntisymmetric(Tokens(a), Tokens(b));
    if Compare(a, b) <= 0 && Compare(b, c) <= 0 {
      LexTransitive(Tokens(a), Tokens(b), Tokens(c));
    }
  }

  datatype Entry = Entry(name: string, isDir: bool)

  /** The order ls sorts by: directories first if they are grouped, then versions, then
      names. */
  predicate EntryLess(groupDirs: bool, a: Entry, b: Entry) {
    if groupDirs && a.isDir != b.isDir then a.isDir
    else if Compare(a.name, b.name) != 0 then Compare(a.name, b.name) < 0
    else Less(a.name, b.name)
  }

  method LessEntry(groupDirs: bool, a: Entry, b: Entry) returns (r: bool)
    ensures r == EntryLess(groupDirs, a, b)
  {
    if groupDirs {
      if a.isDir != b.isDir {
        return a.isDir;
      }
    }
    var cmp := VersionCompare(a.name, b.name);
    if cmp != 0 {
      return cmp < 0;
    }
    r := IsLess(a.name, b.name);
  }

  /** On entries with different names it is a strict total order, so there is only one
      sorted listing. */
  lemma StrictTotalOrder(groupDirs: bool, a: Entry, b: Entry, c: Entry)
    ensures !EntryLess(groupDirs, a, a)
    ensures EntryLess(groupDirs, a, b) && EntryLess(groupDirs, b, c) ==> EntryLess(groupDirs, a, c)
    ensures a.name != b.name ==> (EntryLess(groupDirs, a, b) <==> !EntryLess(groupDirs, b, a))
  {
    Preorder(a.name, b.name, c.name);
    Preorder(b.name, a.name, c.name);
    Preorder(c.name, b.name, a.name);
    Preorder(a.name, a.name, a.name);
    LessOrders(a.name, a.name);
    LessOrders(a.name, b.name);
    if Less(a.name, b.name) && Less(b.name, c.name) {
      LessTransitive(a.name, b.name, c.name);
    }
  }
}
