/** The string functions the diff and patch applets rely on: splitting into lines and
    fields, decimal numbers, prefixes. A string is a sequence of Unicode characters. */
module Text {
  datatype Option<T> = None | Some(value: T)

  predicate HasPrefix(s: string, p: string) {
    p <= s
  }

  function TrimPrefix(s: string, p: string): string {
    if HasPrefix(s, p) then s[|p|..] else s
  }

  // ----- lines

  /** strings.Split(s, "\n"). */
  function Split(s: string): (parts: seq<string>)
    ensures |parts| > 0
  {
    if s == "" then [""]
    else
      var rest := Split(s[1..]);
      if s[0] == '\n' then [""] + rest else [[s[0]] + rest[0]] + rest[1..]
  }

  /** Lines as they are printed, each with a newline behind it. */
  function Unlines(lines: seq<string>): string {
    if lines == [] then "" else lines[0] + "\n" + Unlines(lines[1..])
  }

  lemma {:induction false} SplitFirst(l: string, rest: string)
    requires '\n' !in l
    ensures Split(l + "\n" + rest) == [l] + Split(rest)
  {
    var s := l + "\n" + rest;
    if l == "" {
      assert s[1..] == rest;
    } else {
      assert s[1..] == l[1..] + "\n" + rest;
      SplitFirst(l[1..], rest);
      assert [l[0]] + l[1..] == l;
    }
  }

  /** Splitting printed lines gives them back, and an empty one behind the last newline. */
  lemma {:induction false} SplitUnlines(lines: seq<string>)
    requires forall k :: 0 <= k < |lines| ==> '\n' !in lines[k]
    ensures Split(Unlines(lines)) == lines + [""]
  {
    if lines != [] {
      SplitUnlines(lines[1..]);
      SplitFirst(lines[0], Unlines(lines[1..]));
    }
  }

  lemma {:induction false} UnlinesAppend(x: seq<string>, y: seq<string>)
    ensures Unlines(x + y) == Unlines(x) + Unlines(y)
  {
    if x == [] {
      assert x + y == y;
    } else {
      assert (x + y)[1..] == x[1..] + y;
      UnlinesAppend(x[1..], y);
    }
  }

  lemma UnlinesSnoc(x: seq<string>, l: string)
    ensures Unlines(x + [l]) == Unlines(x) + l + "\n"
  {
    UnlinesAppend(x, [l]);
    assert [l][1..] == [];
    assert l + "\n" + "" == l + "\n";
    assert Unlines(x) + (l + "\n") == Unlines(x) + l + "\n";
  }

  // ----- white space

  /** unicode.IsSpace. */
  predicate IsSpace(c: char) {
    '\t' <= c <= '\r' || c == ' ' || c == '\U{85}' || c == '\U{A0}' || c == '\U{1680}'
    || '\U{2000}' <= c <= '\U{200A}' || c == '\U{2028}' || c == '\U{2029}' || c == '\U{202F}'
    || c == '\U{205F}' || c == '\U{3000}'
  }

  function TrimLeft(s: string): string {
    if s != "" && IsSpace(s[0]) then TrimLeft(s[1..]) else s
  }

  function TrimRight(s: string): string {
    if s != "" && IsSpace(s[|s| - 1]) then TrimRight(s[..|s| - 1]) else s
  }

  function TrimSpace(s: string): string {
    TrimRight(TrimLeft(s))
  }

  /** The end of the word that starts at i. */
  function WordEnd(s: string, i: nat): (e: nat)
    requires i <= |s|
    ensures i <= e <= |s|
    ensures i < |s| && !IsSpace(s[i]) ==> i < e
    decreases |s| - i
  {
    if i == |s| || IsSpace(s[i]) then i else WordEnd(s, i + 1)
  }

  function FieldsFrom(s: string, i: nat): seq<string>
    requires i <= |s|
    decreases |s| - i
  {
    if i == |s| then []
    else if IsSpace(s[i]) then FieldsFrom(s, i + 1)
    else
      var e := WordEnd(s, i);
      [s[i..e]] + FieldsFrom(s, e)
  }

  /** strings.Fields. */
  function Fields(s: string): seq<string> {
    FieldsFrom(s, 0)
  }

  predicate IsWord(s: string) {
    s != "" && forall k :: 0 <= k < |s| ==> !IsSpace(s[k])
  }

  /** A word stands in s at i, with a space or the end behind it. */
  predicate WordAt(s: string, i: nat, w: string) {
    && i + |w| <= |s| && s[i..i + |w|] == w
    && (i + |w| == |s| || IsSpace(s[i + |w|]))
  }

  lemma {:induction false} WordEndIs(s: string, i: nat, e: nat)
    requires i <= e <= |s| && forall k :: i <= k < e ==> !IsSpace(s[k])
    requires e == |s| || IsSpace(s[e])
    ensures WordEnd(s, i) == e
    decreases e - i
  {
    if i < e {
      WordEndIs(s, i + 1, e);
    }
  }

  lemma FieldAt(s: string, i: nat, w: string)
    requires IsWord(w) && WordAt(s, i, w)
    ensures i + |w| == |s| ==> FieldsFrom(s, i) == [w]
    ensures i + |w| < |s| ==> FieldsFrom(s, i) == [w] + FieldsFrom(s, i + |w| + 1)
  {
    forall k | i <= k < i + |w| ensures !IsSpace(s[k]) {
      assert s[k] == s[i..i + |w|][k - i];
    }
    WordEndIs(s, i, i + |w|);
    assert !IsSpace(s[i]);
  }

  // ----- numbers

  predicate IsDigit(c: char) {
    '0' <= c <= '9'
  }

  predicate DigitsFrom(s: string, i: nat)
    requires i <= |s|
    decreases |s| - i
  {
    i == |s| || (IsDigit(s[i]) && DigitsFrom(s, i + 1))
  }

  function DigitValue(c: char): nat {
    if IsDigit(c) then (c - '0') as nat else 0
  }

  function Digit(d: nat): char
    requires d < 10
  {
    '0' + d as char
  }

  /** %d of a number that is not negative. */
  function Decimal(n: nat): (s: string)
    ensures s != ""
  {
    if n < 10 then [Digit(n)] else Decimal(n / 10) + [Digit(n % 10)]
  }

  /** The number the digits from lo to hi stand for. */
  function Value(s: string, lo: nat, hi: nat): nat
    requires lo <= hi <= |s|
  {
    if lo == hi then 0 else 10 * Value(s, lo, hi - 1) + DigitValue(s[hi - 1])
  }

  const MAX_INT := 0x7fff_ffff_ffff_ffff

  /** strconv.Atoi: an optional sign and decimal digits, in the range of a 64-bit int. */
  function Atoi(s: string): Option<int> {
    var lo := if s != "" && (s[0] == '-' || s[0] == '+') then 1 else 0;
    if lo == |s| || !DigitsFrom(s, lo) then None
    else
      var n: int := if s[0] == '-' then 0 - Value(s, lo, |s|) else Value(s, lo, |s|);
      if -MAX_INT - 1 <= n <= MAX_INT then Some(n) else None
  }

  lemma {:induction false} DecimalDigits(n: nat)
    ensures forall k :: 0 <= k < |Decimal(n)| ==> IsDigit(Decimal(n)[k])
  {
    if n >= 10 {
      DecimalDigits(n / 10);
    }
  }

  lemma {:induction false} AllDigits(s: string, i: nat)
    requires i <= |s| && forall k :: 0 <= k < |s| ==> IsDigit(s[k])
    ensures DigitsFrom(s, i)
    decreases |s| - i
  {
    if i < |s| {
      AllDigits(s, i + 1);
    }
  }

  lemma {:induction false} ValuePrefix(s: string, t: string, hi: nat)
    requires hi <= |s|
    ensures Value(s + t, 0, hi) == Value(s, 0, hi)
  {
    if hi > 0 {
      ValuePrefix(s, t, hi - 1);
    }
  }

  lemma {:induction false} ValueDecimal(n: nat)
    ensures Value(Decimal(n), 0, |Decimal(n)|) == n
  {
    if n >= 10 {
      ValueDecimal(n / 10);
      ValuePrefix(Decimal(n / 10), [Digit(n % 10)], |Decimal(n / 10)|);
    } else {
      assert Value(Decimal(n), 0, 0) == 0;
    }
  }

  /** Numbers that fit an int are read back as they were printed. */
  lemma AtoiDecimal(n: nat)
    requires n <= MAX_INT
    ensures Atoi(Decimal(n)) == Some(n)
  {
    ValueDecimal(n);
    DecimalDigits(n);
    AllDigits(Decimal(n), 0);
    assert IsDigit(Decimal(n)[0]);
  }
}
