/** bre2ere: basic regular expressions rewritten in the extended syntax, outside bracket
    expressions. */
module SedRegex {
  import opened Sequences

  /** The characters that are operators in one syntax when escaped and in the other when
      bare. */
  predicate Swaps(c: char) {
    c == '(' || c == ')' || c == '{' || c == '}' || c == '+' || c == '?' || c == '|'
  }

  function Translated(s: string): (t: string) {
    if s == "" then ""
    else if s[0] == '\\' && |s| > 1 then
      (if Swaps(s[1]) then [s[1]] else ['\\', s[1]]) + Translated(s[2..])
    else
      (if Swaps(s[0]) then ['\\', s[0]] else [s[0]]) + Translated(s[1..])
  }

  /** The translation of an escape, or of one character, and what is left. */
  lemma FirstStep(s: string, b: string, i: nat)
    requires i < |s| && Translated(s) == b + Translated(s[i..])
    ensures s[i] == '\\' && i + 1 < |s| ==>
      Translated(s) == b + (if Swaps(s[i + 1]) then [s[i + 1]] else ['\\'] + [s[i + 1]]) + Translated(s[i + 2..])
    ensures !(s[i] == '\\' && i + 1 < |s|) ==>
      Translated(s) == b + (if Swaps(s[i]) then ['\\'] + [s[i]] else [s[i]]) + Translated(s[i + 1..])
  {
    assert s[i..][1..] == s[i + 1..];
    if s[i] == '\\' && i + 1 < |s| {
      assert s[i..][2..] == s[i + 2..];
      Reassociate(b, if Swaps(s[i + 1]) then [s[i + 1]] else ['\\', s[i + 1]], Translated(s[i + 2..]));
      assert ['\\'] + [s[i + 1]] == ['\\', s[i + 1]];
    } else {
      Reassociate(b, if Swaps(s[i]) then ['\\', s[i]] else [s[i]], Translated(s[i + 1..]));
      assert ['\\'] + [s[i]] == ['\\', s[i]];
    }
  }

  method Bre2Ere(s: string) returns (b: string)
    ensures b == Translated(s)
  {
    b := "";
    var i := 0;
    while i < |s|
      invariant i <= |s| && Translated(s) == b + Translated(s[i..])
    {
      FirstStep(s, b, i);
      var ch := s[i];
      if ch == '\\' && i + 1 < |s| {
        var next := s[i + 1];
        if Swaps(next) {
          b := b + [next];
        } else {
          b := b + (['\\'] + [next]);
        }
        i := i + 2;
      } else {
        if Swaps(ch) {
          b := b + (['\\'] + [ch]);
        } else {
          b := b + [ch];
        }
        i := i + 1;
      }
    }
    assert b + "" == b;
  }

  /** Translating back gives the expression again, whatever it is. */
  lemma {:induction false} TranslatedTwice(s: string)
    ensures Translated(Translated(s)) == s
    decreases |s|
  {
    if s != "" {
      if s[0] == '\\' && |s| > 1 {
        var rest := Translated(s[2..]);
        TranslatedTwice(s[2..]);
        assert s == [s[0], s[1]] + s[2..];
        if Swaps(s[1]) {
          assert ([s[1]] + rest)[1..] == rest;
        } else {
          assert (['\\', s[1]] + rest)[2..] == rest;
        }
      } else {
        var rest := Translated(s[1..]);
        TranslatedTwice(s[1..]);
        assert s == [s[0]] + s[1..];
        if Swaps(s[0]) {
          assert (['\\', s[0]] + rest)[2..] == rest;
        } else {
          LoneBackslash(s);
          assert ([s[0]] + rest)[1..] == rest;
        }
      }
    }
  }

  /** A backslash that escapes nothing is the last character. */
  lemma LoneBackslash(s: string)
    requires s != "" && !(s[0] == '\\' && |s| > 1)
    ensures s[0] == '\\' ==> Translated(s[1..]) == ""
  {
  }

  // ----- meaning

  /** What a regular expression is made of in either syntax: the swapping characters as
      operators or as themselves, other escapes, other characters. */
  datatype Token = Operator(c: char) | Literal(c: char) | Escape(c: char) | Plain(c: char)

  /** How a character reads that stands bare, or escaped. */
  function TokenOf(c: char, escaped: bool, extended: bool): Token {
    if Swaps(c) then (if escaped != extended then Operator(c) else Literal(c))
    else if escaped then Escape(c) else Plain(c)
  }

  function Tokens(s: string, extended: bool): seq<Token> {
    if s == "" then []
    else if s[0] == '\\' && |s| > 1 then [TokenOf(s[1], true, extended)] + Tokens(s[2..], extended)
    else [TokenOf(s[0], false, extended)] + Tokens(s[1..], extended)
  }

  /** The translation reads in the extended syntax as the original does in the basic one. */
  lemma {:induction false} SameTokens(s: string)
    ensures Tokens(Translated(s), true) == Tokens(s, false)
    decreases |s|
  {
    if s != "" {
      if s[0] == '\\' && |s| > 1 {
        var rest := Translated(s[2..]);
        SameTokens(s[2..]);
        if Swaps(s[1]) {
          assert ([s[1]] + rest)[1..] == rest;
        } else {
          assert (['\\', s[1]] + rest)[2..] == rest;
        }
      } else {
        var rest := Translated(s[1..]);
        SameTokens(s[1..]);
        if Swaps(s[0]) {
          assert (['\\', s[0]] + rest)[2..] == rest;
        } else {
          LoneBackslash(s);
          assert ([s[0]] + rest)[1..] == rest;
        }
      }
    }
  }

  /** The seven operators change places between bare and escaped, and nothing else does. */
  lemma SevenOperators(c: char)
    requires c != '\\'
    ensures var isOperator := c in "(){}+?|";
      && Translated([c]) == (if isOperator then ['\\', c] else [c])
      && Translated(['\\', c]) == (if isOperator then [c] else ['\\', c])
  {
    assert [c][1..] == "" && ['\\', c][2..] == "";
    assert Translated("") == "";
  }
}
