/** What the encoder's codes stand for: between two CLEARs the input is cut into phrases,
    each the longest one known at its place, and this determines the codes. */
module LzwGreedy {
  import opened Sequences
  import opened Bits
  import opened LzwCodes

  type Word = s: seq<Byte> | s != [] witness [0]

  // ----- the phrases of a run

  /** What is learnt behind phrase i: the phrase and the byte that follows it. */
  function Extension(ps: seq<Word>, i: nat): Word
    requires i + 1 < |ps|
  {
    ps[i] + [ps[i + 1][0]]
  }

  /** Known when the last of the phrases is looked for: the single bytes, and the
      extensions of the phrases before it. */
  predicate Known(ps: seq<Word>, s: seq<Byte>) {
    |s| == 1 || exists i :: 0 <= i < |ps| - 1 && s == Extension(ps, i)
  }

  /** The last phrase is the longest known one that the rest of the input begins with. */
  predicate Longest(ps: seq<Word>, rest: seq<Byte>)
    requires ps != []
  {
    var p := ps[|ps| - 1];
    p <= rest && Known(ps, p) && forall n :: |p| < n <= |rest| ==> !Known(ps, rest[..n])
  }

  /** The phrases cut the front of the input greedily. */
  predicate Greedy(ps: seq<Word>, input: seq<Byte>) {
    ps == [] ||
    var most := ps[..|ps| - 1];
    Greedy(most, input) && Concat(most) <= input && Longest(ps, input[|Concat(most)|..])
  }

  /** The number of phrase j: the byte that it is, or the number of the extension. */
  predicate Names(ps: seq<Word>, j: nat, c: Code)
    requires j < |ps|
  {
    if c < 256 then ps[j] == [c] else FIRST <= c < FIRST + j && ps[j] == Extension(ps, c - FIRST)
  }

  const FULL := 65280

  /** The codes are the numbers of the phrases from `from` on, and then, behind the last
      phrase, nothing if that is the end of the input, and otherwise a CLEAR and the codes
      `behind`, after as many phrases as fit the dictionary. */
  predicate Covers(ps: seq<Word>, from: nat, codes: seq<Code>, input: seq<Byte>, behind: seq<Code>)
    requires from <= |ps|
    decreases |ps| - from
  {
    if from < |ps| then codes != [] && Names(ps, from, codes[0]) && Covers(ps, from + 1, codes[1..], input, behind)
    else if Concat(ps) == input then |ps| <= FULL && codes == [] && behind == []
    else |ps| == FULL && codes == [CLEAR] + behind
  }

  /** The codes are those of greedily cut phrases, run by run. */
  ghost predicate Describes(codes: seq<Code>, input: seq<Byte>)
    decreases |codes|
  {
    if input == [] then codes == []
    else
      exists ps: seq<Word>, behind: seq<Code> ::
        && ps != [] && Greedy(ps, input) && Concat(ps) <= input && Covers(ps, 0, codes, input, behind)
        && (Concat(ps) != input ==> |behind| < |codes| && Describes(behind, input[|Concat(ps)|..]))
  }

  // ----- consequences of being greedy

  lemma ConcatSnoc<T>(xs: seq<seq<T>>, x: seq<T>)
    ensures Concat(xs + [x]) == Concat(xs) + x
  {
    if xs == [] {
      assert [] + [x] == [x] && [x][1..] == [];
      assert Concat([x]) == x + Concat([]) == x;
    } else {
      assert (xs + [x])[0] == xs[0] && (xs + [x])[1..] == xs[1..] + [x];
      ConcatSnoc(xs[1..], x);
      Reassociate(xs[0], Concat(xs[1..]), x);
    }
  }

  // ----- the dictionary as a book of phrases

  ghost predicate InBook(book: seq<seq<Byte>>, s: seq<Byte>) {
    exists c :: IsPhrase(book, c) && book[c] == s
  }

  /** The dictionary has an entry for a longer phrase exactly if the book has it, no phrase
      is in the book twice, and with each phrase it has the one before its last byte. */
  ghost predicate Complete(d: Dict, book: seq<seq<Byte>>) {
    && DictMeans(d, book)
    && (forall c: Byte, e: Code {:trigger Key(c, e)} :: IsPhrase(book, e) ==>
          (Key(c, e) in d.entries <==> InBook(book, book[e] + [c])))
    && (forall c, e :: IsPhrase(book, c) && IsPhrase(book, e) && book[c] == book[e] ==> c == e)
    && (forall c :: FIRST <= c < |book| ==> |book[c]| >= 2 && InBook(book, book[c][..|book[c]| - 1]))
  }

  lemma CompleteEmpty()
    ensures Complete(EMPTY_DICT, NO_PHRASES)
  {
    forall c: Byte, e: Code | IsPhrase(NO_PHRASES, e) ensures !InBook(NO_PHRASES, NO_PHRASES[e] + [c]) {
    }
  }

  lemma ShorterInBook(book: seq<seq<Byte>>, s: seq<Byte>, n: nat)
    requires forall c :: FIRST <= c < |book| ==> |book[c]| >= 2 && InBook(book, book[c][..|book[c]| - 1])
    requires Book(book) && 2 <= n <= |s| && InBook(book, s[..n])
    ensures InBook(book, s[..n - 1])
  {
    var c :| IsPhrase(book, c) && book[c] == s[..n];
    assert c >= FIRST && book[c][..|book[c]| - 1] == s[..n - 1];
  }

  lemma {:induction false} NotInBook(d: Dict, book: seq<seq<Byte>>, ent: Code, c: Byte, n: nat, s: seq<Byte>)
    requires Complete(d, book) && IsPhrase(book, ent) && Key(c, ent) !in d.entries
    requires book[ent] + [c] <= s && |book[ent]| < n <= |s|
    ensures !InBook(book, s[..n])
    decreases n
  {
    if n == |book[ent]| + 1 {
      assert s[..n] == book[ent] + [c];
    } else {
      NotInBook(d, book, ent, c, n - 1, s);
      if InBook(book, s[..n]) {
        ShorterInBook(book, s, n);
      }
    }
  }

  lemma InLonger(book: seq<seq<Byte>>, p: seq<Byte>, s: seq<Byte>)
    requires |book| >= FIRST
    ensures InBook(book + [p], s) <==> InBook(book, s) || s == p
  {
    var more := book + [p];
    if s == p {
      assert more[|book|] == p;
    }
    if InBook(book, s) {
      var c :| IsPhrase(book, c) && book[c] == s;
      assert more[c] == s;
    }
  }

  /** The new phrase is the extension of no other phrase by another byte. */
  lemma ExtendsOnce(book: seq<seq<Byte>>, e: Code, x: Byte, ent: Code, c: Byte)
    requires IsPhrase(book, e) && IsPhrase(book, ent)
    requires forall k, l :: IsPhrase(book, k) && IsPhrase(book, l) && book[k] == book[l] ==> k == l
    requires book[e] + [x] == book[ent] + [c]
    ensures e == ent && x == c
  {
    var p := book[ent] + [c];
    assert (book[e] + [x])[|book[e]|] == x && (book[e] + [x])[..|book[e]|] == book[e];
    assert p[..|book[ent]|] == book[ent];
  }

  lemma KeysMore(d: Dict, book: seq<seq<Byte>>, ent: Code, c: Byte, x: Byte, e: Code, p: seq<Byte>)
    requires Complete(d, book) && IsPhrase(book, ent) && Key(c, ent) !in d.entries && d.free < 65536
    requires IsPhrase(book, e) && p == book[ent] + [c]
    ensures Key(x, e) in d.entries[Key(c, ent) := d.free] <==> InBook(book + [p], book[e] + [x])
  {
    InLonger(book, p, book[e] + [x]);
    assert Key(x, e) == Key(c, ent) ==> x == c && e == ent;
    if book[e] + [x] == p {
      ExtendsOnce(book, e, x, ent, c);
    }
  }

  lemma NewestIsLeaf(d: Dict, book: seq<seq<Byte>>, ent: Code, c: Byte, x: Byte, p: seq<Byte>)
    requires Complete(d, book) && IsPhrase(book, ent) && Key(c, ent) !in d.entries && |book| < 65536
    requires p == book[ent] + [c]
    ensures Key(x, |book|) !in d.entries && Key(x, |book|) != Key(c, ent) && !InBook(book + [p], p + [x])
  {
    assert !InBook(book, p);
    InLonger(book, p, p + [x]);
    assert (p + [x])[..|p|] == p && |p + [x]| != |p| && |p| >= 2;
  }

  lemma CompleteMore(d: Dict, book: seq<seq<Byte>>, ent: Code, c: Byte)
    requires Complete(d, book) && IsPhrase(book, ent) && Key(c, ent) !in d.entries && d.free < 65536
    ensures Complete(Dict(d.entries[Key(c, ent) := d.free], d.free + 1), book + [book[ent] + [c]])
  {
    var p := book[ent] + [c];
    var book' := book + [p];
    NewEntry(d, book, ent, c);
    assert !InBook(book, p);
    forall x: Byte, e: Code | IsPhrase(book', e)
      ensures Key(x, e) in d.entries[Key(c, ent) := d.free] <==> InBook(book', book'[e] + [x])
    {
      if e == |book| {
        NewestIsLeaf(d, book, ent, c, x, p);
      } else {
        KeysMore(d, book, ent, c, x, e, p);
      }
    }
    forall k | FIRST <= k < |book'| ensures |book'[k]| >= 2 && InBook(book', book'[k][..|book'[k]| - 1]) {
      InLonger(book, p, book'[k][..|book'[k]| - 1]);
      if k == |book| {
        assert p[..|p| - 1] == book[ent];
      }
    }
  }

  // ----- the encoder's run

  /** The book after some phrases: the bytes, and the extensions of all but the last. */
  function BookOf(ps: seq<Word>): seq<seq<Byte>>
    requires ps != []
  {
    NO_PHRASES + seq(|ps| - 1, i requires 0 <= i < |ps| - 1 => Extension(ps, i))
  }

  lemma KnownInBook(ps: seq<Word>, s: seq<Byte>)
    requires ps != []
    ensures Known(ps, s) <==> InBook(BookOf(ps), s)
  {
    var book := BookOf(ps);
    if |s| == 1 {
      assert book[s[0]] == s;
    }
    if i :| 0 <= i < |ps| - 1 && s == Extension(ps, i) {
      assert book[FIRST + i] == s;
    }
    if InBook(book, s) {
      var c :| IsPhrase(book, c) && book[c] == s;
      if c >= FIRST {
        assert s == Extension(ps, c - FIRST);
      }
    }
  }

  /** In the middle of a run: the phrase of `ent` is being extended, `rest` is to come. */
  ghost predicate Running(d: Dict, ps: seq<Word>, ent: Code, rest: seq<Byte>, input: seq<Byte>) {
    && ps != [] && Complete(d, BookOf(ps))
    && IsPhrase(BookOf(ps), ent) && BookOf(ps)[ent] == ps[|ps| - 1]
    && Greedy(ps[..|ps| - 1], input)
    && Concat(ps) + rest == input
  }

  lemma ConcatLast(ps: seq<Word>, rest: seq<Byte>, input: seq<Byte>)
    requires ps != [] && Concat(ps) + rest == input
    ensures var most, p := ps[..|ps| - 1], ps[|ps| - 1];
      Concat(ps) == Concat(most) + p && Concat(most) <= input && input[|Concat(most)|..] == p + rest
  {
    var most, p := ps[..|ps| - 1], ps[|ps| - 1];
    assert ps == most + [p];
    ConcatSnoc(most, p);
    CutFront(Concat(most), p, rest, input);
  }

  lemma CutFront(x: seq<Byte>, p: seq<Byte>, rest: seq<Byte>, input: seq<Byte>)
    requires x + p + rest == input
    ensures x <= input && input[|x|..] == p + rest
  {
  }

  /** The next byte makes the phrase longer. */
  lemma RunExtend(d: Dict, ps: seq<Word>, ent: Code, rest: seq<Byte>, input: seq<Byte>) returns (ps': seq<Word>)
    requires Running(d, ps, ent, rest, input) && rest != [] && Key(rest[0], ent) in d.entries
    ensures |ps'| == |ps| && ps'[..|ps| - 1] == ps[..|ps| - 1]
    ensures Running(d, ps', d.entries[Key(rest[0], ent)], rest[1..], input)
  {
    var next := d.entries[Key(rest[0], ent)];
    var most, p := ps[..|ps| - 1], ps[|ps| - 1];
    ps' := most + [p + [rest[0]]];
    assert ps'[..|ps| - 1] == most;
    SameBook(most, p, rest[0]);
    assert most + [p] == ps;
    ConcatLast(ps, rest, input);
    ConcatSnoc(most, p + [rest[0]]);
    MoveByte(Concat(most), p, rest);
  }

  lemma SameBook(most: seq<Word>, p: Word, c: Byte)
    ensures BookOf(most + [p + [c]]) == BookOf(most + [p])
  {
    var ps, ps' := most + [p], most + [p + [c]];
    assert forall i :: 0 <= i < |most| ==> Extension(ps', i) == Extension(ps, i);
  }

  lemma MoveByte(x: seq<Byte>, p: seq<Byte>, rest: seq<Byte>)
    requires rest != []
    ensures x + p + rest == x + (p + [rest[0]]) + rest[1..]
  {
  }

  /** No longer phrase is known: the phrase is the longest. */
  lemma RunLongest(d: Dict, ps: seq<Word>, ent: Code, rest: seq<Byte>, input: seq<Byte>)
    requires Running(d, ps, ent, rest, input) && (rest != [] ==> Key(rest[0], ent) !in d.entries)
    ensures Greedy(ps, input) && Names(ps, |ps| - 1, ent)
  {
    RunNames(ps, ent);
    ConcatLast(ps, rest, input);
    LongestHere(d, ps, ent, rest, ps[|ps| - 1] + rest);
  }

  lemma LongestHere(d: Dict, ps: seq<Word>, ent: Code, rest: seq<Byte>, s: seq<Byte>)
    requires ps != [] && Complete(d, BookOf(ps)) && IsPhrase(BookOf(ps), ent) && BookOf(ps)[ent] == ps[|ps| - 1]
    requires s == ps[|ps| - 1] + rest && (rest != [] ==> Key(rest[0], ent) !in d.entries)
    ensures Longest(ps, s)
  {
    KnownInBook(ps, ps[|ps| - 1]);
    forall n | |ps[|ps| - 1]| < n <= |s| ensures !Known(ps, s[..n]) {
      NoLonger(d, ps, ent, rest, s, n);
    }
  }

  lemma RunNames(ps: seq<Word>, ent: Code)
    requires ps != [] && IsPhrase(BookOf(ps), ent) && BookOf(ps)[ent] == ps[|ps| - 1]
    ensures Names(ps, |ps| - 1, ent)
  {
  }

  lemma NoLonger(d: Dict, ps: seq<Word>, ent: Code, rest: seq<Byte>, s: seq<Byte>, n: nat)
    requires ps != [] && Complete(d, BookOf(ps)) && IsPhrase(BookOf(ps), ent) && BookOf(ps)[ent] == ps[|ps| - 1]
    requires s == ps[|ps| - 1] + rest && |ps[|ps| - 1]| < n <= |s| && Key(rest[0], ent) !in d.entries
    ensures !Known(ps, s[..n])
  {
    assert ps[|ps| - 1] + [rest[0]] <= s;
    NotInBook(d, BookOf(ps), ent, rest[0], n, s);
    KnownInBook(ps, s[..n]);
  }

  lemma BookGrows(ps: seq<Word>, c: Byte)
    requires ps != []
    ensures BookOf(ps + [[c]]) == BookOf(ps) + [ps[|ps| - 1] + [c]]
  {
    var more := ps + [[c]];
    assert forall i :: 0 <= i < |ps| - 1 ==> Extension(more, i) == Extension(ps, i);
    assert Extension(more, |ps| - 1) == ps[|ps| - 1] + [c];
  }

  lemma RunBegins(d: Dict, ps: seq<Word>, c: Byte, rest: seq<Byte>, input: seq<Byte>, book: seq<seq<Byte>>)
    requires Complete(d, book) && book == BookOf(ps + [[c]]) && Greedy(ps, input) && Concat(ps) + ([c] + rest) == input
    ensures Running(d, ps + [[c]], c, rest, input)
  {
    assert (ps + [[c]])[..|ps|] == ps && book[c] == [c];
    ConcatSnoc(ps, [c]);
    Reassociate(Concat(ps), [c], rest);
  }

  /** The next phrase begins with the byte that did not fit. */
  lemma RunOn(d: Dict, ps: seq<Word>, ent: Code, rest: seq<Byte>, input: seq<Byte>) returns (ps': seq<Word>)
    requires Running(d, ps, ent, rest, input) && rest != [] && Key(rest[0], ent) !in d.entries && d.free < 65536
    ensures ps' == ps + [[rest[0]]]
    ensures Running(Dict(d.entries[Key(rest[0], ent) := d.free], d.free + 1), ps', rest[0], rest[1..], input)
  {
    var c := rest[0];
    ps' := ps + [[c]];
    RunLongest(d, ps, ent, rest, input);
    BookGrows(ps, c);
    CompleteMore(d, BookOf(ps), ent, c);
    assert rest == [c] + rest[1..];
    RunBegins(Dict(d.entries[Key(c, ent) := d.free], d.free + 1), ps, c, rest[1..], input, BookOf(ps'));
  }

  lemma {:induction false} CoversLonger(qs: seq<Word>, ps: seq<Word>, k: nat, c: Code, codes: seq<Code>, input: seq<Byte>, behind: seq<Code>)
    requires ps <= qs && |ps| == k + 1 && Names(ps, k, c) && Covers(qs, k + 1, codes, input, behind)
    ensures Covers(qs, k, [c] + codes, input, behind)
  {
    assert ([c] + codes)[1..] == codes;
    if c >= FIRST {
      assert Extension(qs, c - FIRST) == Extension(ps, c - FIRST);
    }
  }

  /** The phrases go on from ps, greedily to the end of the run, and the codes are theirs. */
  ghost predicate Finishes(ps: seq<Word>, codes: seq<Code>, input: seq<Byte>, qs: seq<Word>, behind: seq<Code>) {
    && ps != [] && |qs| >= |ps| && ps[..|ps| - 1] == qs[..|ps| - 1] && Greedy(qs, input) && Concat(qs) <= input
    && Covers(qs, |ps| - 1, codes, input, behind)
    && |behind| < |codes| && behind == Encode(input[|Concat(qs)|..])
  }

  lemma FinishOne(ps: seq<Word>, ent: Code, ps': seq<Word>, codes: seq<Code>, input: seq<Byte>, qs: seq<Word>, behind: seq<Code>)
    requires ps != [] && Names(ps, |ps| - 1, ent) && |ps'| == |ps| + 1 && ps'[..|ps|] == ps
    requires Finishes(ps', codes, input, qs, behind)
    ensures Finishes(ps, [ent] + codes, input, qs, behind)
  {
    assert ps == qs[..|ps|] && ps[..|ps| - 1] == qs[..|ps| - 1];
    CoversLonger(qs, ps, |ps| - 1, ent, codes, input, behind);
  }

  /** The last code of a run, with nothing or a CLEAR behind it. */
  lemma FinishLast(ps: seq<Word>, ent: Code, rest: seq<Byte>, input: seq<Byte>) returns (behind: seq<Code>)
    requires ps != [] && Greedy(ps, input) && Names(ps, |ps| - 1, ent) && Concat(ps) + rest == input
    requires |ps| <= FULL && (rest != [] ==> |ps| == FULL)
    ensures behind == Encode(rest)
    ensures Finishes(ps, [ent] + if rest == [] then [] else [CLEAR] + behind, input, ps, behind)
  {
    behind := Encode(rest);
    var tail := if rest == [] then [] else [CLEAR] + behind;
    assert input[|Concat(ps)|..] == rest;
    assert Covers(ps, |ps|, tail, input, behind);
    CoversLonger(ps, ps, |ps| - 1, ent, tail, input, behind);
  }

  lemma RunSize(d: Dict, ps: seq<Word>, ent: Code, rest: seq<Byte>, input: seq<Byte>)
    requires Running(d, ps, ent, rest, input)
    ensures d.free == FIRST + |ps| - 1 <= 65536
  {
  }

  /** From the middle of a run, the encoder's codes are the numbers of the phrases to come
      in it, and behind it come the codes of what is left of the input. */
  lemma {:induction false} RunCovers(d: Dict, ps: seq<Word>, ent: Code, rest: seq<Byte>, input: seq<Byte>)
      returns (qs: seq<Word>, behind: seq<Code>)
    requires Running(d, ps, ent, rest, input)
    ensures Finishes(ps, EncodeFrom(d, ent, rest), input, qs, behind)
    decreases |rest|
  {
    RunSize(d, ps, ent, rest, input);
    if rest != [] && Key(rest[0], ent) in d.entries {
      var ps' := RunExtend(d, ps, ent, rest, input);
      qs, behind := RunCovers(d, ps', d.entries[Key(rest[0], ent)], rest[1..], input);
    } else {
      RunLongest(d, ps, ent, rest, input);
      if rest != [] && d.free < 65536 {
        var ps' := RunOn(d, ps, ent, rest, input);
        var d' := Dict(d.entries[Key(rest[0], ent) := d.free], d.free + 1);
        qs, behind := RunCovers(d', ps', rest[0], rest[1..], input);
        assert ps'[..|ps|] == ps;
        FinishOne(ps, ent, ps', EncodeFrom(d', rest[0], rest[1..]), input, qs, behind);
      } else {
        qs := ps;
        behind := FinishLast(ps, ent, rest, input);
        RunEnds(d, ent, rest, behind);
      }
    }
  }

  lemma RunEnds(d: Dict, ent: Code, rest: seq<Byte>, behind: seq<Code>)
    requires rest != [] ==> Key(rest[0], ent) !in d.entries && d.free >= 65536
    requires behind == Encode(rest)
    ensures EncodeFrom(d, ent, rest) == [ent] + if rest == [] then [] else [CLEAR] + behind
  {
    assert [ent] + [] == [ent];
    if rest != [] {
      assert [ent, CLEAR] + behind == [ent] + ([CLEAR] + behind);
    }
  }

  lemma RunStarts(input: seq<Byte>)
    requires input != []
    ensures Running(EMPTY_DICT, [[input[0]]], input[0], input[1..], input)
  {
    var ps: seq<Word> := [[input[0]]];
    CompleteEmpty();
    assert BookOf(ps) == NO_PHRASES && ps[..0] == [] && ps[1..] == [];
    assert Concat(ps) == [input[0]];
  }

  lemma {:induction false} EncodeDescribed(input: seq<Byte>)
    ensures Describes(Encode(input), input)
    decreases |input|
  {
    if input != [] {
      RunStarts(input);
      var ps, behind := RunCovers(EMPTY_DICT, [[input[0]]], input[0], input[1..], input);
      ConcatNotEmpty(ps);
      if Concat(ps) != input {
        EncodeDescribed(input[|Concat(ps)|..]);
      }
    }
  }

  lemma ConcatNotEmpty(ps: seq<Word>)
    requires ps != []
    ensures Concat(ps) != []
  {
  }

  // ----- only one description

  /** The extensions of a run are different from one another. */
  lemma {:induction false} ExtensionsDiffer(ps: seq<Word>, input: seq<Byte>, i: nat, j: nat)
    requires Greedy(ps, input) && Concat(ps) <= input && i < j && j + 1 < |ps|
    ensures Extension(ps, i) != Extension(ps, j)
    decreases |ps|
  {
    var most := ps[..|ps| - 1];
    assert Extension(ps, i) == most[i] + [ps[i + 1][0]];
    if j + 1 < |most| {
      ExtensionsDiffer(most, input, i, j);
      assert Extension(most, i) == Extension(ps, i) && Extension(most, j) == Extension(ps, j);
    } else {
      NotKnownYet(ps, input);
      assert Extension(most, i) == Extension(ps, i);
    }
  }

  /** What is learnt behind the last but one phrase was not known when it was found. */
  lemma NotKnownYet(ps: seq<Word>, input: seq<Byte>)
    requires Greedy(ps, input) && |ps| >= 2
    ensures !Known(ps[..|ps| - 1], Extension(ps, |ps| - 2))
  {
    var most, p := ps[..|ps| - 1], ps[|ps| - 1];
    var first, q := most[..|most| - 1], most[|most| - 1];
    var rest := input[|Concat(first)|..];
    assert most == first + [q];
    ConcatSnoc(first, q);
    TwoWords(input, Concat(first), q, p);
    assert rest[..|q| + 1] == q + [p[0]];
  }

  lemma TwoWords(input: seq<Byte>, x: seq<Byte>, q: seq<Byte>, p: seq<Byte>)
    requires x + q <= input && p <= input[|x + q|..] && p != [] && x <= input
    ensures var rest := input[|x|..]; |q| < |rest| && rest[..|q| + 1] == q + [p[0]]
  {
    assert input[|x + q|] == p[0];
    assert input[|x|..][..|q|] == (x + q)[|x|..] == q;
  }

  /** As many greedy phrases of the same input are the same phrases. */
  lemma {:induction false} OneCut(ps: seq<Word>, qs: seq<Word>, input: seq<Byte>)
    requires |ps| == |qs| && Greedy(ps, input) && Greedy(qs, input)
    ensures ps == qs
    decreases |ps|
  {
    if ps != [] {
      var most := ps[..|ps| - 1];
      OneCut(most, qs[..|qs| - 1], input);
      OneLongest(ps, qs, input[|Concat(most)|..]);
      assert ps == most + [ps[|ps| - 1]] && qs == qs[..|qs| - 1] + [qs[|qs| - 1]];
    }
  }

  lemma OneLongest(ps: seq<Word>, qs: seq<Word>, rest: seq<Byte>)
    requires ps != [] && |ps| == |qs| && ps[..|ps| - 1] == qs[..|qs| - 1]
    requires Longest(ps, rest) && Longest(qs, rest)
    ensures ps[|ps| - 1] == qs[|qs| - 1]
  {
    var p, q := ps[|ps| - 1], qs[|qs| - 1];
    assert p == rest[..|p|] && q == rest[..|q|] && p[0] == rest[0] == q[0];
    forall i | 0 <= i < |ps| - 1 ensures Extension(ps, i) == Extension(qs, i) {
      assert ps[..|ps| - 1][i] == ps[i] && qs[..|qs| - 1][i] == qs[i];
      if i + 1 < |ps| - 1 {
        assert ps[..|ps| - 1][i + 1] == ps[i + 1] && qs[..|qs| - 1][i + 1] == qs[i + 1];
      }
    }
    assert Known(qs, p) && Known(ps, q);
  }

  lemma {:induction false} GreedyFront(ps: seq<Word>, k: nat, input: seq<Byte>)
    requires Greedy(ps, input) && k <= |ps|
    ensures Greedy(ps[..k], input)
    decreases |ps|
  {
    if k < |ps| {
      GreedyFront(ps[..|ps| - 1], k, input);
      assert ps[..|ps| - 1][..k] == ps[..k];
    } else {
      assert ps[..k] == ps;
    }
  }

  lemma OneName(ps: seq<Word>, input: seq<Byte>, j: nat, c: Code, c': Code)
    requires Greedy(ps, input) && Concat(ps) <= input && j < |ps| && Names(ps, j, c) && Names(ps, j, c')
    ensures c == c'
  {
    if c >= 256 && c' >= 256 && c != c' {
      var i, k := if c < c' then c - FIRST else c' - FIRST, if c < c' then c' - FIRST else c - FIRST;
      ExtensionsDiffer(ps, input, i, k);
    }
  }

  lemma {:induction false} CoversLength(ps: seq<Word>, from: nat, codes: seq<Code>, input: seq<Byte>, behind: seq<Code>)
    requires from <= |ps| && Covers(ps, from, codes, input, behind)
    ensures if Concat(ps) == input then |ps| <= FULL && behind == [] else |ps| == FULL
    decreases |ps| - from
  {
    if from < |ps| {
      CoversLength(ps, from + 1, codes[1..], input, behind);
    }
  }

  lemma {:induction false} OneCovering(ps: seq<Word>, from: nat, x: seq<Code>, y: seq<Code>, input: seq<Byte>, behind: seq<Code>)
    requires Greedy(ps, input) && Concat(ps) <= input && from <= |ps|
    requires Covers(ps, from, x, input, behind) && Covers(ps, from, y, input, behind)
    ensures x == y
    decreases |ps| - from
  {
    if from < |ps| {
      OneName(ps, input, from, x[0], y[0]);
      OneCovering(ps, from + 1, x[1..], y[1..], input, behind);
      assert x == [x[0]] + x[1..] && y == [y[0]] + y[1..];
    }
  }

  /** Fewer phrases than a full run end with the input. */
  lemma NoMore(ps: seq<Word>, qs: seq<Word>, input: seq<Byte>)
    requires Greedy(ps, input) && Greedy(qs, input) && Concat(qs) <= input
    requires Concat(ps) == input || |ps| >= |qs|
    ensures |ps| >= |qs|
  {
    if |ps| < |qs| {
      MoreIsLonger(qs, |ps|);
      GreedyFront(qs, |ps|, input);
      OneCut(ps, qs[..|ps|], input);
    }
  }

  lemma MoreIsLonger(qs: seq<Word>, k: nat)
    requires k < |qs|
    ensures |Concat(qs[..k])| < |Concat(qs)|
  {
    assert qs == qs[..k] + qs[k..];
    ConcatMore(qs[..k], qs[k..]);
    ConcatNotEmpty(qs[k..]);
  }

  lemma {:induction false} ConcatMore(xs: seq<Word>, ys: seq<Word>)
    ensures Concat(xs + ys) == Concat(xs) + Concat(ys)
  {
    if xs == [] {
      assert xs + ys == ys;
    } else {
      assert (xs + ys)[0] == xs[0] && (xs + ys)[1..] == xs[1..] + ys;
      ConcatMore(xs[1..], ys);
      Reassociate(xs[0], Concat(xs[1..]), Concat(ys));
    }
  }

  lemma {:induction false} OneDescription(x: seq<Code>, y: seq<Code>, input: seq<Byte>)
    requires Describes(x, input) && Describes(y, input)
    ensures x == y
    decreases |input|
  {
    if input != [] {
      var ps: seq<Word>, v: seq<Code> :|
        && ps != [] && Greedy(ps, input) && Concat(ps) <= input && Covers(ps, 0, x, input, v)
        && (Concat(ps) != input ==> |v| < |x| && Describes(v, input[|Concat(ps)|..]));
      var qs: seq<Word>, w: seq<Code> :|
        && qs != [] && Greedy(qs, input) && Concat(qs) <= input && Covers(qs, 0, y, input, w)
        && (Concat(qs) != input ==> |w| < |y| && Describes(w, input[|Concat(qs)|..]));
      CoversLength(ps, 0, x, input, v);
      CoversLength(qs, 0, y, input, w);
      NoMore(ps, qs, input);
      NoMore(qs, ps, input);
      OneCut(ps, qs, input);
      ConcatNotEmpty(ps);
      if Concat(ps) != input {
        OneDescription(v, w, input[|Concat(ps)|..]);
      }
      OneCovering(ps, 0, x, y, input, v);
    }
  }

  /** The codes of an input are those of the phrases it is greedily cut into, and no
      others. */
  lemma EncodeIsGreedy(input: seq<Byte>, codes: seq<Code>)
    ensures codes == Encode(input) <==> Describes(codes, input)
  {
    EncodeDescribed(input);
    if Describes(codes, input) {
      OneDescription(codes, Encode(input), input);
    }
  }
}
