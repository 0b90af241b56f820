/** The dictionary layer of the .Z format: bytes to code sequences and back.

    `EncodeFrom` is the encoder's main loop without its bit packing, `Expand` the
    decoder's main loop without its bit reader. */
module LzwCodes {
  import opened Bits

  const INIT_BITS := 9
  const MAX_BITS := 16
  const CLEAR := 256
  const FIRST := 257

  type Code = c: int | 0 <= c < 65536

  // ----- encoder

  /** The encoder's dictionary: a phrase, given as its last byte and the code of the
      rest, maps to its code. Codes below `free` are in use. */
  datatype Dict = Dict(entries: map<nat, Code>, free: nat)

  const EMPTY_DICT := Dict(map[], FIRST)

  /** (c << 16) | ent; the or is a sum because ent has at most 16 bits. */
  function Key(c: Byte, ent: Code): nat {
    c * 65536 + ent
  }

  function EncodeFrom(d: Dict, ent: Code, rest: seq<Byte>): seq<Code>
    decreases |rest|
  {
    if rest == [] then [ent]
    else
      var c := rest[0];
      var key := Key(c, ent);
      if key in d.entries then
        EncodeFrom(d, d.entries[key], rest[1..])
      else if d.free < 65536 then
        [ent] + EncodeFrom(Dict(d.entries[key := d.free], d.free + 1), c, rest[1..])
      else
        [ent, CLEAR] + EncodeFrom(EMPTY_DICT, c, rest[1..])
  }

  function Encode(input: seq<Byte>): seq<Code> {
    if input == [] then [] else EncodeFrom(EMPTY_DICT, input[0], input[1..])
  }

  // ----- decoder

  /** What decompression ends in. `Diverges` stands for a walk through the prefix
      table of a malformed stream that never reaches a single byte. */
  datatype Outcome = Output(bytes: seq<Byte>) | NotZ | BadMaxBits(mb: nat) | Diverges

  function Then(out: seq<Byte>, o: Outcome): Outcome {
    match o
    case Output(more) => Output(out + more)
    case _ => o
  }

  lemma ThenThen(a: seq<Byte>, b: seq<Byte>, o: Outcome)
    ensures Then(a, Then(b, o)) == Then(a + b, o)
  {
    if o.Output? {
      assert a + (b + o.bytes) == a + b + o.bytes;
    }
  }

  /** The decoder's tables with the two variables carried from one code to the next. */
  datatype Tables = Tables(prefix: seq<Code>, suffix: seq<Byte>, free: nat, prev: Code, fin: Byte) {
    predicate Valid() {
      |prefix| == |suffix| == 65536
    }
  }

  const WALK_LIMIT := 65536

  /** The string a code stands for: follow the prefix links until a single byte. The
      table holds 65536 codes, so a walk longer than that repeats and never ends. */
  function Chain(prefix: seq<Code>, suffix: seq<Byte>, cur: Code, fuel: nat): (r: Outcome)
    requires |prefix| == |suffix| == 65536
    ensures r.Output? || r.Diverges?
    ensures r.Output? ==> |r.bytes| > 0
    decreases fuel
  {
    if cur < 256 then Output([cur])
    else if fuel == 0 then Diverges
    else
      match Chain(prefix, suffix, prefix[cur], fuel - 1)
      case Output(s) => Output(s + [suffix[cur]])
      case _ => Diverges
  }

  /** The bytes one ordinary code adds; at or above `free` it is the KwKwK case. */
  function Phrase(t: Tables, c: Code): (r: Outcome)
    requires t.Valid()
    ensures r.Output? || r.Diverges?
    ensures r.Output? ==> |r.bytes| > 0
  {
    if c >= t.free then
      match Chain(t.prefix, t.suffix, t.prev, WALK_LIMIT)
      case Output(s) => Output(s + [t.fin])
      case _ => Diverges
    else
      Chain(t.prefix, t.suffix, c, WALK_LIMIT)
  }

  /** The tables after a code whose phrase starts with the byte `fin`. */
  function Learn(t: Tables, c: Code, fin: Byte, maxBits: nat): (t': Tables)
    requires t.Valid() && INIT_BITS <= maxBits <= MAX_BITS
    ensures t'.Valid()
  {
    if t.free < Pow2(maxBits) then
      Pow2AtMost(maxBits);
      Tables(t.prefix[t.free := t.prev], t.suffix[t.free := fin], t.free + 1, c, fin)
    else
      t.(prev := c, fin := fin)
  }

  /** The first code, at the start and after a CLEAR, is written as one byte. */
  function Start(t: Tables, c: Code): (t': Tables)
    ensures t.Valid() ==> t'.Valid()
  {
    t.(prev := c, fin := c % 256)
  }

  function Expand(t: Tables, codes: seq<Code>, first: bool, block: bool, maxBits: nat): Outcome
    requires t.Valid() && INIT_BITS <= maxBits <= MAX_BITS
    decreases |codes|
  {
    if codes == [] then Output([])
    else
      var c := codes[0];
      if first then
        Then([c % 256], Expand(Start(t, c), codes[1..], false, block, maxBits))
      else if block && c == CLEAR then
        Expand(t.(free := FIRST), codes[1..], true, block, maxBits)
      else
        match Phrase(t, c)
        case Output(s) => Then(s, Expand(Learn(t, c, s[0], maxBits), codes[1..], false, block, maxBits))
        case _ => Diverges
  }

  function InitialTables(block: bool): (t: Tables)
    ensures t.Valid()
  {
    Tables(seq(65536, i => 0), seq(65536, i requires 0 <= i => if i < 256 then i else 0),
           if block then FIRST else CLEAR, 0, 0)
  }

  function Decode(codes: seq<Code>, block: bool, maxBits: nat): Outcome
    requires INIT_BITS <= maxBits <= MAX_BITS
  {
    Expand(InitialTables(block), codes, true, block, maxBits)
  }

  lemma Pow2AtMost(n: nat)
    requires n <= MAX_BITS
    ensures Pow2(n) <= 65536
  {
    Pow2Table();
    Pow2Monotone(n, 16);
  }

  lemma {:induction false} Pow2Monotone(m: nat, n: nat)
    requires m <= n
    ensures Pow2(m) <= Pow2(n)
  {
    if m < n {
      Pow2Monotone(m, n - 1);
    }
  }

  // ----- one step of the decoder's loop

  lemma ExpandPhrase(t: Tables, c: Code, more: seq<Code>, s: seq<Byte>, block: bool, maxBits: nat)
    requires t.Valid() && INIT_BITS <= maxBits <= MAX_BITS
    requires !(block && c == CLEAR) && Phrase(t, c) == Output(s)
    ensures Expand(t, [c] + more, false, block, maxBits)
         == Then(s, Expand(Learn(t, c, s[0], maxBits), more, false, block, maxBits))
  {
    assert ([c] + more)[1..] == more;
  }

  lemma ExpandClear(t: Tables, more: seq<Code>, maxBits: nat)
    requires t.Valid() && INIT_BITS <= maxBits <= MAX_BITS
    ensures Expand(t, [CLEAR] + more, false, true, maxBits)
         == Expand(t.(free := FIRST), more, true, true, maxBits)
  {
    assert ([CLEAR] + more)[1..] == more;
  }

  lemma ExpandFirst(t: Tables, c: Code, more: seq<Code>, block: bool, maxBits: nat)
    requires t.Valid() && INIT_BITS <= maxBits <= MAX_BITS
    ensures Expand(t, [c] + more, true, block, maxBits)
         == Then([c % 256], Expand(Start(t, c), more, false, block, maxBits))
  {
    assert ([c] + more)[1..] == more;
  }

  // ----- what the tables mean

  /** A phrase book: phrases[c] is the string of code c. Code 256 has none. */
  ghost predicate Book(phrases: seq<seq<Byte>>) {
    && FIRST <= |phrases| <= 65536
    && (forall c :: 0 <= c < 256 ==> phrases[c] == [c as Byte])
    && (forall c :: FIRST <= c < |phrases| ==> phrases[c] != [])
  }

  predicate IsPhrase(phrases: seq<seq<Byte>>, c: int) {
    0 <= c < |phrases| && c != CLEAR
  }

  ghost predicate DictMeans(d: Dict, phrases: seq<seq<Byte>>) {
    && Book(phrases)
    && d.free == |phrases|
    && forall c: Byte, ent: Code {:trigger Key(c, ent)} :: Key(c, ent) in d.entries ==>
         && IsPhrase(phrases, ent)
         && FIRST <= d.entries[Key(c, ent)] < |phrases|
         && phrases[d.entries[Key(c, ent)]] == phrases[ent] + [c]
  }

  ghost predicate TablesMean(t: Tables, phrases: seq<seq<Byte>>) {
    && t.Valid()
    && Book(phrases)
    && t.free == |phrases|
    && forall c :: FIRST <= c < |phrases| ==>
         && t.prefix[c] < c && t.prefix[c] != CLEAR
         && phrases[c] == phrases[t.prefix[c]] + [t.suffix[c]]
  }

  const NO_PHRASES: seq<seq<Byte>> := seq(FIRST, i requires 0 <= i => if i < 256 then [i] else [])

  lemma {:induction false} ChainMeans(t: Tables, phrases: seq<seq<Byte>>, c: Code, fuel: nat)
    requires TablesMean(t, phrases) && IsPhrase(phrases, c)
    requires fuel >= c
    ensures Chain(t.prefix, t.suffix, c, fuel) == Output(phrases[c])
    decreases c
  {
    if c >= 256 {
      ChainMeans(t, phrases, t.prefix[c], fuel - 1);
    }
  }

  // ----- the round trip of the dictionary layer

  /** The state between two codes: the decoder knows every phrase the encoder knows
      except the newest, `phrases[last]`, which is the previous phrase followed by the
      first byte of the phrase the encoder is now extending. */
  ghost predicate OneBehind(t: Tables, phrases: seq<seq<Byte>>, ent: int) {
    && |phrases| > FIRST
    && IsPhrase(phrases, ent)
    && TablesMean(t, phrases[..|phrases| - 1])
    && IsPhrase(phrases[..|phrases| - 1], t.prev)
    && t.fin == phrases[t.prev][0]
    && phrases[ent] != []
    && phrases[|phrases| - 1] == phrases[t.prev] + [phrases[ent][0]]
  }

  /** One code: the decoder outputs the phrase and catches up with the encoder. */
  lemma CatchUp(t: Tables, phrases: seq<seq<Byte>>, ent: Code)
    requires Book(phrases) && OneBehind(t, phrases, ent)
    ensures Phrase(t, ent) == Output(phrases[ent])
    ensures TablesMean(Learn(t, ent, phrases[ent][0], MAX_BITS), phrases)
  {
    var known := phrases[..|phrases| - 1];
    Pow2Table();
    if ent >= t.free {
      ChainMeans(t, known, t.prev, WALK_LIMIT);
      assert phrases[ent][0] == t.fin;
    } else {
      ChainMeans(t, known, ent, WALK_LIMIT);
    }
    var t' := Learn(t, ent, phrases[ent][0], MAX_BITS);
    forall c | FIRST <= c < |phrases|
      ensures t'.prefix[c] < c && t'.prefix[c] != CLEAR
      ensures phrases[c] == phrases[t'.prefix[c]] + [t'.suffix[c]]
    {
      if c < |known| {
        assert known[c] == phrases[c];
      }
    }
  }

  lemma NewEntry(d: Dict, phrases: seq<seq<Byte>>, ent: Code, c: Byte)
    requires DictMeans(d, phrases) && IsPhrase(phrases, ent)
    requires d.free < 65536
    ensures DictMeans(Dict(d.entries[Key(c, ent) := d.free], d.free + 1), phrases + [phrases[ent] + [c]])
  {
  }

  lemma {:induction false} ExpandEncodeFrom(d: Dict, phrases: seq<seq<Byte>>, ent: Code, rest: seq<Byte>, t: Tables)
    requires DictMeans(d, phrases) && OneBehind(t, phrases, ent)
    ensures Expand(t, EncodeFrom(d, ent, rest), false, true, MAX_BITS) == Output(phrases[ent] + rest)
    decreases |rest|, 2
  {
    if rest != [] && Key(rest[0], ent) in d.entries {
      var next := d.entries[Key(rest[0], ent)];
      ExpandEncodeFrom(d, phrases, next, rest[1..], t);
      assert phrases[next] + rest[1..] == phrases[ent] + rest;
    } else {
      ExpandEmitted(d, phrases, ent, rest, t);
    }
  }

  /** The case in which the encoder emits the code of the phrase it has matched. */
  lemma {:induction false} ExpandEmitted(d: Dict, phrases: seq<seq<Byte>>, ent: Code, rest: seq<Byte>, t: Tables)
    requires DictMeans(d, phrases) && OneBehind(t, phrases, ent)
    requires rest == [] || Key(rest[0], ent) !in d.entries
    ensures Expand(t, EncodeFrom(d, ent, rest), false, true, MAX_BITS) == Output(phrases[ent] + rest)
    decreases |rest|, 1
  {
    CatchUp(t, phrases, ent);
    var t' := Learn(t, ent, phrases[ent][0], MAX_BITS);
    if rest == [] {
      ExpandPhrase(t, ent, [], phrases[ent], true, MAX_BITS);
      assert [ent] + [] == [ent];
      return;
    }
    var c, more := rest[0], rest[1..];
    assert rest == [c] + more;
    if d.free < 65536 {
      var d' := Dict(d.entries[Key(c, ent) := d.free], d.free + 1);
      var phrases' := phrases + [phrases[ent] + [c]];
      NewEntry(d, phrases, ent, c);
      assert phrases'[..|phrases'| - 1] == phrases && phrases'[c] == [c];
      ExpandEncodeFrom(d', phrases', c, more, t');
      ExpandPhrase(t, ent, EncodeFrom(d', c, more), phrases[ent], true, MAX_BITS);
    } else {
      ExpandEmittedClear(d, phrases, ent, c, more, t);
    }
  }

  /** The dictionary is full: the encoder starts over with an empty one, and so does the
      decoder. */
  lemma {:induction false} ExpandEmittedClear(d: Dict, phrases: seq<seq<Byte>>, ent: Code, c: Byte, more: seq<Byte>, t: Tables)
    requires DictMeans(d, phrases) && OneBehind(t, phrases, ent)
    requires Key(c, ent) !in d.entries && d.free >= 65536
    ensures Expand(t, EncodeFrom(d, ent, [c] + more), false, true, MAX_BITS) == Output(phrases[ent] + ([c] + more))
    decreases |more| + 1, 0
  {
    CatchUp(t, phrases, ent);
    var t' := Learn(t, ent, phrases[ent][0], MAX_BITS);
    var codes := EncodeFrom(EMPTY_DICT, c, more);
    ExpandFresh(c, more, t'.(free := FIRST));
    ExpandClear(t', codes, MAX_BITS);
    ExpandPhrase(t, ent, [CLEAR] + codes, phrases[ent], true, MAX_BITS);
    assert ([c] + more)[1..] == more;
    assert [ent, CLEAR] + codes == [ent] + ([CLEAR] + codes);
  }

  lemma FirstEntry(ent: Byte, c: Byte)
    ensures DictMeans(Dict(map[Key(c, ent) := FIRST], FIRST + 1), NO_PHRASES + [[ent, c]])
  {
    NewEntry(EMPTY_DICT, NO_PHRASES, ent, c);
    assert NO_PHRASES[ent] + [c] == [ent, c];
    assert EMPTY_DICT.entries[Key(c, ent) := FIRST] == map[Key(c, ent) := FIRST];
  }

  lemma OneBehindFresh(t: Tables, ent: Byte, c: Byte)
    requires t.Valid() && t.free == FIRST
    ensures OneBehind(Start(t, ent), NO_PHRASES + [[ent, c]], c)
  {
    var phrases := NO_PHRASES + [[ent, c]];
    assert phrases[..|phrases| - 1] == NO_PHRASES;
    assert phrases[c] == [c] && phrases[ent] == [ent];
  }

  /** The same from an empty dictionary, at the start or right after a CLEAR, whatever
      stale entries the decoder's tables still hold. */
  lemma {:induction false} ExpandFresh(ent: Byte, rest: seq<Byte>, t: Tables)
    requires t.Valid() && t.free == FIRST
    ensures Expand(t, EncodeFrom(EMPTY_DICT, ent, rest), true, true, MAX_BITS) == Output([ent] + rest)
    decreases |rest|, 1
  {
    if rest == [] {
      ExpandFirst(t, ent, [], true, MAX_BITS);
      assert [ent] + [] == [ent];
    } else {
      var c, more := rest[0], rest[1..];
      var d := Dict(map[Key(c, ent) := FIRST], FIRST + 1);
      FirstEntry(ent, c);
      OneBehindFresh(t, ent, c);
      ExpandEncodeFrom(d, NO_PHRASES + [[ent, c]], c, more, Start(t, ent));
      ExpandFirst(t, ent, EncodeFrom(d, c, more), true, MAX_BITS);
      assert (NO_PHRASES + [[ent, c]])[c] == [c];
      assert rest == [c] + more;
    }
  }

  /** Every byte string survives coding and decoding, CLEAR codes included. */
  lemma DecodeEncode(input: seq<Byte>)
    ensures Decode(Encode(input), true, MAX_BITS) == Output(input)
  {
    if input != [] {
      ExpandFresh(input[0], input[1..], InitialTables(true));
      assert [input[0]] + input[1..] == input;
    }
  }
}
