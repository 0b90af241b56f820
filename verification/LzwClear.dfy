/** What a CLEAR does to the round trip. The encoder writes two bytes for it and starts
    a new block; the decoder has already read a whole 16-byte block and drops the rest. */
module LzwClear {
  import opened Bits
  import opened LzwCodes
  import opened LzwPacking
  import opened LzwReader
  import opened LzwRoundTrip

  // ----- the reader at a CLEAR

  /** The codes at the end take nine bits each. */
  ghost predicate HasTail(codes: seq<Code>, bits: nat, tail: nat) {
    |StreamBits(codes)| == bits + 9 * tail && Since(codes) == tail
  }

  /** Up to twelve codes after a CLEAR take nine bits each. */
  lemma {:induction false} ShortTail(before: seq<Code>, post: seq<Code>)
    requires before != [] && before[|before| - 1] == CLEAR
    requires CLEAR !in post && |post| <= 12
    ensures HasTail(before + post, |StreamBits(before)|, |post|)
  {
    if post == [] {
      assert before + post == before;
    } else {
      var most, c := post[..|post| - 1], post[|post| - 1];
      assert c in post;
      ShortTail(before, most);
      LastApart(before, post);
      OneMoreCode(before + most, |StreamBits(before)|, |most|, c);
    }
  }

  lemma LastApart(before: seq<Code>, post: seq<Code>)
    requires post != []
    ensures before + post == before + post[..|post| - 1] + [post[|post| - 1]]
  {
  }

  lemma OneMoreCode(codes: seq<Code>, bits: nat, tail: nat, c: Code)
    requires HasTail(codes, bits, tail) && tail < 12 && c != CLEAR
    ensures HasTail(codes + [c], bits, tail + 1)
  {
    NineBits(codes, tail, c);
  }

  lemma NineBits(codes: seq<Code>, k: nat, c: Code)
    requires Since(codes) == k < 12 && c != CLEAR
    ensures |StreamBits(codes + [c])| == |StreamBits(codes)| + 9 && Since(codes + [c]) == k + 1
  {
    StreamBitsAppend(codes, c);
  }

  /** A block that is read for the CLEAR swallows everything up to 16 bytes further on. */
  lemma ClearSwallows(z: seq<Byte>, position: nat, r1: Reader)
    requires Loaded(r1, z, 65280, position) && 8 * |z| <= position + 135
    ensures r1.rest == []
    ensures ReadCode(Reader(r1.rest, [], 0, INIT_BITS, FIRST), MAX_BITS) == End
  {
    assert r1.bitPos == 0;
  }

  lemma ReadClear(r: Reader, z: seq<Byte>, codes: seq<Code>)
    requires |codes| > 65280 && Run(codes[..65280]) && codes[65280] == CLEAR
    requires StreamBits(codes) <= ByteBits(z)
    requires InStep(r, z, 65280, |StreamBits(codes[..65280])|)
    requires 8 * |z| <= |StreamBits(codes[..65280])| + 135
    ensures ReadCodes(r, false, true, MAX_BITS) == [CLEAR]
  {
    Pow2Table();
    var position := CodeBits(z, codes, 65280);
    var r1 := ReadNext(r, z, 65280, position);
    ClearSwallows(z, position, r1);
    ReadOnlyClear(r, r1.(bitPos := r1.bitPos + r1.nBits));
  }

  lemma ReadOnlyClear(r: Reader, r': Reader)
    requires r.Valid() && ReadCode(r, MAX_BITS) == Got(CLEAR, r')
    requires ReadCode(Reader(r'.rest, [], 0, INIT_BITS, FIRST), MAX_BITS) == End
    ensures ReadCodes(r, false, true, MAX_BITS) == [CLEAR]
  {
    assert ReadCodes(Reader(r'.rest, [], 0, INIT_BITS, FIRST), true, true, MAX_BITS) == [];
  }

  lemma ClearStreamLength(pre: seq<Code>, post: seq<Code>)
    requires Run(pre) && |pre| == 65280 && CLEAR !in post && |post| <= 12
    ensures |StreamBits(pre + [CLEAR] + post)| == |StreamBits(pre)| + 16 + 9 * |post|
  {
    SincePlain(pre);
    StreamBitsAppend(pre, CLEAR);
    ShortTail(pre + [CLEAR], post);
  }

  /** From a stream with up to twelve codes after its CLEAR, none of them is read. */
  lemma ReadUpToClear(pre: seq<Code>, post: seq<Code>)
    requires Run(pre) && |pre| == 65280 && CLEAR !in post && |post| <= 12
    ensures ReadCodes(InitialReader(Pack(StreamBits(pre + [CLEAR] + post)), true), true, true, MAX_BITS) == pre + [CLEAR]
  {
    var codes := pre + [CLEAR] + post;
    var z := Pack(StreamBits(codes));
    PackedPrefix(StreamBits(codes));
    ClearStreamLength(pre, post);
    assert codes[..65280] == pre && codes[65280] == CLEAR;
    ReadThroughClear(z, codes);
  }

  lemma ReadThroughClear(z: seq<Byte>, codes: seq<Code>)
    requires |codes| > 65280 && Run(codes[..65280]) && codes[65280] == CLEAR
    requires StreamBits(codes) <= ByteBits(z)
    requires 8 * |z| <= |StreamBits(codes[..65280])| + 135
    ensures ReadCodes(InitialReader(z, true), true, true, MAX_BITS) == codes[..65280] + [CLEAR]
  {
    StartInStep(z);
    assert codes[..0] == [] && codes[0..65280] == codes[..65280];
    var end := ReadRun(InitialReader(z, true), z, codes, 0, 65280);
    ReadClear(end, z, codes);
  }

  // ----- the output is cut short

  lemma Uncons(pre: seq<Code>, post: seq<Code>)
    requires pre != []
    ensures pre + [CLEAR] + post == [pre[0]] + (pre[1..] + [CLEAR] + post)
    ensures pre + [CLEAR] == [pre[0]] + (pre[1..] + [CLEAR])
    ensures CLEAR !in pre ==> pre[0] != CLEAR && CLEAR !in pre[1..]
  {
  }

  lemma {:induction false} ExpandUpToClear(t: Tables, pre: seq<Code>, post: seq<Code>, first: bool, x: seq<Byte>) returns (y: seq<Byte>)
    requires t.Valid() && CLEAR !in pre && post != [] && (first ==> pre != [])
    requires Expand(t, pre + [CLEAR] + post, first, true, MAX_BITS) == Output(x)
    ensures Expand(t, pre + [CLEAR], first, true, MAX_BITS) == Output(y)
    ensures y < x
    decreases |pre|
  {
    if pre == [] {
      assert pre + [CLEAR] + post == [CLEAR] + post && pre + [CLEAR] == [CLEAR] + [];
      ExpandClear(t, post, MAX_BITS);
      ExpandClear(t, [], MAX_BITS);
      y := [];
    } else {
      var c, more := pre[0], pre[1..];
      Uncons(pre, post);
      if first {
        ExpandFirst(t, c, more + [CLEAR] + post, true, MAX_BITS);
        ExpandFirst(t, c, more + [CLEAR], true, MAX_BITS);
        y := ExpandUpToClear(Start(t, c), more, post, false, x[1..]);
        y := [c % 256] + y;
      } else {
        var s := Phrase(t, c).bytes;
        ExpandPhrase(t, c, more + [CLEAR] + post, s, true, MAX_BITS);
        ExpandPhrase(t, c, more + [CLEAR], s, true, MAX_BITS);
        y := ExpandUpToClear(Learn(t, c, s[0], MAX_BITS), more, post, false, x[|s|..]);
        y := s + y;
      }
    }
  }

  /** A stream that ends at most twelve codes after its only CLEAR decompresses to a
      proper prefix of the input: the bytes behind the CLEAR are lost. */
  lemma LostTail(input: seq<Byte>, pre: seq<Code>, post: seq<Code>) returns (y: seq<Byte>)
    requires Encode(input) == pre + [CLEAR] + post
    requires CLEAR !in pre && CLEAR !in post && 0 < |post| <= 12
    ensures y < input && Decompressed(Compressed(input)) == Output(y)
  {
    var codes := Encode(input);
    assert codes[..|pre|] == pre && codes[|pre|] == CLEAR;
    EmittedCode(EMPTY_DICT, input[0], input[1..], |pre|);
    EncodeRun(input, |pre|);
    BodyOf(input);
    ReadUpToClear(pre, post);
    DecodeEncode(input);
    y := ExpandUpToClear(InitialTables(true), pre, post, true, input);
  }

  // ----- exactly when every prefix survives

  lemma {:induction false} PrefixWithoutClear(d: Dict, ent: Code, rest: seq<Byte>, n: nat)
    requires DictShape(d, ent) && n <= |rest| && CLEAR !in EncodeFrom(d, ent, rest)
    ensures CLEAR !in EncodeFrom(d, ent, rest[..n])
    decreases |rest|
  {
    if n > 0 {
      var c := rest[0];
      var key := Key(c, ent);
      assert rest[..n][1..] == rest[1..][..n - 1];
      if key in d.entries {
        PrefixWithoutClear(d, d.entries[key], rest[1..], n - 1);
      } else if d.free < 65536 {
        PrefixWithoutClear(Dict(d.entries[key := d.free], d.free + 1), c, rest[1..], n - 1);
      } else {
        assert false;
      }
    }
  }

  /** The prefix of an input that ends with the byte that brought on the first CLEAR. */
  lemma {:induction false} FirstClear(d: Dict, ent: Code, rest: seq<Byte>) returns (n: nat, pre: seq<Code>)
    requires DictShape(d, ent) && CLEAR in EncodeFrom(d, ent, rest)
    ensures 0 < n <= |rest| && CLEAR !in pre
    ensures EncodeFrom(d, ent, rest[..n]) == pre + [CLEAR] + [rest[n - 1]]
    decreases |rest|
  {
    assert rest != [];
    var c := rest[0];
    var key := Key(c, ent);
    if key in d.entries {
      n, pre := FirstClear(d, d.entries[key], rest[1..]);
      n := n + 1;
      assert rest[..n][1..] == rest[1..][..n - 1];
    } else if d.free < 65536 {
      n, pre := FirstClear(Dict(d.entries[key := d.free], d.free + 1), c, rest[1..]);
      pre, n := [ent] + pre, n + 1;
      assert rest[..n][1..] == rest[1..][..n - 1];
      assert pre + [CLEAR] + [rest[n - 1]] == [ent] + (pre[1..] + [CLEAR] + [rest[n - 1]]);
    } else {
      n, pre := 1, [ent];
      assert rest[..1][1..] == [];
    }
  }

  /** The exact condition: an input and all its prefixes survive compression if and
      only if no CLEAR is emitted for it. */
  lemma EveryPrefixRoundTrips(input: seq<Byte>)
    ensures (forall p :: p <= input ==> Decompressed(Compressed(p)) == Output(p)) <==> CLEAR !in Encode(input)
  {
    if CLEAR !in Encode(input) {
      forall p | p <= input ensures Decompressed(Compressed(p)) == Output(p) {
        PrefixSurvives(input, p);
      }
    } else {
      var p := PrefixLost(input);
      assert p <= input && Decompressed(Compressed(p)) != Output(p);
    }
  }

  lemma PrefixSurvives(input: seq<Byte>, p: seq<Byte>)
    requires p <= input && CLEAR !in Encode(input)
    ensures Decompressed(Compressed(p)) == Output(p)
  {
    if p != [] {
      assert p[1..] == input[1..][..|p| - 1];
      PrefixWithoutClear(EMPTY_DICT, input[0], input[1..], |p| - 1);
    }
    RoundTrip(p);
  }

  /** The input up to one byte behind the first CLEAR. */
  lemma PrefixLost(input: seq<Byte>) returns (p: seq<Byte>)
    requires CLEAR in Encode(input)
    ensures p <= input && Decompressed(Compressed(p)) != Output(p)
  {
    var n, pre := FirstClear(EMPTY_DICT, input[0], input[1..]);
    p := input[..n + 1];
    assert p[1..] == input[1..][..n];
    var y := LostTail(p, pre, [input[n]]);
  }

  // ----- how long an input must be to bring on a CLEAR

  /** Every emitted code uses up at least one byte. */
  lemma {:induction false} ShortNeedsNoClear(d: Dict, ent: Code, rest: seq<Byte>)
    requires DictShape(d, ent) && |rest| <= 65536 - d.free
    ensures CLEAR !in EncodeFrom(d, ent, rest)
    decreases |rest|
  {
    if rest != [] {
      var c := rest[0];
      var key := Key(c, ent);
      if key in d.entries {
        ShortNeedsNoClear(d, d.entries[key], rest[1..]);
      } else {
        ShortNeedsNoClear(Dict(d.entries[key := d.free], d.free + 1), c, rest[1..]);
      }
    }
  }

  ghost predicate PhrasesUpTo(phrases: seq<seq<Byte>>, n: nat) {
    forall c :: 0 <= c < |phrases| ==> |phrases[c]| <= n
  }

  /** With the dictionary at `free` codes, no phrase is longer than free - 256 bytes, and
      this many bytes at most can be coded before it is full. */
  function Capacity(free: nat): nat
    requires FIRST <= free <= 65536
    decreases 65536 - free
  {
    free - 256 + if free < 65536 then Capacity(free + 1) else 0
  }

  lemma {:induction false} CapacityIs(free: nat)
    requires FIRST <= free <= 65536
    ensures 2 * Capacity(free) == 65280 * 65281 - (free - 257) * (free - 256)
    decreases 65536 - free
  {
    if free < 65536 {
      CapacityIs(free + 1);
      assert (free - 256) * (free - 255) == (free - 257) * (free - 256) + 2 * (free - 256);
    }
  }

  lemma {:induction false} LongNeedsClear(d: Dict, phrases: seq<seq<Byte>>, ent: Code, rest: seq<Byte>)
    requires DictMeans(d, phrases) && PhrasesUpTo(phrases, d.free - 256) && IsPhrase(phrases, ent)
    requires CLEAR !in EncodeFrom(d, ent, rest)
    ensures |phrases[ent]| + |rest| <= Capacity(d.free)
    decreases |rest|
  {
    var free := d.free;
    if rest != [] {
      var c := rest[0];
      var key := Key(c, ent);
      if key in d.entries {
        LongNeedsClear(d, phrases, d.entries[key], rest[1..]);
      } else if free < 65536 {
        NewEntry(d, phrases, ent, c);
        var phrases' := phrases + [phrases[ent] + [c]];
        assert phrases'[c] == [c];
        LongNeedsClear(Dict(d.entries[key := free], free + 1), phrases', c, rest[1..]);
      } else {
        assert false;
      }
    }
  }

  /** Inputs of up to 65280 bytes always survive; inputs above 2130771840 bytes always
      have a prefix that does not. */
  lemma SafeLengths(input: seq<Byte>)
    ensures |input| <= 65280 ==> Decompressed(Compressed(input)) == Output(input)
    ensures |input| > 2130771840 ==> exists p :: p <= input && Decompressed(Compressed(p)) != Output(p)
  {
    if |input| <= 65280 {
      if input != [] {
        ShortNeedsNoClear(EMPTY_DICT, input[0], input[1..]);
      }
      RoundTrip(input);
    } else {
      if CLEAR !in Encode(input) {
        CapacityIs(FIRST);
        LongNeedsClear(EMPTY_DICT, NO_PHRASES, input[0], input[1..]);
      }
      EveryPrefixRoundTrips(input);
    }
  }
}
