/** The two layers together: when Decompress undoes Compress. */
module LzwRoundTrip {
  import opened Bits
  import opened LzwCodes
  import opened LzwPacking
  import opened LzwReader

  // ----- the codes the encoder emits

  ghost predicate DictShape(d: Dict, ent: int) {
    && FIRST <= d.free <= 65536
    && 0 <= ent < d.free && ent != CLEAR
    && forall key :: key in d.entries ==> FIRST <= d.entries[key] < d.free
  }

  /** Up to the first CLEAR, code i names one of the phrases known when it is emitted,
      and the CLEAR comes exactly when the dictionary is full. */
  lemma {:induction false} EmittedCode(d: Dict, ent: Code, rest: seq<Byte>, i: nat)
    requires DictShape(d, ent)
    requires i < |EncodeFrom(d, ent, rest)| && CLEAR !in EncodeFrom(d, ent, rest)[..i]
    ensures var c := EncodeFrom(d, ent, rest)[i];
      if c == CLEAR then i == 65537 - d.free else c < d.free + i <= 65536
    decreases |rest|
  {
    if rest != [] {
      var c := rest[0];
      var key := Key(c, ent);
      if key in d.entries {
        EmittedCode(d, d.entries[key], rest[1..], i);
      } else if d.free < 65536 {
        var d' := Dict(d.entries[key := d.free], d.free + 1);
        var codes := EncodeFrom(d', c, rest[1..]);
        if i > 0 {
          assert ([ent] + codes)[..i][1..] == codes[..i - 1];
          EmittedCode(d', c, rest[1..], i - 1);
        }
      } else if i > 1 {
        InTake([ent, CLEAR] + EncodeFrom(EMPTY_DICT, c, rest[1..]), 1, i);
        assert false;
      }
    }
  }

  lemma InTake(codes: seq<Code>, k: nat, n: nat)
    requires k < n <= |codes|
    ensures codes[k] in codes[..n]
  {
    assert codes[..n][k] == codes[k];
  }

  /** A run of codes without CLEAR, each of which fits the width of its place. */
  ghost predicate Run(codes: seq<Code>) {
    && CLEAR !in codes
    && |codes| <= 65280
    && forall i :: 0 <= i < |codes| ==> codes[i] < Pow2(Width(i))
  }

  lemma EncodeRun(input: seq<Byte>, n: nat)
    requires n <= |Encode(input)| && CLEAR !in Encode(input)[..n]
    ensures Run(Encode(input)[..n])
  {
    var codes := Encode(input);
    if n > 0 {
      assert codes[n - 1] in codes[..n] && forall c :: c in codes[..n - 1] ==> c in codes[..n];
      EmittedCode(EMPTY_DICT, input[0], input[1..], n - 1);
    }
    forall i | 0 <= i < n ensures codes[i] < Pow2(Width(i)) && i < 65280 {
      assert codes[..i] == codes[..n][..i];
      assert codes[i] == codes[..n][i];
      EmittedCode(EMPTY_DICT, input[0], input[1..], i);
      FitsWidth(codes[i], i);
    }
  }

  // ----- the reader stays in step

  /** The reader stands at a bit position of the file. */
  ghost predicate Stands(r: Reader, z: seq<Byte>, position: nat) {
    && r.Valid()
    && |r.block| <= r.nBits && |r.rest| + |r.block| <= |z|
    && r.rest == z[|z| - |r.rest|..]
    && r.block == z[|z| - |r.rest| - |r.block|..|z| - |r.rest|]
    && position == 8 * (|z| - |r.rest| - |r.block|) + r.bitPos
  }

  /** After i codes of the run, where the reader stands and how wide it reads. */
  ghost predicate InStep(r: Reader, z: seq<Byte>, i: nat, position: nat) {
    && Stands(r, z, position)
    && r.free == (if i == 0 then FIRST else 256 + i)
    && r.nBits == Width(if i == 0 then 0 else i - 1)
    && (if i == 0 then r.block == []
        else (|r.block| == r.nBits || r.rest == []) && r.bitPos == Offset((i - 1) % 8 + 1, r.nBits))
  }

  /** The i-th code's place in its block: after the eighth code the block is used up,
      before it there is room for another. */
  lemma PlaceInBlock(i: nat, w: nat)
    requires i > 0
    ensures var used := Offset((i - 1) % 8 + 1, w);
      if i % 8 == 0 then used == 8 * w else used + w <= 8 * w
  {
    OffsetIs((i - 1) % 8 + 1, w);
  }

  /** Inside a block the reader does not refill, and the code is there. */
  lemma InsideBlock(r: Reader, z: seq<Byte>, i: nat, position: nat)
    requires InStep(r, z, i, position) && i < 65280 && i % 8 != 0
    requires 8 * |z| >= position + Width(i)
    ensures r.nBits == Width(i) && r.bitPos + r.nBits <= 8 * |r.block| && !MustRefill(r)
  {
    WidthFits(i);
    NextWidth(i - 1);
    PlaceInBlock(i, r.nBits);
  }

  /** Between two blocks it does, in the width of code i. */
  lemma BetweenBlocks(r: Reader, z: seq<Byte>, i: nat, position: nat)
    requires InStep(r, z, i, position) && i % 8 == 0
    ensures MustRefill(r) && r.bitPos == 8 * |r.block|
    ensures Refill(r, MAX_BITS).nBits == Width(i)
  {
    if i > 0 {
      NextWidth(i - 1);
      PlaceInBlock(i, r.nBits);
    } else {
      Pow2Table();
    }
  }

  /** The reader with the block that holds code i loaded. */
  ghost predicate Loaded(r: Reader, z: seq<Byte>, i: nat, position: nat) {
    && Stands(r, z, position)
    && r.free == (if i == 0 then FIRST else 256 + i)
    && r.nBits == Width(i)
    && (|r.block| == r.nBits || r.rest == [])
    && r.bitPos == Offset(i % 8, r.nBits)
    && r.bitPos + r.nBits <= 8 * |r.block|
  }

  lemma LoadInside(r: Reader, z: seq<Byte>, i: nat, position: nat)
    requires InStep(r, z, i, position) && i < 65280 && i % 8 != 0
    requires 8 * |z| >= position + Width(i)
    ensures !MustRefill(r) && Loaded(r, z, i, position)
  {
    InsideBlock(r, z, i, position);
    assert (i - 1) % 8 + 1 == i % 8;
  }

  lemma LoadBetween(r: Reader, z: seq<Byte>, i: nat, position: nat)
    requires InStep(r, z, i, position) && i % 8 == 0
    requires 8 * |z| >= position + Width(i)
    ensures MustRefill(r) && Loaded(Refill(r, MAX_BITS), z, i, position)
  {
    BetweenBlocks(r, z, i, position);
    var n := |Refill(r, MAX_BITS).block|;
    CutAt(z, |z| - |r.rest|, n);
    assert Offset(i % 8, Width(i)) == 0;
  }

  lemma CutAt(z: seq<Byte>, at: nat, n: nat)
    requires at + n <= |z|
    ensures z[at..][n..] == z[at + n..] && z[at..][..n] == z[at..at + n]
  {
  }

  /** Code i of the stream, as bits of the file. */
  lemma CodeBits(z: seq<Byte>, codes: seq<Code>, i: nat) returns (p: nat)
    requires i < |codes| && CLEAR !in codes[..i] && codes[i] < Pow2(Width(i))
    requires StreamBits(codes) <= ByteBits(z)
    ensures p == |StreamBits(codes[..i])|
    ensures |StreamBits(codes[..i + 1])| == p + Width(i) <= 8 * |z|
    ensures FromBits(ByteBits(z)[p..p + Width(i)]) == codes[i]
  {
    var before := codes[..i];
    SincePlain(before);
    assert codes[..i + 1] == before + [codes[i]];
    StreamBitsAppend(before, codes[i]);
    StreamBitsPrefix(codes, i + 1);
    p := |StreamBits(before)|;
    var bits := StreamBits(codes[..i + 1]);
    assert bits <= ByteBits(z);
    assert ByteBits(z)[p..p + Width(i)] == bits[p..] == ToBits(codes[i], Width(i));
    ToFromBits(codes[i], Width(i));
  }

  lemma ReadLoaded(r: Reader, z: seq<Byte>, a: nat, position: nat)
    requires r.Valid() && r.bitPos + r.nBits <= 8 * |r.block|
    requires a + |r.block| <= |z| && r.block == z[a..a + |r.block|] && position == 8 * a + r.bitPos
    ensures position + r.nBits <= 8 * |z|
    ensures CodeAt(r.block, r.bitPos, r.nBits) == FromBits(ByteBits(z)[position..position + r.nBits])
  {
    var at, w, n, bits := r.bitPos, r.nBits, |r.block|, ByteBits(z);
    ByteBitsSlice(z, a, a + n);
    SubSlice(bits, 8 * a, 8 * (a + n), at, at + w);
  }

  lemma SubSlice(bits: seq<bool>, lo: nat, hi: nat, at: nat, end: nat)
    requires lo <= hi <= |bits| && at <= end <= hi - lo
    ensures bits[lo..hi][at..end] == bits[lo + at..lo + end]
  {
    var x, y := bits[lo..hi][at..end], bits[lo + at..lo + end];
    assert forall k :: 0 <= k < end - at ==> x[k] == bits[lo + at + k] == y[k];
  }

  lemma ReadFrom(r: Reader, r1: Reader)
    requires r.Valid() && r1 == if MustRefill(r) then Refill(r, MAX_BITS) else r
    requires r1.Valid() && r1.bitPos + r1.nBits <= 8 * |r1.block|
    ensures ReadCode(r, MAX_BITS) == Got(CodeAt(r1.block, r1.bitPos, r1.nBits), r1.(bitPos := r1.bitPos + r1.nBits))
  {
  }

  lemma LoadedCode(r: Reader, z: seq<Byte>, i: nat, position: nat)
    requires Loaded(r, z, i, position) && position + Width(i) <= 8 * |z|
    ensures CodeAt(r.block, r.bitPos, r.nBits) == FromBits(ByteBits(z)[position..position + Width(i)])
  {
    ReadLoaded(r, z, |z| - |r.rest| - |r.block|, position);
  }

  lemma Load(r: Reader, z: seq<Byte>, i: nat, position: nat) returns (r1: Reader)
    requires InStep(r, z, i, position) && (i < 65280 || i % 8 == 0)
    requires 8 * |z| >= position + Width(i)
    ensures r1 == if MustRefill(r) then Refill(r, MAX_BITS) else r
    ensures Loaded(r1, z, i, position)
  {
    if i % 8 == 0 {
      LoadBetween(r, z, i, position);
      r1 := Refill(r, MAX_BITS);
    } else {
      LoadInside(r, z, i, position);
      r1 := r;
    }
  }

  /** In step before code i, the reader loads the block and reads the bits at its place. */
  lemma ReadNext(r: Reader, z: seq<Byte>, i: nat, position: nat) returns (r1: Reader)
    requires InStep(r, z, i, position) && (i < 65280 || i % 8 == 0)
    requires position + Width(i) <= 8 * |z|
    requires FromBits(ByteBits(z)[position..position + Width(i)]) < 65536
    ensures Loaded(r1, z, i, position)
    ensures ReadCode(r, MAX_BITS)
         == Got(FromBits(ByteBits(z)[position..position + Width(i)]), r1.(bitPos := r1.bitPos + r1.nBits))
  {
    r1 := Load(r, z, i, position);
    LoadedCode(r1, z, i, position);
    ReadFrom(r, r1);
  }

  /** Having read code i, the reader is in step before code i + 1. */
  lemma ReadOne(r: Reader, z: seq<Byte>, codes: seq<Code>, i: nat) returns (r': Reader)
    requires i < 65280 && i < |codes| && CLEAR !in codes[..i] && codes[i] < Pow2(Width(i)) && codes[i] != CLEAR
    requires StreamBits(codes) <= ByteBits(z)
    requires InStep(r, z, i, |StreamBits(codes[..i])|)
    ensures ReadCode(r, MAX_BITS) == Got(codes[i], r')
    ensures InStep(After(r', codes[i], i == 0, true, MAX_BITS), z, i + 1, |StreamBits(codes[..i + 1])|)
  {
    var p := CodeBits(z, codes, i);
    r' := ReadOneAt(r, z, i, p, codes[i]);
  }

  lemma FitsWidth(c: Code, i: nat)
    requires i < 65280 && c < FIRST + i
    ensures c < Pow2(Width(i))
  {
    WidthFits(i);
  }

  lemma ReadOneAt(r: Reader, z: seq<Byte>, i: nat, position: nat, c: Code) returns (r': Reader)
    requires i < 65280 && c != CLEAR && InStep(r, z, i, position)
    requires position + Width(i) <= 8 * |z| && FromBits(ByteBits(z)[position..position + Width(i)]) == c
    ensures ReadCode(r, MAX_BITS) == Got(c, r')
    ensures InStep(After(r', c, i == 0, true, MAX_BITS), z, i + 1, position + Width(i))
  {
    var r1 := ReadNext(r, z, i, position);
    StepOver(r1, z, i, position, c);
    r' := r1.(bitPos := r1.bitPos + r1.nBits);
  }

  lemma StepOver(r: Reader, z: seq<Byte>, i: nat, position: nat, c: Code)
    requires Loaded(r, z, i, position) && i < 65280 && c != CLEAR
    ensures InStep(After(r.(bitPos := r.bitPos + r.nBits), c, i == 0, true, MAX_BITS), z, i + 1, position + Width(i))
  {
    Pow2Table();
  }

  /** From being in step before code i on, the reader reads codes i to n - 1. */
  lemma {:induction false} ReadRun(r: Reader, z: seq<Byte>, codes: seq<Code>, i: nat, n: nat) returns (end: Reader)
    requires i <= n <= |codes| && Run(codes[..n])
    requires StreamBits(codes) <= ByteBits(z)
    requires InStep(r, z, i, |StreamBits(codes[..i])|)
    ensures InStep(end, z, n, |StreamBits(codes[..n])|)
    ensures ReadCodes(r, i == 0, true, MAX_BITS) == codes[i..n] + ReadCodes(end, n == 0, true, MAX_BITS)
    decreases n - i
  {
    if i == n {
      end := r;
      assert codes[i..n] == [];
    } else {
      RunElement(codes, i, n);
      var r' := ReadOne(r, z, codes, i);
      var next := After(r', codes[i], i == 0, true, MAX_BITS);
      ReadCodesStep(r, codes[i], r', i == 0);
      end := ReadRun(next, z, codes, i + 1, n);
      Uncons(codes, i, n, ReadCodes(end, n == 0, true, MAX_BITS));
    }
  }

  lemma ReadCodesStep(r: Reader, c: Code, r': Reader, first: bool)
    requires r.Valid() && ReadCode(r, MAX_BITS) == Got(c, r') && c != CLEAR
    ensures ReadCodes(r, first, true, MAX_BITS)
         == [c] + ReadCodes(After(r', c, first, true, MAX_BITS), false, true, MAX_BITS)
  {
  }

  lemma Uncons(codes: seq<Code>, i: nat, n: nat, more: seq<Code>)
    requires i < n <= |codes|
    ensures [codes[i]] + (codes[i + 1..n] + more) == codes[i..n] + more
  {
  }

  lemma RunElement(codes: seq<Code>, i: nat, n: nat)
    requires i < n <= |codes| && Run(codes[..n])
    ensures CLEAR !in codes[..i] && codes[i] < Pow2(Width(i)) && codes[i] != CLEAR && i < 65280
  {
    assert codes[..n][i] == codes[i];
    assert codes[..i] == codes[..n][..i];
  }

  lemma StartInStep(z: seq<Byte>)
    ensures InStep(InitialReader(z, true), z, 0, 0)
  {
  }

  /** Less than a byte of padding never yields a code. */
  lemma NoMoreCodes(r: Reader, z: seq<Byte>, n: nat, position: nat)
    requires InStep(r, z, n, position) && 8 * |z| < position + 8
    ensures ReadCode(r, MAX_BITS) == End
  {
    assert r.rest == [];
  }

  /** The codes of a run are read back from the bytes they were packed into. */
  lemma ReadPacked(codes: seq<Code>)
    requires Run(codes)
    ensures ReadCodes(InitialReader(Pack(StreamBits(codes)), true), true, true, MAX_BITS) == codes
  {
    var z := Pack(StreamBits(codes));
    PackedPrefix(StreamBits(codes));
    StartInStep(z);
    assert codes[..|codes|] == codes && codes[..0] == [];
    var end := ReadRun(InitialReader(z, true), z, codes, 0, |codes|);
    NoMoreCodes(end, z, |codes|, |StreamBits(codes)|);
  }

  lemma BodyOf(input: seq<Byte>)
    ensures Compressed(input)[3..] == Pack(StreamBits(Encode(input)))
    ensures var body := InitialReader(Compressed(input)[3..], true);
      Decompressed(Compressed(input)) == Decode(ReadCodes(body, true, true, MAX_BITS), true, MAX_BITS)
  {
    HeaderOf(Compressed(input), Pack(StreamBits(Encode(input))));
  }

  lemma HeaderOf(z: seq<Byte>, body: seq<Byte>)
    requires z == HEADER + body
    ensures z[3..] == body
    ensures Decompressed(z) == Decode(ReadCodes(InitialReader(body, true), true, true, MAX_BITS), true, MAX_BITS)
  {
    HeaderFirst(body);
  }

  lemma HeaderFirst(body: seq<Byte>)
    ensures var z := HEADER + body; |z| >= 3 && z[0] == 0x1f && z[1] == 0x9d && z[2] == 0x90 && z[3..] == body
  {
  }

  /** The file of a run of codes decompresses to what the codes stand for. */
  lemma PackedMeans(codes: seq<Code>)
    requires Run(codes)
    ensures Decompressed(HEADER + Pack(StreamBits(codes))) == Decode(codes, true, MAX_BITS)
  {
    ReadPacked(codes);
    HeaderOf(HEADER + Pack(StreamBits(codes)), Pack(StreamBits(codes)));
  }

  /** Decompress undoes Compress on every input whose compression emits no CLEAR. */
  lemma RoundTrip(input: seq<Byte>)
    requires CLEAR !in Encode(input)
    ensures Decompressed(Compressed(input)) == Output(input)
  {
    var codes := Encode(input);
    assert codes[..|codes|] == codes;
    EncodeRun(input, |codes|);
    PackedMeans(codes);
    DecodeEncode(input);
  }

}
