/** The bit layer of the .Z format as a plain description: which width each code of a
    sequence has, and the bit string and bytes the sequence becomes. */
module LzwPacking {
  import opened Bits
  import opened LzwCodes

  /** The least width, from 9 to 16 bits, in which the number f fits. */
  function BitsFor(f: nat): (w: nat)
    ensures INIT_BITS <= w <= MAX_BITS
  {
    if f < 512 then 9
    else if f < 1024 then 10
    else if f < 2048 then 11
    else if f < 4096 then 12
    else if f < 8192 then 13
    else if f < 16384 then 14
    else if f < 32768 then 15
    else 16
  }

  /** The width of the code that has k codes before it since the last CLEAR. */
  function Width(k: nat): nat {
    BitsFor(256 + k)
  }

  /** How many codes follow the last CLEAR of a sequence. */
  function Since(codes: seq<Code>): nat {
    if codes == [] then 0
    else if codes[|codes| - 1] == CLEAR then 0
    else Since(codes[..|codes| - 1]) + 1
  }

  /** All codes one after the other, each in its own width, with nothing in between. */
  function StreamBits(codes: seq<Code>): seq<bool> {
    if codes == [] then []
    else
      var before := codes[..|codes| - 1];
      StreamBits(before) + ToBits(codes[|codes| - 1], Width(Since(before)))
  }

  /** Eight bits to a byte, the last byte filled up with zero bits. */
  function Pack(bits: seq<bool>): seq<Byte> {
    if bits == [] then []
    else
      var n := if |bits| < 8 then |bits| else 8;
      [PackByte(bits[..n])] + Pack(bits[n..])
  }

  function PackByte(bits: seq<bool>): Byte
    requires |bits| <= 8
  {
    FromBitsBound(bits);
    Pow2Monotone(|bits|, 8);
    Pow2Table();
    FromBits(bits)
  }

  const HEADER: seq<Byte> := [0x1f, 0x9d, 0x90]

  /** The .Z file of an input: header, then the packed code stream. */
  function Compressed(input: seq<Byte>): seq<Byte> {
    HEADER + Pack(StreamBits(Encode(input)))
  }

  // ----- packing

  lemma {:induction false} FromBitsBit(bits: seq<bool>, i: nat)
    ensures Bit(FromBits(bits), i) == (i < |bits| && bits[i])
    decreases |bits| + i
  {
    if bits == [] {
      ZeroBit(i);
    } else if i > 0 {
      FromBitsBit(bits[1..], i - 1);
    }
  }

  lemma PackByteBits(bits: seq<bool>)
    requires |bits| <= 8
    ensures ByteBits([PackByte(bits)]) == bits + Zeros(8 - |bits|)
  {
    var b := PackByte(bits);
    forall p | 0 <= p < 8 ensures ByteBits([b])[p] == (bits + Zeros(8 - |bits|))[p] {
      FromBitsBit(bits, p);
    }
  }

  /** Unpacking gives the bits back, followed by less than a byte of zeros. */
  lemma {:induction false} PackedBits(bits: seq<bool>)
    ensures ByteBits(Pack(bits)) == bits + Zeros(Padding(|bits|))
    decreases |bits|
  {
    if bits != [] {
      var n := if |bits| < 8 then |bits| else 8;
      PackByteBits(bits[..n]);
      PackedBits(bits[n..]);
      ByteBitsAppend([PackByte(bits[..n])], Pack(bits[n..]));
      PackedFront(bits, n);
    }
  }

  lemma PackedFront(bits: seq<bool>, n: nat)
    requires n == if |bits| < 8 then |bits| else 8
    requires bits != []
    ensures bits + Zeros(Padding(|bits|))
         == bits[..n] + Zeros(8 - n) + (bits[n..] + Zeros(Padding(|bits[n..]|)))
  {
    if |bits| >= 8 {
      PaddingDown(|bits|);
      assert bits == bits[..8] + bits[8..] && Zeros(0) == [];
    } else {
      assert bits[n..] == [] && Zeros(0) == [];
    }
  }

  lemma PaddingDown(n: nat)
    requires n >= 8
    ensures Padding(n) == Padding(n - 8)
  {
  }

  lemma PackedPrefix(bits: seq<bool>)
    ensures bits <= ByteBits(Pack(bits))
    ensures |bits| <= 8 * |Pack(bits)| < |bits| + 8
  {
    PackedBits(bits);
  }

  /** The converse: bytes that unpack to these bits and their padding are the packed ones. */
  lemma PackedUnique(bits: seq<bool>, bs: seq<Byte>)
    requires ByteBits(bs) == bits + Zeros(Padding(|bits|))
    ensures bs == Pack(bits)
  {
    PackedBits(bits);
    ByteBitsInjective(bs, Pack(bits));
  }

  // ----- widths

  /** The width grows by one exactly when the dictionary, which holds FIRST + k codes
      before code k is written, has outgrown the current width; and it does so only
      after a multiple of eight codes, between two blocks. */
  lemma NextWidth(k: nat)
    ensures Width(k + 1) == if FIRST + k > Pow2(Width(k)) - 1 && Width(k) < MAX_BITS then Width(k) + 1 else Width(k)
    ensures Width(k + 1) != Width(k) ==> (k + 1) % 8 == 0
  {
    Pow2Table();
  }

  lemma WidthFits(k: nat)
    requires 256 + k < 65536
    ensures 256 + k < Pow2(Width(k))
  {
    Pow2Table();
  }

  /** No narrower width of at least nine bits would do. */
  lemma WidthLeast(k: nat)
    requires 256 + k < 65536 && Width(k) > INIT_BITS
    ensures 256 + k >= Pow2(Width(k) - 1)
  {
    Pow2Table();
  }

  /** The bits that a number of codes of one width take. */
  ghost function Offset(slots: nat, w: nat): nat {
    if slots == 0 then 0 else Offset(slots - 1, w) + w
  }

  lemma OffsetIs(slot: nat, w: nat)
    requires slot <= 8
    ensures slot == 8 ==> Offset(slot, w) == 8 * w
    ensures slot < 8 ==> Offset(slot, w) + w <= 8 * w
  {
    assert Offset(1, w) == w;
    assert Offset(3, w) == 3 * w;
    assert Offset(5, w) == 5 * w;
    assert Offset(7, w) == 7 * w;
  }

  // ----- prefixes

  lemma {:induction false} SincePlain(codes: seq<Code>)
    requires CLEAR !in codes
    ensures Since(codes) == |codes|
  {
    if codes != [] {
      SincePlain(codes[..|codes| - 1]);
    }
  }

  lemma {:induction false} StreamBitsPrefix(codes: seq<Code>, i: nat)
    requires i <= |codes|
    ensures StreamBits(codes[..i]) <= StreamBits(codes)
  {
    if i < |codes| {
      StreamBitsPrefix(codes[..|codes| - 1], i);
      assert codes[..|codes| - 1][..i] == codes[..i];
    } else {
      assert codes[..i] == codes;
    }
  }

  lemma StreamBitsAppend(codes: seq<Code>, c: Code)
    ensures StreamBits(codes + [c]) == StreamBits(codes) + ToBits(c, Width(Since(codes)))
    ensures Since(codes + [c]) == if c == CLEAR then 0 else Since(codes) + 1
  {
    assert (codes + [c])[..|codes|] == codes;
  }
}
