/** Bytes and bits: numbers read least significant bit first, and bit strings
    packed into bytes the way the .Z format does it. */
module Bits {
  type Byte = b: int | 0 <= b < 256

  function Pow2(n: nat): (p: nat)
    ensures p >= 1
  {
    if n == 0 then 1 else 2 * Pow2(n - 1)
  }

  /** Bit i of n, counted from the least significant one: n & (1 << i) != 0. */
  predicate Bit(n: nat, i: nat) {
    if i == 0 then n % 2 == 1 else Bit(n / 2, i - 1)
  }

  /** n | (1 << i). */
  function SetBit(n: nat, i: nat): nat {
    if Bit(n, i) then n else n + Pow2(i)
  }

  function ToBits(n: nat, w: nat): (bits: seq<bool>)
    ensures |bits| == w
  {
    seq(w, i requires 0 <= i < w => Bit(n, i))
  }

  function FromBits(bits: seq<bool>): nat {
    if bits == [] then 0 else (if bits[0] then 1 else 0) + 2 * FromBits(bits[1..])
  }

  function Zeros(n: nat): (bits: seq<bool>)
    ensures |bits| == n
  {
    seq(n, i => false)
  }

  function ByteBits(bs: seq<Byte>): (bits: seq<bool>)
    ensures |bits| == 8 * |bs|
  {
    seq(8 * |bs|, p requires 0 <= p < 8 * |bs| => Bit(bs[p / 8], p % 8))
  }

  /** The number of zero bits that fill n bits up to a byte boundary. */
  function Padding(n: nat): nat {
    (8 - n % 8) % 8
  }

  // ----- numbers and bits

  lemma {:induction false} SetBitBits(n: nat, i: nat, j: nat)
    ensures Bit(SetBit(n, i), j) == (i == j || Bit(n, j))
    decreases i
  {
    if !Bit(n, i) {
      if i == 0 {
        assert (n + 1) / 2 == n / 2;
      } else {
        assert Pow2(i) == 2 * Pow2(i - 1);
        assert (n + Pow2(i)) / 2 == n / 2 + Pow2(i - 1);
        if j > 0 {
          SetBitBits(n / 2, i - 1, j - 1);
        }
      }
    }
  }

  lemma {:induction false} SetBitBound(n: nat, i: nat, w: nat)
    requires n < Pow2(w) && i < w
    ensures SetBit(n, i) < Pow2(w)
  {
    if !Bit(n, i) && i > 0 {
      assert (n + Pow2(i)) / 2 == n / 2 + Pow2(i - 1);
      SetBitBound(n / 2, i - 1, w - 1);
    }
  }

  lemma {:induction false} ToFromBits(n: nat, w: nat)
    requires n < Pow2(w)
    ensures FromBits(ToBits(n, w)) == n
  {
    if w > 0 {
      assert ToBits(n, w)[1..] == ToBits(n / 2, w - 1);
      ToFromBits(n / 2, w - 1);
    }
  }

  lemma {:induction false} FromBitsBound(bits: seq<bool>)
    ensures FromBits(bits) < Pow2(|bits|)
  {
    if bits != [] {
      FromBitsBound(bits[1..]);
    }
  }

  lemma {:induction false} FromBitsAppend(bits: seq<bool>, b: bool)
    ensures FromBits(bits + [b]) == FromBits(bits) + if b then Pow2(|bits|) else 0
  {
    if bits == [] {
    } else {
      assert (bits + [b])[1..] == bits[1..] + [b];
      FromBitsAppend(bits[1..], b);
    }
  }

  /** While a number is read bit by bit, the next bit is still clear, so `|=` adds it. */
  lemma {:induction false} HighBitsClear(n: nat, i: nat)
    requires n < Pow2(i)
    ensures !Bit(n, i)
  {
    if i > 0 {
      HighBitsClear(n / 2, i - 1);
    }
  }

  lemma FromBitsSlice(bits: seq<bool>, at: nat, i: nat)
    requires at + i < |bits|
    ensures var n := FromBits(bits[at..at + i]);
      FromBits(bits[at..at + i + 1]) == if bits[at + i] then SetBit(n, i) else n
  {
    var low := bits[at..at + i];
    assert bits[at..at + i + 1] == low + [bits[at + i]];
    FromBitsAppend(low, bits[at + i]);
    FromBitsBound(low);
    HighBitsClear(FromBits(low), i);
  }

  // ----- byte strings and bit strings

  lemma ByteBitsAppend(a: seq<Byte>, b: seq<Byte>)
    ensures ByteBits(a + b) == ByteBits(a) + ByteBits(b)
  {
    forall p | 0 <= p < 8 * |a + b|
      ensures ByteBits(a + b)[p] == (ByteBits(a) + ByteBits(b))[p]
    {
      if p >= 8 * |a| {
        assert (p - 8 * |a|) / 8 == p / 8 - |a| && (p - 8 * |a|) % 8 == p % 8;
      }
    }
  }

  /** bs[p >> 3] |= 1 << (p & 7) sets bit p of the string and no other. */
  lemma SetBitByteBits(bs: seq<Byte>, p: nat)
    requires p < 8 * |bs|
    ensures SetBit(bs[p / 8], p % 8) < 256
    ensures ByteBits(bs[p / 8 := SetBit(bs[p / 8], p % 8)]) == ByteBits(bs)[p := true]
  {
    Pow2Table();
    SetBitBound(bs[p / 8], p % 8, 8);
    var bs' := bs[p / 8 := SetBit(bs[p / 8], p % 8)];
    forall q | 0 <= q < 8 * |bs| ensures ByteBits(bs')[q] == ByteBits(bs)[p := true][q] {
      if q / 8 == p / 8 {
        SetBitBits(bs[p / 8], p % 8, q % 8);
      }
    }
  }

  lemma ByteBitsZero(bs: seq<Byte>)
    requires forall k :: 0 <= k < |bs| ==> bs[k] == 0
    ensures ByteBits(bs) == Zeros(8 * |bs|)
  {
    forall p | 0 <= p < 8 * |bs| ensures !ByteBits(bs)[p] {
      ZeroBit(p % 8);
    }
  }

  lemma {:induction false} ZeroBit(i: nat)
    ensures !Bit(0, i)
  {
    if i > 0 {
      ZeroBit(i - 1);
    }
  }

  lemma ByteBitsSlice(bs: seq<Byte>, i: nat, j: nat)
    requires i <= j <= |bs|
    ensures ByteBits(bs[i..j]) == ByteBits(bs)[8 * i..8 * j]
  {
    assert bs == bs[..i] + bs[i..j] + bs[j..];
    ByteBitsAppend(bs[..i] + bs[i..j], bs[j..]);
    ByteBitsAppend(bs[..i], bs[i..j]);
  }

  lemma ByteBitsInjective(a: seq<Byte>, b: seq<Byte>)
    requires ByteBits(a) == ByteBits(b)
    ensures a == b
  {
    assert |a| == |b|;
    forall k | 0 <= k < |a| ensures a[k] == b[k] {
      forall i | 0 <= i < 8 ensures Bit(a[k], i) == Bit(b[k], i) {
        var p := 8 * k + i;
        assert p / 8 == k && p % 8 == i;
        assert ByteBits(a)[p] == ByteBits(b)[p];
      }
      assert ToBits(a[k], 8) == ToBits(b[k], 8);
      Pow2Table();
      ToFromBits(a[k], 8);
      ToFromBits(b[k], 8);
    }
  }

  lemma Pow2Table()
    ensures Pow2(8) == 256 && Pow2(9) == 512 && Pow2(10) == 1024 && Pow2(11) == 2048
    ensures Pow2(12) == 4096 && Pow2(13) == 8192 && Pow2(14) == 16384 && Pow2(15) == 32768
    ensures Pow2(16) == 65536
  {
    assert Pow2(4) == 16;
    assert Pow2(8) == 256;
    assert Pow2(12) == 4096;
  }
}
