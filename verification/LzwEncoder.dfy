/** The compressor: an encoder that packs each code into a block buffer as it goes. */
module LzwEncoder {
  import opened Bits
  import opened LzwCodes
  import opened LzwPacking

  /** A block has eight codes. */
  ghost function NextSlot(slot: nat): nat {
    if slot >= 7 then 0 else slot + 1
  }

  /** The bits in the buffer after one more code. */
  ghost function Left(slot: nat, offset: nat, w: nat): nat {
    if slot >= 7 then 0 else offset + w
  }

  class Encoder {
    var out: seq<Byte>          // bytes handed to the writer
    var dict: map<nat, Code>
    var nBits: nat
    var maxCode: nat
    var free: nat
    const buf: array<Byte>      // one block of eight codes
    var offset: nat             // bit offset within buf
    var nCodes: nat             // codes since the last width change
    ghost var slot: nat         // codes in buf
    ghost var used: seq<bool>   // their bits
    ghost var written: seq<bool> // every bit put so far, in out and in buf

    ghost predicate BufferHolds(bits: seq<bool>)
      reads this, buf
    {
      && buf.Length == MAX_BITS
      && |bits| <= 128
      && ByteBits(buf[..]) == bits + Zeros(128 - |bits|)
    }

    ghost predicate Valid()
      reads this, buf
    {
      && INIT_BITS <= nBits <= MAX_BITS
      && maxCode == Pow2(nBits) - 1
      && slot < 8 && offset == Offset(slot, nBits) == |used|
      && BufferHolds(used)
      && written == ByteBits(out) + used
    }

    constructor ()
      ensures Valid() && fresh(buf)
      ensures written == ByteBits(HEADER) && offset == 0 && slot == 0
      ensures Dict(dict, free) == EMPTY_DICT && nBits == INIT_BITS
    {
      out := HEADER;
      buf := new Byte[MAX_BITS](i => 0);
      offset := 0;
      slot := 0;
      used := [];
      written := ByteBits(HEADER);
      dict := map[];
      nBits := INIT_BITS;
      maxCode := Pow2(INIT_BITS) - 1;
      free := FIRST;
      nCodes := 0;
      new;
      ByteBitsZero(buf[..]);
    }

    method ResetDict()
      requires Valid() && offset == 0
      modifies this`dict, this`nBits, this`maxCode, this`free, this`nCodes, this`slot
      ensures Valid() && written == old(written)
      ensures Dict(dict, free) == EMPTY_DICT && nBits == INIT_BITS && slot == 0
    {
      dict := map[];
      nBits := INIT_BITS;
      maxCode := Pow2(INIT_BITS) - 1;
      free := FIRST;
      nCodes := 0;
      slot := 0;
    }

    method ClearBuf()
      requires buf.Length == MAX_BITS
      modifies buf, this`offset, this`slot, this`used
      ensures offset == 0 && slot == 0 && used == [] && BufferHolds([])
    {
      for i := 0 to buf.Length
        invariant forall k :: 0 <= k < i ==> buf[k] == 0
      {
        buf[i] := 0;
      }
      offset := 0;
      slot := 0;
      used := [];
      ByteBitsZero(buf[..]);
      assert [] + Zeros(128) == Zeros(128);
    }

    /** Hand the first n bytes of the buffer, which hold all of its bits, to the writer. */
    method WriteBlock(n: nat)
      requires offset == |used| && BufferHolds(used)
      requires n == (offset + 7) / 8
      modifies this`out
      ensures ByteBits(out) == old(ByteBits(out)) + used + Zeros(Padding(offset))
    {
      out := out + buf[..n];
      ByteBitsAppend(old(out), buf[..n]);
      ByteBitsSlice(buf[..], 0, n);
      assert buf[..][0..n] == buf[..n];
      assert ByteBits(buf[..n]) == used + Zeros(Padding(offset));
    }

    method FlushBlock()
      requires Valid()
      modifies this`out, buf, this`offset, this`slot, this`used, this`written, this`nCodes
      ensures Valid() && slot == 0
      ensures written == old(written) + Zeros(Padding(old(offset)))
    {
      if offset > 0 {
        WriteBlock((offset + 7) / 8);
        ClearBuf();
        written := ByteBits(out);
      } else {
        SlotZero(slot, nBits);
        assert Zeros(0) == [];
      }
      nCodes := 0;
    }

    /** Put the low nBits bits of the code into the buffer behind what is there. */
    method PutBits(c: Code)
      requires Valid()
      modifies buf
      ensures BufferHolds(used + ToBits(c, nBits))
    {
      SlotBound(slot, nBits);
      for i := 0 to nBits
        invariant BufferHolds(used + ToBits(c, i))
      {
        ghost var bits := used + ToBits(c, i);
        assert ToBits(c, i + 1) == ToBits(c, i) + [Bit(c, i)];
        if Bit(c, i) {
          var at := (offset + i) / 8;
          SetBitByteBits(buf[..], offset + i);
          ghost var before := buf[..];
          buf[at] := SetBit(buf[at], (offset + i) % 8);
          assert buf[..] == before[at := SetBit(before[at], (offset + i) % 8)];
        }
        assert ByteBits(buf[..]) == bits + [Bit(c, i)] + Zeros(128 - |bits| - 1);
        assert bits + [Bit(c, i)] == used + ToBits(c, i + 1);
      }
    }

    /** Write the buffer when it holds eight codes. */
    method WriteFull()
      requires offset == 8 * nBits == |used| && BufferHolds(used)
      requires written == ByteBits(out) + used
      modifies this`out, buf, this`offset, this`slot, this`used
      ensures offset == 0 && slot == 0 && used == [] && BufferHolds([])
      ensures written == ByteBits(out) + []
    {
      WholeBlock(nBits);
      WriteBlock(nBits);
      ClearBuf();
      assert Zeros(0) == [];
    }

    /** Put a code; a block of eight is written when it is full. */
    method PutCode(c: Code)
      requires Valid()
      modifies this`out, buf, this`offset, this`slot, this`used, this`written, this`nCodes
      ensures Valid() && slot == NextSlot(old(slot)) && offset == old(Left(slot, offset, nBits))
      ensures written == old(written) + ToBits(c, nBits)
    {
      SlotNext(slot, nBits);
      PutBits(c);
      ghost var bits := used + ToBits(c, nBits);
      offset := offset + nBits;
      nCodes := nCodes + 1;
      used := bits;
      assert ByteBits(out) + bits == written + ToBits(c, nBits);
      written := written + ToBits(c, nBits);
      if offset == 8 * nBits {
        WriteFull();
      } else {
        slot := slot + 1;
      }
    }

    /** One code. A block of eight is written when full; a CLEAR, or a dictionary that
        has outgrown the width, fills up and writes the block as it stands. */
    method Output(c: Code)
      requires Valid()
      modifies this`out, buf, this`offset, this`slot, this`used, this`written, this`nCodes, this`nBits, this`maxCode
      ensures Valid()
      ensures nBits == if c != CLEAR && old(free > maxCode && nBits < MAX_BITS) then old(nBits) + 1 else old(nBits)
      ensures slot == if c == CLEAR || nBits != old(nBits) then 0 else NextSlot(old(slot))
      ensures var put := old(written) + ToBits(c, old(nBits));
        written == if c == CLEAR || nBits != old(nBits) then put + Zeros(Padding(old(Left(slot, offset, nBits)))) else put
    {
      PutCode(c);
      if c == CLEAR {
        FlushBlock();
        return;
      }
      if free > maxCode && nBits < MAX_BITS {
        FlushBlock();
        nBits := nBits + 1;
        maxCode := Pow2(nBits) - 1;
      }
    }

    /** When the width only grows between two blocks, nothing but the code's bits is put. */
    method OutputPlain(c: Code)
      requires Valid() && c != CLEAR && (free > maxCode && nBits < MAX_BITS ==> slot == 7)
      modifies this`out, buf, this`offset, this`slot, this`used, this`written, this`nCodes, this`nBits, this`maxCode
      ensures Valid() && written == old(written) + ToBits(c, old(nBits))
      ensures nBits == if old(free > maxCode && nBits < MAX_BITS) then old(nBits) + 1 else old(nBits)
      ensures slot == if nBits != old(nBits) then 0 else NextSlot(old(slot))
    {
      ghost var put := written + ToBits(c, nBits);
      Output(c);
      NoPadding(put);
    }

    method Finish()
      requires Valid()
      modifies this`out
      ensures ByteBits(out) == old(written) + Zeros(Padding(old(offset)))
    {
      SlotBound(slot, nBits);
      if offset > 0 {
        WriteBlock((offset + 7) / 8);
      } else {
        assert Zeros(0) == [];
      }
    }
  }

  /** The encoder has put exactly these codes, each in the width the description gives
      it and without any padding between them. */
  ghost predicate HasPut(e: Encoder, codes: seq<Code>)
    reads e, e.buf
  {
    var k := Since(codes);
    && e.Valid()
    && e.nBits == Width(k)
    && e.slot == k % 8
    && e.written == ByteBits(HEADER) + StreamBits(codes)
  }

  /** A code that is not CLEAR keeps the encoder on the description: when the width
      grows the block is complete, so the flush adds nothing. */
  method Emit(e: Encoder, c: Code, ghost codes: seq<Code>)
    requires HasPut(e, codes) && e.free == FIRST + Since(codes) <= 65536
    requires c != CLEAR
    modifies e, e.buf
    ensures HasPut(e, codes + [c]) && Since(codes + [c]) == Since(codes) + 1
    ensures Dict(e.dict, e.free) == old(Dict(e.dict, e.free))
  {
    var k := Since(codes);
    StreamBitsAppend(codes, c);
    WidthStep(k);
    Rejoin(ByteBits(HEADER), StreamBits(codes), ToBits(c, e.nBits));
    e.OutputPlain(c);
  }

  method EmitClear(e: Encoder, ghost codes: seq<Code>)
    requires HasPut(e, codes) && e.free == 65536 && Since(codes) == 65280
    modifies e, e.buf
    ensures HasPut(e, codes + [CLEAR]) && Since(codes + [CLEAR]) == 0
    ensures Dict(e.dict, e.free) == EMPTY_DICT
  {
    StreamBitsAppend(codes, CLEAR);
    ghost var bits := StreamBits(codes);
    ClearPlace();
    e.Output(CLEAR);
    Rejoin(ByteBits(HEADER), bits, ToBits(CLEAR, MAX_BITS));
    e.ResetDict();
  }

  /** What is still to be encoded when the phrase `ent` has been matched up to i. */
  ghost predicate Remaining(input: seq<Byte>, codes: seq<Code>, d: Dict, ent: Code, i: nat)
  {
    && i <= |input|
    && Encode(input) == codes + EncodeFrom(d, ent, input[i..])
  }

  lemma RemainingMatch(input: seq<Byte>, codes: seq<Code>, d: Dict, ent: Code, i: nat)
    requires i < |input| && Remaining(input, codes, d, ent, i)
    requires Key(input[i], ent) in d.entries
    ensures Remaining(input, codes, d, d.entries[Key(input[i], ent)], i + 1)
  {
    assert input[i..][1..] == input[i + 1..];
  }

  /** The dictionary with a new phrase, or empty again if it was full. */
  function Grown(d: Dict, key: nat): Dict {
    if d.free < 65536 then Dict(d.entries[key := d.free], d.free + 1) else EMPTY_DICT
  }

  function Emitted(d: Dict, ent: Code): seq<Code> {
    if d.free < 65536 then [ent] else [ent, CLEAR]
  }

  lemma RemainingEmit(input: seq<Byte>, codes: seq<Code>, d: Dict, ent: Code, i: nat)
    requires i < |input| && Remaining(input, codes, d, ent, i)
    requires Key(input[i], ent) !in d.entries
    ensures Remaining(input, codes + Emitted(d, ent), Grown(d, Key(input[i], ent)), input[i], i + 1)
  {
    assert input[i..][1..] == input[i + 1..];
    var tail := EncodeFrom(Grown(d, Key(input[i], ent)), input[i], input[i + 1..]);
    assert codes + (Emitted(d, ent) + tail) == codes + Emitted(d, ent) + tail;
  }

  ghost predicate InStep(e: Encoder, codes: seq<Code>)
    reads e, e.buf
  {
    && HasPut(e, codes)
    && e.free == FIRST + Since(codes) <= 65536
    && forall key :: key in e.dict ==> e.dict[key] != CLEAR
  }

  method Enter(e: Encoder, key: nat, ghost codes: seq<Code>, ghost d: Dict)
    requires HasPut(e, codes) && d == Dict(e.dict, e.free) && d.free < 65536
    modifies e`dict, e`free
    ensures HasPut(e, codes)
    ensures Dict(e.dict, e.free) == Grown(d, key)
  {
    e.dict := e.dict[key := e.free];
    e.free := e.free + 1;
  }

  /** A phrase cannot be extended by c: emit its code, then enter the longer phrase in
      the dictionary, or clear the dictionary when it is full. */
  method EmitPhrase(e: Encoder, ent: Code, c: Byte, ghost codes: seq<Code>, ghost d: Dict)
      returns (ghost codes': seq<Code>)
    requires InStep(e, codes) && ent != CLEAR
    requires d == Dict(e.dict, e.free) && Key(c, ent) !in d.entries
    modifies e, e.buf
    ensures InStep(e, codes')
    ensures codes' == codes + Emitted(d, ent) && Dict(e.dict, e.free) == Grown(d, Key(c, ent))
  {
    codes' := codes + Emitted(d, ent);
    EmittedIs(codes, d, ent);
    Emit(e, ent, codes);
    if e.free < 65536 {
      Enter(e, Key(c, ent), codes', d);
    } else {
      EmitClear(e, codes + [ent]);
    }
  }

  lemma EmittedIs(codes: seq<Code>, d: Dict, ent: Code)
    ensures codes + Emitted(d, ent) == if d.free < 65536 then codes + [ent] else codes + [ent] + [CLEAR]
  {
  }

  /** One turn of the loop: the next byte extends the phrase, or its code is emitted. */
  method Extend(e: Encoder, input: seq<Byte>, i: nat, ent: Code, ghost codes: seq<Code>, ghost d: Dict)
      returns (ent': Code, ghost codes': seq<Code>)
    requires InStep(e, codes) && ent != CLEAR && i < |input|
    requires d == Dict(e.dict, e.free) && Remaining(input, codes, d, ent, i)
    modifies e, e.buf
    ensures InStep(e, codes') && ent' != CLEAR
    ensures Remaining(input, codes', Dict(e.dict, e.free), ent', i + 1)
  {
    var c := input[i];
    var key := Key(c, ent);
    if key in e.dict {
      RemainingMatch(input, codes, d, ent, i);
      ent', codes' := e.dict[key], codes;
    } else {
      RemainingEmit(input, codes, d, ent, i);
      codes' := EmitPhrase(e, ent, c, codes, d);
      ent' := c;
    }
  }

  method Compress(input: seq<Byte>) returns (z: seq<Byte>)
    ensures z == Compressed(input)
  {
    var e := new Encoder();
    ghost var codes: seq<Code> := [];
    if input == [] {
      e.Finish();
      Finished(input, e.out, 0);
      return e.out;
    }
    var ent: Code := input[0];
    var i := 1;
    while i < |input|
      invariant 1 <= i <= |input|
      invariant fresh(e) && fresh(e.buf)
      invariant InStep(e, codes) && ent != CLEAR
      invariant Remaining(input, codes, Dict(e.dict, e.free), ent, i)
    {
      ent, codes := Extend(e, input, i, ent, codes, Dict(e.dict, e.free));
      i := i + 1;
    }
    z := EmitLast(e, ent, codes, input);
  }

  method EmitLast(e: Encoder, ent: Code, ghost codes: seq<Code>, ghost input: seq<Byte>) returns (z: seq<Byte>)
    requires InStep(e, codes) && ent != CLEAR
    requires Remaining(input, codes, Dict(e.dict, e.free), ent, |input|)
    modifies e, e.buf
    ensures z == Compressed(input)
  {
    assert input[|input|..] == [];
    Emit(e, ent, codes);
    ghost var offset := e.offset;
    e.Finish();
    Finished(input, e.out, offset);
    return e.out;
  }

  lemma Finished(input: seq<Byte>, out: seq<Byte>, offset: nat)
    requires ByteBits(out) == ByteBits(HEADER) + StreamBits(Encode(input)) + Zeros(Padding(offset))
    ensures out == Compressed(input)
  {
    var bits := StreamBits(Encode(input));
    PackedBits(bits);
    ByteBitsAppend(HEADER, Pack(bits));
    SamePadding(|out| - |HEADER|, |bits|, Padding(offset));
    assert ByteBits(HEADER) + bits + Zeros(Padding(|bits|)) == ByteBits(HEADER) + (bits + Zeros(Padding(|bits|)));
    ByteBitsInjective(out, Compressed(input));
  }

  /** There is only one number of bits, less than eight, that completes a byte. */
  lemma SamePadding(bytes: int, n: nat, p: nat)
    requires 8 * bytes == n + p && p < 8
    ensures p == Padding(n)
  {
  }

  /** The CLEAR is the first code of a block of 16-bit codes, so the flush after it
      writes two whole bytes. */
  lemma ClearPlace()
    ensures Width(65280) == MAX_BITS && 65280 % 8 == 0 && Padding(0 + MAX_BITS) == 0
    ensures Width(0) == INIT_BITS
  {
  }

  /** The encoder's rule for the width and its place in the block, after one more code. */
  lemma WidthStep(k: nat)
    ensures var grows := FIRST + k > Pow2(Width(k)) - 1 && Width(k) < MAX_BITS;
      && Width(k + 1) == (if grows then Width(k) + 1 else Width(k))
      && (grows ==> k % 8 == 7)
      && (k + 1) % 8 == NextSlot(k % 8)
  {
    NextWidth(k);
  }

  lemma Rejoin(h: seq<bool>, bits: seq<bool>, more: seq<bool>)
    ensures h + bits + more == h + (bits + more) == h + bits + more + Zeros(0)
  {
  }

  lemma SlotBound(slot: nat, w: nat)
    requires slot < 8 && w <= MAX_BITS
    ensures Offset(slot, w) + w <= 8 * w <= 128
  {
    OffsetIs(slot, w);
  }

  lemma NoPadding(bits: seq<bool>)
    ensures bits + Zeros(Padding(0)) == bits
  {
    assert Zeros(0) == [];
  }

  lemma WholeBlock(w: nat)
    ensures Padding(8 * w) == 0 && (8 * w + 7) / 8 == w
  {
  }

  lemma SlotZero(slot: nat, w: nat)
    requires Offset(slot, w) == 0 && w > 0
    ensures slot == 0
  {
  }

  lemma SlotNext(slot: nat, w: nat)
    requires slot < 8 && 0 < w <= MAX_BITS
    ensures Offset(slot, w) + w == Offset(slot + 1, w) <= 8 * w <= 128
    ensures Offset(slot, w) + w == 8 * w <==> slot == 7
  {
    if slot < 7 {
      OffsetIs(slot + 1, w);
    } else {
      OffsetIs(8, w);
    }
  }
}
