/** The decoder's bit reader as a function: which codes it reads from a byte string.
    It depends on the codes read only through their number and the CLEARs among them. */
module LzwReader {
  import opened Bits
  import opened LzwCodes

  /** `rest` is unread input, `block` the part of the block buffer that was filled. */
  datatype Reader = Reader(rest: seq<Byte>, block: seq<Byte>, bitPos: nat, nBits: nat, free: nat) {
    predicate Valid() {
      INIT_BITS <= nBits <= MAX_BITS && |block| <= MAX_BITS && bitPos <= 8 * |block|
    }

    function BitsLeft(): nat
      requires Valid()
    {
      8 * |rest| + 8 * |block| - bitPos
    }
  }

  datatype Read = End | Got(c: Code, r: Reader)

  predicate MustRefill(r: Reader) {
    r.bitPos >= 8 * |r.block| || r.free > Pow2(r.nBits) - 1
  }

  /** The next block, read in the wider width if the dictionary has outgrown this one. */
  function Refill(r: Reader, maxBits: nat): (r': Reader)
    requires r.Valid() && INIT_BITS <= maxBits <= MAX_BITS
    ensures r'.Valid() && r'.BitsLeft() <= r.BitsLeft()
  {
    var w := if r.free > Pow2(r.nBits) - 1 && r.nBits < maxBits then r.nBits + 1 else r.nBits;
    var n := if w <= |r.rest| then w else |r.rest|;
    Reader(r.rest[n..], r.rest[..n], 0, w, r.free)
  }

  function CodeAt(block: seq<Byte>, bitPos: nat, w: nat): Code
    requires bitPos + w <= 8 * |block| && w <= MAX_BITS
  {
    var bits := ByteBits(block)[bitPos..bitPos + w];
    FromBitsBound(bits);
    Pow2AtMost(w);
    FromBits(bits)
  }

  function ReadCode(r: Reader, maxBits: nat): (res: Read)
    requires r.Valid() && INIT_BITS <= maxBits <= MAX_BITS
    ensures res.Got? ==> res.r.Valid() && res.r.BitsLeft() < r.BitsLeft() && res.r.free == r.free
  {
    var r1 := if MustRefill(r) then Refill(r, maxBits) else r;
    if r1.bitPos + r1.nBits > 8 * |r1.block| then End
    else Got(CodeAt(r1.block, r1.bitPos, r1.nBits), r1.(bitPos := r1.bitPos + r1.nBits))
  }

  /** What the main loop does to the reader after each code. */
  function After(r: Reader, c: Code, first: bool, block: bool, maxBits: nat): Reader {
    if first then r
    else if block && c == CLEAR then Reader(r.rest, [], 0, INIT_BITS, FIRST)
    else if r.free < Pow2(maxBits) then r.(free := r.free + 1)
    else r
  }

  function ReadCodes(r: Reader, first: bool, block: bool, maxBits: nat): seq<Code>
    requires r.Valid() && INIT_BITS <= maxBits <= MAX_BITS
    decreases r.BitsLeft()
  {
    match ReadCode(r, maxBits)
    case End => []
    case Got(c, r') =>
      [c] + ReadCodes(After(r', c, first, block, maxBits), !first && block && c == CLEAR, block, maxBits)
  }

  function InitialReader(body: seq<Byte>, block: bool): (r: Reader)
    ensures r.Valid()
  {
    Reader(body, [], 0, INIT_BITS, if block then FIRST else CLEAR)
  }

  // ----- one step of the main loop

  /** The output still to come from a reader and the tables. */
  function Rest(r: Reader, t: Tables, first: bool, block: bool, maxBits: nat): Outcome
    requires r.Valid() && t.Valid() && INIT_BITS <= maxBits <= MAX_BITS
  {
    Expand(t, ReadCodes(r, first, block, maxBits), first, block, maxBits)
  }

  lemma RestEnd(r: Reader, t: Tables, first: bool, block: bool, maxBits: nat)
    requires r.Valid() && t.Valid() && INIT_BITS <= maxBits <= MAX_BITS
    requires ReadCode(r, maxBits).End?
    ensures Rest(r, t, first, block, maxBits) == Output([])
  {
  }

  lemma RestFirst(r: Reader, t: Tables, c: Code, r': Reader, block: bool, maxBits: nat)
    requires r.Valid() && t.Valid() && INIT_BITS <= maxBits <= MAX_BITS
    requires ReadCode(r, maxBits) == Got(c, r')
    ensures Rest(r, t, true, block, maxBits) == Then([c % 256], Rest(r', Start(t, c), false, block, maxBits))
  {
    ExpandFirst(t, c, ReadCodes(r', false, block, maxBits), block, maxBits);
  }

  lemma RestClear(r: Reader, t: Tables, r': Reader, maxBits: nat)
    requires r.Valid() && t.Valid() && INIT_BITS <= maxBits <= MAX_BITS
    requires ReadCode(r, maxBits) == Got(CLEAR, r')
    ensures Rest(r, t, false, true, maxBits)
         == Rest(Reader(r'.rest, [], 0, INIT_BITS, FIRST), t.(free := FIRST), true, true, maxBits)
  {
    ExpandClear(t, ReadCodes(Reader(r'.rest, [], 0, INIT_BITS, FIRST), true, true, maxBits), maxBits);
  }

  lemma RestPhrase(r: Reader, t: Tables, c: Code, r': Reader, s: seq<Byte>, block: bool, maxBits: nat)
    requires r.Valid() && t.Valid() && INIT_BITS <= maxBits <= MAX_BITS
    requires ReadCode(r, maxBits) == Got(c, r') && !(block && c == CLEAR)
    requires Phrase(t, c) == Output(s)
    ensures Rest(r, t, false, block, maxBits)
         == Then(s, Rest(After(r', c, false, block, maxBits), Learn(t, c, s[0], maxBits), false, block, maxBits))
  {
    ExpandPhrase(t, c, ReadCodes(After(r', c, false, block, maxBits), false, block, maxBits), s, block, maxBits);
  }

  lemma RestDiverges(r: Reader, t: Tables, c: Code, r': Reader, block: bool, maxBits: nat)
    requires r.Valid() && t.Valid() && INIT_BITS <= maxBits <= MAX_BITS
    requires ReadCode(r, maxBits) == Got(c, r') && !(block && c == CLEAR)
    requires Phrase(t, c) == Diverges
    ensures Rest(r, t, false, block, maxBits) == Diverges
  {
  }

  /** What Decompress makes of a byte string, whatever it holds. */
  function Decompressed(z: seq<Byte>): Outcome {
    if |z| < 3 || z[0] != 0x1f || z[1] != 0x9d then NotZ
    else
      var mb := z[2] % 32;
      var block := z[2] >= 128;
      if mb < INIT_BITS || mb > MAX_BITS then BadMaxBits(mb)
      else Decode(ReadCodes(InitialReader(z[3..], block), true, block, mb), block, mb)
  }
}
