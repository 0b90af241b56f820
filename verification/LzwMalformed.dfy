/** Streams no compressor writes: which codes keep the decoder from walking through its
    table for ever. */
module LzwMalformed {
  import opened Bits
  import opened LzwCodes
  import opened LzwPacking
  import opened LzwReader
  import opened LzwRoundTrip
  import opened LzwWalk

  /** The decoder's count of codes after one more. */
  function Grown(free: nat, maxBits: nat): nat {
    if free < Pow2(maxBits) then free + 1 else free
  }

  /** A first code names an entry the decoder has; any other may also name the one that
      the decoder is about to make. */
  predicate Known(c: Code, first: bool, free: nat, maxBits: nat) {
    c < free || (!first && c == free && free < Pow2(maxBits))
  }

  predicate AllKnown(codes: seq<Code>, first: bool, free: nat, block: bool, maxBits: nat) {
    codes == [] ||
    if !first && block && codes[0] == CLEAR then AllKnown(codes[1..], true, FIRST, block, maxBits)
    else
      && Known(codes[0], first, free, maxBits)
      && AllKnown(codes[1..], false, if first then free else Grown(free, maxBits), block, maxBits)
  }

  // ----- known codes

  /** Every entry below `free` leads to a smaller code. */
  predicate Sound(t: Tables) {
    t.Valid() && 256 <= t.free <= 65536 && forall c :: 256 <= c < t.free ==> t.prefix[c] < c
  }

  lemma {:induction false} ChainEnds(t: Tables, c: Code, fuel: nat)
    requires Sound(t) && c < t.free && fuel >= c
    ensures Chain(t.prefix, t.suffix, c, fuel).Output?
    decreases c
  {
    if c >= 256 {
      ChainEnds(t, t.prefix[c], fuel - 1);
    }
  }

  lemma PhraseEnds(t: Tables, c: Code, maxBits: nat)
    requires Sound(t) && t.prev < t.free && INIT_BITS <= maxBits <= MAX_BITS
    requires Known(c, false, t.free, maxBits)
    ensures Phrase(t, c).Output?
    ensures var t' := Learn(t, c, Phrase(t, c).bytes[0], maxBits);
      Sound(t') && t'.prev < t'.free && t'.free == Grown(t.free, maxBits)
  {
    Pow2AtMost(maxBits);
    ChainEnds(t, if c < t.free then c else t.prev, WALK_LIMIT);
  }

  lemma {:induction false} KnownEnds(t: Tables, codes: seq<Code>, first: bool, block: bool, maxBits: nat)
    requires Sound(t) && (!first ==> t.prev < t.free) && INIT_BITS <= maxBits <= MAX_BITS
    requires (block ==> t.free >= FIRST) && AllKnown(codes, first, t.free, block, maxBits)
    ensures Expand(t, codes, first, block, maxBits).Output?
    decreases |codes|
  {
    if codes != [] {
      var c := codes[0];
      if first {
        KnownEnds(Start(t, c), codes[1..], false, block, maxBits);
      } else if block && c == CLEAR {
        KnownEnds(t.(free := FIRST), codes[1..], true, block, maxBits);
      } else {
        PhraseEnds(t, c, maxBits);
        KnownEnds(Learn(t, c, Phrase(t, c).bytes[0], maxBits), codes[1..], false, block, maxBits);
      }
    }
  }

  function InitialFree(block: bool): nat {
    if block then FIRST else CLEAR
  }

  /** Known codes are decoded to an end, in either mode and for each maximal width. */
  lemma KnownDecodes(codes: seq<Code>, block: bool, maxBits: nat)
    requires INIT_BITS <= maxBits <= MAX_BITS && AllKnown(codes, true, InitialFree(block), block, maxBits)
    ensures Decode(codes, block, maxBits).Output?
  {
    KnownEnds(InitialTables(block), codes, true, block, maxBits);
  }

  /** Decompressing ends whenever the codes the file holds are known. */
  lemma KnownDecompresses(z: seq<Byte>)
    requires |z| >= 3 && z[0] == 0x1f && z[1] == 0x9d && INIT_BITS <= z[2] % 32 <= MAX_BITS
    requires var block := z[2] >= 128;
      AllKnown(ReadCodes(InitialReader(z[3..], block), true, block, z[2] % 32), true, InitialFree(block), block, z[2] % 32)
    ensures Decompressed(z).Output?
  {
    var block := z[2] >= 128;
    KnownDecodes(ReadCodes(InitialReader(z[3..], block), true, block, z[2] % 32), block, z[2] % 32);
  }

  // ----- an unknown code

  /** Following k links from p leads to c, over entries the decoder has made. */
  ghost predicate Leads(t: Tables, c: Code, k: nat) {
    && t.Valid() && 256 <= t.free <= c
    && Nth(t.prefix, t.prev, k) == c
    && forall i :: 0 <= i < k ==> 256 <= Nth(t.prefix, t.prev, i) < t.free
  }

  lemma {:induction false} NthKept(prefix: seq<Code>, f: Code, x: Code, p: Code, k: nat)
    requires |prefix| == 65536 && forall i :: 0 <= i < k ==> Nth(prefix, p, i) != f
    ensures Nth(prefix[f := x], p, k) == Nth(prefix, p, k)
  {
    if k > 0 {
      NthKept(prefix, f, x, p, k - 1);
    }
  }

  /** Entering p at f puts one more link in front. */
  lemma OneMoreLink(prefix: seq<Code>, f: Code, p: Code, k: nat, i: nat)
    requires |prefix| == 65536 && i <= k && forall j :: 0 <= j < k ==> Nth(prefix, p, j) != f
    ensures Nth(prefix[f := p], f, i + 1) == Nth(prefix, p, i)
  {
    NthFromNext(prefix[f := p], f, i);
    NthKept(prefix, f, p, p, i);
  }

  lemma LearnLeads(t: Tables, c: Code, k: nat, fin: Byte, maxBits: nat)
    requires Leads(t, c, k) && t.free < c < Pow2(maxBits) && INIT_BITS <= maxBits <= MAX_BITS
    ensures Leads(Learn(t, t.free, fin, maxBits), c, k + 1)
  {
    var t' := Learn(t, t.free, fin, maxBits);
    forall i | 0 <= i <= k ensures Nth(t'.prefix, t'.prev, i + 1) == Nth(t.prefix, t.prev, i) {
      OneMoreLink(t.prefix, t.free, t.prev, k, i);
    }
    forall i | 0 <= i < k + 1 ensures 256 <= Nth(t'.prefix, t'.prev, i) < t'.free {
      if i > 0 {
        assert Nth(t'.prefix, t'.prev, i - 1 + 1) == Nth(t.prefix, t.prev, i - 1);
      }
    }
  }

  /** Entering a chain that leads to c under c itself closes it to a ring. */
  lemma LearnRing(t: Tables, c: Code, k: nat, fin: Byte, maxBits: nat)
    requires Leads(t, c, k) && t.free == c < Pow2(maxBits) && INIT_BITS <= maxBits <= MAX_BITS
    ensures var t' := Learn(t, c, fin, maxBits);
      t'.free == c + 1 && Phrase(t', c) == Diverges
  {
    var t' := Learn(t, c, fin, maxBits);
    forall i | 0 <= i <= k ensures Nth(t'.prefix, c, i + 1) == Nth(t.prefix, t.prev, i) {
      OneMoreLink(t.prefix, c, t.prev, k, i);
    }
    forall n | 0 <= n <= k + 1 ensures Nth(t'.prefix, c, n) >= 256 {
      if n > 0 {
        assert Nth(t'.prefix, c, n - 1 + 1) == Nth(t.prefix, t.prev, n - 1);
      }
    }
    forall i | 0 <= i <= WALK_LIMIT ensures Nth(t'.prefix, c, i) >= 256 {
      NeverLeaves(t'.prefix, c, 0, k + 1, i);
    }
    StaysThenDiverges(t'.prefix, t'.suffix, c, WALK_LIMIT);
  }

  /** The codes from `free` to c, and c again. */
  function Closing(free: nat, c: Code): seq<Code>
    requires free <= c
    decreases c - free
  {
    if free == c then [c, c] else [free] + Closing(free + 1, c)
  }

  lemma {:induction false} ClosingKnown(free: nat, c: Code, block: bool, maxBits: nat)
    requires 256 <= free <= c < Pow2(maxBits) && (block ==> free >= FIRST)
    ensures AllKnown(Closing(free, c), false, free, block, maxBits)
    decreases c - free
  {
    if free == c {
      assert [c, c][1..] == [c] && [c][1..] == [];
    } else {
      ClosingKnown(free + 1, c, block, maxBits);
      assert Closing(free, c)[1..] == Closing(free + 1, c);
    }
  }

  lemma {:induction false} ClosingDiverges(t: Tables, c: Code, k: nat, block: bool, maxBits: nat)
    requires Leads(t, c, k) && c < Pow2(maxBits) && INIT_BITS <= maxBits <= MAX_BITS && (block ==> t.free >= FIRST)
    ensures Expand(t, Closing(t.free, c), false, block, maxBits) == Diverges
    decreases c - t.free
  {
    if Phrase(t, t.free).Output? {
      var s := Phrase(t, t.free).bytes;
      var t' := Learn(t, t.free, s[0], maxBits);
      if t.free == c {
        LearnRing(t, c, k, s[0], maxBits);
        assert [c, c] == [c] + [c];
        ExpandPhrase(t, c, [c], s, block, maxBits);
        assert Expand(t', [c], false, block, maxBits) == Diverges;
      } else {
        LearnLeads(t, c, k, s[0], maxBits);
        ClosingDiverges(t', c, k + 1, block, maxBits);
        ExpandPhrase(t, t.free, Closing(t.free + 1, c), s, block, maxBits);
      }
    }
  }

  /** After one unknown code, codes that are all known can lead to a ring. */
  lemma UnknownDiverges(t: Tables, c: Code, first: bool, block: bool, maxBits: nat) returns (more: seq<Code>)
    requires Sound(t) && (!first ==> t.prev < t.free) && INIT_BITS <= maxBits <= MAX_BITS && c < Pow2(maxBits)
    requires (block ==> t.free >= FIRST) && !(!first && block && c == CLEAR) && !Known(c, first, t.free, maxBits)
    ensures AllKnown(more, false, if first then t.free else Grown(t.free, maxBits), block, maxBits)
    ensures Expand(t, [c] + more, first, block, maxBits) == Diverges
  {
    if first {
      var t' := Start(t, c);
      more := Closing(t.free, c);
      ClosingKnown(t.free, c, block, maxBits);
      assert Nth(t'.prefix, t'.prev, 0) == c;
      ClosingDiverges(t', c, 0, block, maxBits);
      ExpandFirst(t, c, more, block, maxBits);
    } else {
      ChainEnds(t, t.prev, WALK_LIMIT);
      var s := Phrase(t, c).bytes;
      var t' := Learn(t, c, s[0], maxBits);
      more := Closing(t'.free, c);
      ClosingKnown(t'.free, c, block, maxBits);
      assert Nth(t'.prefix, t'.prev, 0) == c;
      ClosingDiverges(t', c, 0, block, maxBits);
      ExpandPhrase(t, c, more, s, block, maxBits);
    }
  }

  // ----- exactly when

  /** Whether the decoder takes the next code as a first one, and how many codes it has. */
  function After(codes: seq<Code>, first: bool, free: nat, block: bool, maxBits: nat): (bool, nat) {
    if codes == [] then (first, free)
    else if !first && block && codes[0] == CLEAR then After(codes[1..], true, FIRST, block, maxBits)
    else After(codes[1..], false, if first then free else Grown(free, maxBits), block, maxBits)
  }

  predicate KnownAfter(codes: seq<Code>, more: seq<Code>, first: bool, free: nat, block: bool, maxBits: nat) {
    var (first', free') := After(codes, first, free, block, maxBits);
    AllKnown(more, first', free', block, maxBits)
  }

  lemma {:induction false} KnownBoth(codes: seq<Code>, n: nat, more: seq<Code>, first: bool, free: nat, block: bool, maxBits: nat)
    requires n <= |codes| && AllKnown(codes, first, free, block, maxBits)
    requires KnownAfter(codes[..n], more, first, free, block, maxBits)
    ensures AllKnown(codes[..n] + more, first, free, block, maxBits)
    decreases n
  {
    if n == 0 {
      assert codes[..0] + more == more;
    } else {
      Front(codes, n, more);
      if !first && block && codes[0] == CLEAR {
        KnownBoth(codes[1..], n - 1, more, true, FIRST, block, maxBits);
      } else {
        KnownBoth(codes[1..], n - 1, more, false, if first then free else Grown(free, maxBits), block, maxBits);
      }
    }
  }

  lemma Front(codes: seq<Code>, n: nat, more: seq<Code>)
    requires 0 < n <= |codes|
    ensures codes[..n][0] == codes[0] && codes[..n][1..] == codes[1..][..n - 1]
    ensures codes[..n] + more == [codes[0]] + (codes[1..][..n - 1] + more)
    ensures (codes[..n] + more)[0] == codes[0] && (codes[..n] + more)[1..] == codes[1..][..n - 1] + more
  {
  }

  lemma {:induction false} FirstUnknown(t: Tables, codes: seq<Code>, first: bool, block: bool, maxBits: nat)
      returns (n: nat, more: seq<Code>)
    requires Sound(t) && (!first ==> t.prev < t.free) && INIT_BITS <= maxBits <= MAX_BITS
    requires (block ==> t.free >= FIRST) && forall c :: c in codes ==> c < Pow2(maxBits)
    requires !AllKnown(codes, first, t.free, block, maxBits)
    ensures n <= |codes| && KnownAfter(codes[..n], more, first, t.free, block, maxBits)
    ensures Expand(t, codes[..n] + more, first, block, maxBits) == Diverges
    decreases |codes|
  {
    var c := codes[0];
    assert c in codes && forall d :: d in codes[1..] ==> d in codes;
    if !first && block && c == CLEAR {
      n, more := FirstUnknown(t.(free := FIRST), codes[1..], true, block, maxBits);
      n := n + 1;
      Front(codes, n, more);
    } else if !Known(c, first, t.free, maxBits) {
      more := UnknownDiverges(t, c, first, block, maxBits);
      n := 1;
      assert codes[..1] == [c] && [c][1..] == [];
    } else if first {
      n, more := FirstUnknown(Start(t, c), codes[1..], false, block, maxBits);
      n := n + 1;
      Front(codes, n, more);
    } else {
      PhraseEnds(t, c, maxBits);
      n, more := FirstUnknown(Learn(t, c, Phrase(t, c).bytes[0], maxBits), codes[1..], false, block, maxBits);
      n := n + 1;
      Front(codes, n, more);
    }
  }

  /** The exact condition: codes are all known if and only if the decoder comes to an end
      on each of their prefixes, whichever known codes follow it. */
  lemma ExactlyKnown(codes: seq<Code>, block: bool, maxBits: nat)
    requires INIT_BITS <= maxBits <= MAX_BITS && forall c :: c in codes ==> c < Pow2(maxBits)
    ensures var free := InitialFree(block);
      AllKnown(codes, true, free, block, maxBits)
      <==> forall n: nat, more: seq<Code> ::
             n <= |codes| && KnownAfter(codes[..n], more, true, free, block, maxBits)
             ==> Decode(codes[..n] + more, block, maxBits).Output?
  {
    var free := InitialFree(block);
    if AllKnown(codes, true, free, block, maxBits) {
      forall n: nat, more: seq<Code> | n <= |codes| && KnownAfter(codes[..n], more, true, free, block, maxBits)
        ensures Decode(codes[..n] + more, block, maxBits).Output?
      {
        KnownBoth(codes, n, more, true, free, block, maxBits);
        KnownDecodes(codes[..n] + more, block, maxBits);
      }
    } else {
      var n, more := FirstUnknown(InitialTables(block), codes, true, block, maxBits);
      assert Decode(codes[..n] + more, block, maxBits) == Diverges;
    }
  }

  // ----- the codes of a file

  lemma {:induction false} FitsBits(bits: seq<bool>, n: nat)
    requires |bits| <= n
    ensures FromBits(bits) < Pow2(n)
  {
    FromBitsBound(bits);
    Pow2Monotone(|bits|, n);
  }

  lemma OneCodeFits(r: Reader, maxBits: nat)
    requires r.Valid() && INIT_BITS <= maxBits <= MAX_BITS && r.nBits <= maxBits && ReadCode(r, maxBits).Got?
    ensures ReadCode(r, maxBits).c < Pow2(maxBits) && ReadCode(r, maxBits).r.nBits <= maxBits
  {
    var r1 := if MustRefill(r) then Refill(r, maxBits) else r;
    FitsBits(ByteBits(r1.block)[r1.bitPos..r1.bitPos + r1.nBits], maxBits);
  }

  lemma {:induction false} CodesFitFrom(r: Reader, first: bool, block: bool, maxBits: nat)
    requires r.Valid() && INIT_BITS <= maxBits <= MAX_BITS && r.nBits <= maxBits
    ensures forall c :: c in ReadCodes(r, first, block, maxBits) ==> c < Pow2(maxBits)
    decreases r.BitsLeft()
  {
    if ReadCode(r, maxBits).Got? {
      var c, r' := ReadCode(r, maxBits).c, ReadCode(r, maxBits).r;
      OneCodeFits(r, maxBits);
      CodesFitFrom(LzwReader.After(r', c, first, block, maxBits), !first && block && c == CLEAR, block, maxBits);
    }
  }

  /** Whatever the file, no code read from it is wider than the header allows. */
  lemma CodesFit(body: seq<Byte>, block: bool, maxBits: nat)
    requires INIT_BITS <= maxBits <= MAX_BITS
    ensures forall c :: c in ReadCodes(InitialReader(body, block), true, block, maxBits) ==> c < Pow2(maxBits)
  {
    CodesFitFrom(InitialReader(body, block), true, block, maxBits);
  }

  // ----- a file

  /** Three times the code 257, which the decoder does not have yet. */
  lemma EndlessCodes()
    ensures Decode([257, 257, 257], true, MAX_BITS) == Diverges
  {
    var t := Start(InitialTables(true), 257);
    assert Nth(t.prefix, t.prev, 0) == 257;
    Pow2Table();
    ClosingDiverges(t, 257, 0, true, MAX_BITS);
    assert Closing(257, 257) == [257, 257];
    ExpandFirst(InitialTables(true), 257, [257, 257], true, MAX_BITS);
    assert [257] + [257, 257] == [257, 257, 257];
  }

  lemma EndlessRun(codes: seq<Code>)
    requires codes == [257, 257, 257]
    ensures Run(codes)
  {
    Pow2Table();
    assert Width(0) == Width(1) == Width(2) == 9;
  }

  lemma ThreeWidths(codes: seq<Code>)
    requires |codes| == 3 && CLEAR !in codes
    ensures |StreamBits(codes)| == 27
  {
    var c1, c2 := codes[..2], codes[..1];
    assert codes == c1 + [codes[2]] && c1 == c2 + [codes[1]] && c2 == [] + [codes[0]];
    StreamBitsAppend(c1, codes[2]);
    StreamBitsAppend(c2, codes[1]);
    StreamBitsAppend([], codes[0]);
  }

  /** A file of seven bytes on which decompression never ends. */
  lemma EndlessFile() returns (z: seq<Byte>)
    ensures |z| == 7 && Decompressed(z) == Diverges
  {
    var codes: seq<Code> := [257, 257, 257];
    z := HEADER + Pack(StreamBits(codes));
    EndlessRun(codes);
    ThreeWidths(codes);
    EndlessCodes();
    PackedMeans(codes);
    PackedPrefix(StreamBits(codes));
  }
}
