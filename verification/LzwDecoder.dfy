/** The decompressor: block buffer, prefix and suffix tables and the output stack. */
module LzwDecoder {
  import opened Bits
  import opened LzwCodes
  import opened LzwReader

  class Decoder {
    const z: seq<Byte>          // the stream behind the header
    var pos: nat                // bytes of z already read
    var out: seq<Byte>          // bytes handed to the writer
    const maxBits: nat
    const block: bool

    const prefix: array<Code>
    const suffix: array<Byte>
    var stack: seq<Byte>

    const buf: array<Byte>
    var size: nat               // bits available in buf
    var bitPos: nat
    var nBits: nat
    var free: nat
    var prevCode: Code
    var finChar: Byte

    ghost predicate Valid()
      reads this, prefix, suffix, buf
    {
      && INIT_BITS <= maxBits <= MAX_BITS
      && prefix.Length == suffix.Length == 65536
      && buf.Length == MAX_BITS && suffix != buf
      && pos <= |z|
      && size % 8 == 0 && size <= 8 * MAX_BITS
      && TheReader().Valid()
    }

    ghost function TheReader(): Reader
      requires pos <= |z| && size <= 8 * buf.Length
      reads this, buf
    {
      Reader(z[pos..], buf[..size / 8], bitPos, nBits, free)
    }

    ghost function TheTables(): Tables
      reads this, prefix, suffix
    {
      Tables(prefix[..], suffix[..], free, prevCode, finChar)
    }

    constructor (z: seq<Byte>, maxBits: nat, block: bool)
      requires INIT_BITS <= maxBits <= MAX_BITS
      ensures Valid() && fresh(prefix) && fresh(suffix) && fresh(buf)
      ensures this.maxBits == maxBits && this.block == block
      ensures TheReader() == InitialReader(z, block) && out == []
      ensures TheTables() == InitialTables(block)
    {
      this.z := z;
      this.maxBits := maxBits;
      this.block := block;
      pos, out, stack := 0, [], [];
      prefix := new Code[65536](i => 0);
      suffix := new Byte[65536](i requires 0 <= i => if i < 256 then i else 0);
      buf := new Byte[MAX_BITS](i => 0);
      size, bitPos, nBits := 0, 0, INIT_BITS;
      free := if block then FIRST else CLEAR;
      prevCode, finChar := 0, 0;
      new;
      assert prefix[..] == InitialTables(block).prefix;
      assert suffix[..] == InitialTables(block).suffix;
    }

    /** Copy the next n bytes of the stream into the buffer. */
    method ReadFull(n: nat)
      requires buf.Length == MAX_BITS && n <= MAX_BITS && pos + n <= |z|
      modifies buf
      ensures buf[..n] == z[pos..pos + n]
    {
      for i := 0 to n
        invariant buf[..i] == z[pos..pos + i]
      {
        buf[i] := z[pos + i];
      }
    }

    /** A full block, or what is left of the input. */
    method Fill()
      requires Valid()
      modifies this`pos, this`size, this`bitPos, this`nBits, buf
      ensures Valid() && TheReader() == Refill(old(TheReader()), maxBits)
    {
      if free > Pow2(nBits) - 1 && nBits < maxBits {
        nBits := nBits + 1;
      }
      var n: nat := if nBits <= |z| - pos then nBits else |z| - pos;
      ReadFull(n);
      assert z[pos..][..n] == z[pos..pos + n] && z[pos..][n..] == z[pos + n..];
      pos := pos + n;
      size := 8 * n;
      bitPos := 0;
    }

    method ReadCode() returns (c: Code, ok: bool)
      requires Valid()
      modifies this`pos, this`size, this`bitPos, this`nBits, buf
      ensures Valid()
      ensures match LzwReader.ReadCode(old(TheReader()), maxBits)
              case End => !ok
              case Got(c', r) => ok && c == c' && TheReader() == r
    {
      if bitPos >= size || free > Pow2(nBits) - 1 {
        Fill();
        if size == 0 {
          return 0, false;
        }
      }
      if bitPos + nBits > size {
        return 0, false;
      }
      c := GatherBits(bitPos, nBits);
      bitPos := bitPos + nBits;
      ok := true;
    }

    method GatherBits(at: nat, w: nat) returns (c: Code)
      requires buf.Length == MAX_BITS && size % 8 == 0 && w <= MAX_BITS && at + w <= size <= 128
      ensures c == CodeAt(buf[..size / 8], at, w)
    {
      ghost var bits := ByteBits(buf[..size / 8]);
      var n: nat := 0;
      for i := 0 to w
        invariant n == FromBits(bits[at..at + i])
      {
        FromBitsSlice(bits, at, i);
        if Bit(buf[(at + i) / 8], (at + i) % 8) {
          n := SetBit(n, i);
        }
      }
      FromBitsBound(bits[at..at + w]);
      Pow2AtMost(w);
      c := n;
    }

    /** Fill the stack with the bytes of one code's phrase, the last on the bottom.
        ok is false for a code whose prefix links go round in a circle. */
    method Unstack(c: Code) returns (last: Byte, ok: bool)
      requires Valid()
      modifies this`stack
      ensures ok ==> stack != [] && last == stack[|stack| - 1]
      ensures Phrase(TheTables(), c) == if ok then Output(Backwards(stack)) else Diverges
    {
      var cur := c;
      stack := [];
      if c >= free {
        stack := [finChar];
        cur := prevCode;
      }
      var fuel: nat := WALK_LIMIT;
      while cur >= 256
        invariant match Chain(prefix[..], suffix[..], cur, fuel)
                  case Output(s) => Phrase(TheTables(), c) == Output(s + Backwards(stack))
                  case _ => Phrase(TheTables(), c).Diverges?
        decreases fuel
      {
        if fuel == 0 {
          return 0, false;
        }
        BackwardsPush(stack, suffix[cur]);
        stack := stack + [suffix[cur]];
        cur := prefix[cur];
        fuel := fuel - 1;
      }
      last := cur;
      BackwardsPush(stack, last);
      stack := stack + [last];
      ok := true;
    }

    /** Pop the stack into the writer. */
    method WriteStack()
      modifies this`out
      ensures out == old(out) + Backwards(stack)
    {
      var i := |stack|;
      while i > 0
        invariant 0 <= i <= |stack|
        invariant out == old(out) + Backwards(stack)[..|stack| - i]
      {
        i := i - 1;
        out := out + [stack[i]];
      }
    }

    /** The first code, at the start or after a CLEAR. */
    method ReadFirst() returns (ok: bool)
      requires Valid()
      modifies this`pos, this`size, this`bitPos, this`nBits, buf, this`prevCode, this`finChar, this`out
      ensures Valid() && (ok ==> TheReader().BitsLeft() < old(TheReader().BitsLeft()))
      ensures var target := Rest(old(TheReader()), old(TheTables()), true, block, maxBits);
        if ok then Then(old(out), target) == Then(out, Rest(TheReader(), TheTables(), false, block, maxBits))
        else target == Output([]) && out == old(out)
    {
      ghost var r, t := TheReader(), TheTables();
      var c;
      c, ok := ReadCode();
      if !ok {
        RestEnd(r, t, true, block, maxBits);
        return;
      }
      RestFirst(r, t, c, TheReader(), block, maxBits);
      prevCode := c;
      finChar := c % 256;
      ThenThen(out, [finChar], Rest(TheReader(), Start(t, c), false, block, maxBits));
      out := out + [finChar];
    }

    /** An ordinary code: write its phrase, then enter the phrase before it, extended
        by this one's first byte, into the tables. */
    method Take(c: Code, ghost r: Reader) returns (ok: bool)
      requires Valid() && !(block && c == CLEAR)
      requires r.Valid() && LzwReader.ReadCode(r, maxBits) == Got(c, TheReader())
      modifies this`stack, this`finChar, this`out, this`free, this`prevCode, prefix, suffix
      ensures Valid() && TheReader().BitsLeft() == old(TheReader().BitsLeft())
      ensures var target := Rest(r, old(TheTables()), false, block, maxBits);
        if ok then Then(old(out), target) == Then(out, Rest(TheReader(), TheTables(), false, block, maxBits))
        else target == Diverges
    {
      ghost var t, r', before := TheTables(), TheReader(), out;
      var last;
      last, ok := Unstack(c);
      if !ok {
        RestDiverges(r, t, c, r', block, maxBits);
        return;
      }
      ghost var s := Backwards(stack);
      WriteStack();
      Enter(c, last);
      assert TheReader() == After(r', c, false, block, maxBits);
      RestPhrase(r, t, c, r', s, block, maxBits);
      ThenThen(before, s, Rest(TheReader(), TheTables(), false, block, maxBits));
    }

    method Enter(c: Code, last: Byte)
      requires Valid()
      modifies this`finChar, this`free, this`prevCode, prefix, suffix
      ensures Valid() && TheTables() == Learn(old(TheTables()), c, last, maxBits)
      ensures TheReader() == old(TheReader()).(free := free)
      ensures free == if old(free) < Pow2(maxBits) then old(free) + 1 else old(free)
    {
      finChar := last;
      if free < Pow2(maxBits) {
        Pow2AtMost(maxBits);
        prefix[free] := prevCode;
        suffix[free] := finChar;
        free := free + 1;
      }
      prevCode := c;
    }

    /** A CLEAR: the rest of the block is dropped. */
    method Restart(ghost r: Reader) returns (ok: bool)
      requires Valid() && block
      requires r.Valid() && LzwReader.ReadCode(r, maxBits) == Got(CLEAR, TheReader())
      modifies this`pos, this`size, this`bitPos, this`nBits, this`free, buf, this`prevCode, this`finChar, this`out
      ensures Valid() && (ok ==> TheReader().BitsLeft() <= old(TheReader().BitsLeft()))
      ensures var target := Rest(r, old(TheTables()), false, block, maxBits);
        if ok then Then(old(out), target) == Then(out, Rest(TheReader(), TheTables(), false, block, maxBits))
        else target == Output([]) && out == old(out)
    {
      RestClear(r, TheTables(), TheReader(), maxBits);
      size, bitPos, nBits, free := 0, 0, INIT_BITS, FIRST;
      ok := ReadFirst();
    }

    /** One turn of the main loop. */
    method NextCode() returns (status: Status)
      requires Valid()
      modifies this, prefix, suffix, buf
      ensures Valid()
      ensures var target := Then(old(out), Rest(old(TheReader()), old(TheTables()), false, block, maxBits));
        match status
        case Going => target == Then(out, Rest(TheReader(), TheTables(), false, block, maxBits))
                      && TheReader().BitsLeft() < old(TheReader().BitsLeft())
        case AtEnd => target == Output(out)
        case Circling => target == Diverges
    {
      ghost var r := TheReader();
      var c, ok := ReadCode();
      if !ok {
        RestEnd(r, TheTables(), false, block, maxBits);
        assert out + [] == out;
        return AtEnd;
      }
      if block && c == CLEAR {
        ok := Restart(r);
        assert out + [] == out;
        return if ok then Going else AtEnd;
      }
      ok := Take(c, r);
      return if ok then Going else Circling;
    }

    method Run() returns (res: Outcome)
      requires Valid() && out == []
      modifies this, prefix, suffix, buf
      ensures res == Rest(old(TheReader()), old(TheTables()), true, block, maxBits)
    {
      ghost var target := Rest(TheReader(), TheTables(), true, block, maxBits);
      ThenNothing(target);
      var ok := ReadFirst();
      if !ok {
        return Output([]);
      }
      while true
        invariant Valid()
        invariant target == Then(out, Rest(TheReader(), TheTables(), false, block, maxBits))
        decreases TheReader().BitsLeft()
      {
        var status := NextCode();
        match status
        case Going =>
        case AtEnd => return Output(out);
        case Circling => return Diverges;
      }
    }
  }

  datatype Status = Going | AtEnd | Circling

  lemma ThenNothing(o: Outcome)
    ensures Then([], o) == o
  {
    if o.Output? {
      assert [] + o.bytes == o.bytes;
    }
  }

  /** A stack read from its top to its bottom. */
  function Backwards(s: seq<Byte>): (r: seq<Byte>)
    ensures |r| == |s|
  {
    seq(|s|, i requires 0 <= i < |s| => s[|s| - 1 - i])
  }

  lemma BackwardsPush(s: seq<Byte>, b: Byte)
    ensures Backwards(s + [b]) == [b] + Backwards(s)
    ensures forall p: seq<Byte> :: p + [b] + Backwards(s) == p + Backwards(s + [b])
  {
    assert Backwards(s + [b]) == [b] + Backwards(s);
  }

  method Decompress(z: seq<Byte>) returns (res: Outcome)
    ensures res == Decompressed(z)
  {
    if |z| < 3 || z[0] != 0x1f || z[1] != 0x9d {
      return NotZ;
    }
    var mb := z[2] % 32;
    var block := z[2] >= 128;
    if mb < INIT_BITS || mb > MAX_BITS {
      return BadMaxBits(mb);
    }
    var d := new Decoder(z[3..], mb, block);
    res := d.Run();
  }
}
