/** The newc archive writer and reader. */
module Cpio {
  import opened Sequences
  import opened Bits

  const MAGIC: seq<Byte> := [0x30, 0x37, 0x30, 0x37, 0x30, 0x31]
  const TRAILER: seq<Byte> := [0x54, 0x52, 0x41, 0x49, 0x4C, 0x45, 0x52, 0x21, 0x21, 0x21]
  const HEADER := 110
  const WORD := 0x1_0000_0000

  /** A file as it goes into an archive. */
  datatype File = File(name: seq<Byte>, mode: nat, mtime: int, data: seq<Byte>)

  /** An entry as it comes out. */
  datatype Entry = Entry(name: seq<Byte>, mode: nat, data: seq<Byte>)

  datatype Error = ShortHeader | BadMagic | ShortName | ShortNamePadding | ShortData | ShortDataPadding

  datatype Extracted = Done(entries: seq<Entry>) | Failed(error: Error, entries: seq<Entry>)

  // ----- hexadecimal fields

  function HexDigit(d: nat): Byte
    requires d < 16
  {
    if d < 10 then 0x30 + d else 0x41 + d - 10
  }

  /** The w lowest hexadecimal digits of a number. */
  function Hex(v: nat, w: nat): (s: seq<Byte>)
    ensures |s| == w
  {
    if w == 0 then [] else Hex(v / 16, w - 1) + [HexDigit(v % 16)]
  }

  predicate IsHexDigit(b: Byte) {
    0x30 <= b <= 0x39 || 0x41 <= b <= 0x46 || 0x61 <= b <= 0x66
  }

  function HexValue(b: Byte): nat
    requires IsHexDigit(b)
  {
    if b <= 0x39 then b - 0x30 else if b <= 0x46 then b - 0x41 + 10 else b - 0x61 + 10
  }

  predicate AllHex(s: seq<Byte>) {
    s == [] || (AllHex(s[..|s| - 1]) && IsHexDigit(s[|s| - 1]))
  }

  function Unhex(s: seq<Byte>): nat
    requires AllHex(s)
  {
    if s == [] then 0 else 16 * Unhex(s[..|s| - 1]) + HexValue(s[|s| - 1])
  }

  /** A header field; one that is not a hexadecimal number counts as 0. */
  function Field(s: seq<Byte>): nat {
    if AllHex(s) then Unhex(s) else 0
  }

  function Pow16(n: nat): nat {
    if n == 0 then 1 else 16 * Pow16(n - 1)
  }

  lemma {:induction false} FieldHex(v: nat, w: nat)
    requires v < Pow16(w)
    ensures Field(Hex(v, w)) == v && AllHex(Hex(v, w))
    decreases w
  {
    if w > 0 {
      FieldHex(v / 16, w - 1);
      assert Hex(v, w)[..w - 1] == Hex(v / 16, w - 1);
    }
  }

  lemma FieldWord(v: nat)
    requires v < WORD
    ensures Field(Hex(v, 8)) == v
  {
    assert Pow16(2) == 256;
    assert Pow16(4) == 256 * Pow16(2);
    assert Pow16(6) == 256 * Pow16(4);
    assert Pow16(8) == 256 * Pow16(6);
    FieldHex(v, 8);
  }

  // ----- writing

  function PadLength(n: nat): (p: nat)
    ensures p < 4 && (n + p) % 4 == 0
  {
    if n % 4 == 0 then 0 else 4 - n % 4
  }

  function Nuls(n: nat): (s: seq<Byte>)
    ensures |s| == n
  {
    seq(n, _ => 0)
  }

  /** The thirteen numbers of a header, cut to 32 bits. */
  function Fields(ino: nat, f: File): (fields: seq<nat>)
    ensures |fields| == 13 && forall v :: v in fields ==> v < WORD
  {
    [ino % WORD, f.mode % WORD, 0, 0, 1, f.mtime % WORD, |f.data| % WORD, 0, 0, 0, 0, (|f.name| + 1) % WORD, 0]
  }

  function HexFields(fields: seq<nat>): (s: seq<Byte>)
    ensures |s| == 8 * |fields|
  {
    if fields == [] then [] else HexFields(fields[..|fields| - 1]) + Hex(fields[|fields| - 1], 8)
  }

  /** The header, the name with a NUL behind it and the data, both padded. */
  function EntryBytes(ino: nat, f: File): seq<Byte> {
    MAGIC + HexFields(Fields(ino, f)) + (f.name + [0]) + Nuls(PadLength(HEADER + |f.name| + 1))
      + f.data + Nuls(PadLength(|f.data|))
  }

  function TrailerFile(): File {
    File(TRAILER, 0, 0, [])
  }

  /** An archive: the entries with inode numbers from ino on, and the trailer. */
  function Archive(files: seq<File>, ino: nat): seq<Byte> {
    if files == [] then EntryBytes(ino, TrailerFile()) else EntryBytes(ino, files[0]) + Archive(files[1..], ino + 1)
  }

  class Writer {
    var out: seq<Byte>

    constructor ()
      ensures out == []
    {
      out := [];
    }

    method Pad(n: nat)
      modifies this
      ensures out == old(out) + Nuls(PadLength(n))
    {
      var r := n % 4;
      if r != 0 {
        out := out + Nuls(4 - r);
      } else {
        assert out + Nuls(0) == out;
      }
    }

    static method HeaderBytes(fields: seq<nat>) returns (b: seq<Byte>)
      ensures b == MAGIC + HexFields(fields)
    {
      b := MAGIC;
      for k := 0 to |fields|
        invariant b == MAGIC + HexFields(fields[..k])
      {
        assert fields[..k + 1][..k] == fields[..k];
        Reassociate(MAGIC, HexFields(fields[..k]), Hex(fields[k], 8));
        b := b + Hex(fields[k], 8);
      }
      assert fields[..|fields|] == fields;
    }

    method WriteEntry(ino: nat, f: File)
      modifies this
      ensures out == old(out) + EntryBytes(ino, f)
    {
      var nameBytes := f.name + [0];
      var b := HeaderBytes(Fields(ino, f));
      out := out + b;
      out := out + nameBytes;
      Pad(HEADER + |nameBytes|);
      out := out + f.data;
      Pad(|f.data|);
      Together(old(out), b, nameBytes, Nuls(PadLength(HEADER + |nameBytes|)), f.data, Nuls(PadLength(|f.data|)));
    }

    method CopyOut(files: seq<File>)
      modifies this
      ensures out == old(out) + Archive(files, 1)
    {
      var ino := 1;
      for k := 0 to |files|
        invariant ino == k + 1
        invariant old(out) + Archive(files, 1) == out + Archive(files[k..], ino)
      {
        assert files[k..][1..] == files[k + 1..];
        ghost var was := out;
        WriteEntry(ino, files[k]);
        Reassociate(was, EntryBytes(ino, files[k]), Archive(files[k + 1..], ino + 1));
        ino := ino + 1;
      }
      WriteEntry(ino, TrailerFile());
    }
  }

  lemma Together(o: seq<Byte>, b: seq<Byte>, n: seq<Byte>, p: seq<Byte>, d: seq<Byte>, q: seq<Byte>)
    ensures o + b + n + p + d + q == o + (b + n + p + d + q)
  {
  }

  // ----- reading

  function TrimNuls(s: seq<Byte>): (t: seq<Byte>)
    ensures t <= s && (t == s || s[|t|] == 0)
  {
    if s != [] && s[|s| - 1] == 0 then TrimNuls(s[..|s| - 1]) else s
  }

  datatype Step = End | Trailer | Next(entry: Entry, rest: seq<Byte>) | Bad(error: Error)

  /** One turn of the reading loop. */
  function ReadEntry(s: seq<Byte>): (r: Step)
    ensures r.Next? ==> |r.rest| < |s|
  {
    if s == [] then End
    else if |s| < HEADER then Bad(ShortHeader)
    else if s[..6] != MAGIC then Bad(BadMagic)
    else
      NameAt(s, Field(s[94..102]), Field(s[54..62]), Field(s[14..22]))
  }

  /** What follows a header: the name with its padding, and data unless it is the last. */
  function NameAt(s: seq<Byte>, nameSize: nat, fileSize: nat, mode: nat): (r: Step)
    requires |s| >= HEADER
    ensures r.Next? ==> |r.rest| < |s|
  {
    if |s| < HEADER + nameSize then Bad(ShortName)
    else
      var name := TrimNuls(s[HEADER..HEADER + nameSize]);
      var at := HEADER + nameSize + PadLength(HEADER + nameSize);
      if |s| < at then Bad(ShortNamePadding)
      else if name == TRAILER then Trailer
      else DataAt(s, at, name, mode, fileSize)
  }

  function Extract(s: seq<Byte>): Extracted
    decreases |s|
  {
    match ReadEntry(s)
    case End => Done([])
    case Trailer => Done([])
    case Bad(e) => Failed(e, [])
    case Next(entry, rest) => Prepend([entry], Extract(rest))
  }

  function Prepend(entries: seq<Entry>, e: Extracted): Extracted {
    e.(entries := entries + e.entries)
  }

  lemma PrependTwice(xs: seq<Entry>, ys: seq<Entry>, e: Extracted)
    ensures Prepend(xs, Prepend(ys, e)) == Prepend(xs + ys, e)
  {
    assert xs + (ys + e.entries) == xs + ys + e.entries;
  }

  method CopyIn(input: seq<Byte>) returns (result: Extracted)
    ensures result == Extract(input)
  {
    var entries := [];
    var pos := 0;
    while true
      invariant pos <= |input|
      invariant Extract(input) == Prepend(entries, Extract(input[pos..]))
      decreases |input| - pos
    {
      assert entries + [] == entries;
      if pos == |input| {
        return Done(entries);
      }
      var step := ReadNext(input, pos);
      match step
      case Bad(e) => return Failed(e, entries);
      case Next(entry, rest) =>
        PrependTwice(entries, [entry], Extract(rest));
        entries := entries + [entry];
        pos := |input| - |rest|;
        assert input[pos..] == rest;
      case _ => return Done(entries);
    }
  }

  /** The header, name and data at a position. */
  method ReadNext(input: seq<Byte>, pos: nat) returns (r: Step)
    requires pos < |input|
    ensures r == ReadEntry(input[pos..])
    ensures r.Next? ==> |r.rest| < |input| - pos && input[|input| - |r.rest|..] == r.rest
  {
    if pos + HEADER > |input| {
      return Bad(ShortHeader);
    }
    var hdr := input[pos..pos + HEADER];
    HeaderFields(input, pos);
    if hdr[..6] != MAGIC {
      return Bad(BadMagic);
    }
    r := ReadName(input, pos, Field(hdr[94..102]), Field(hdr[54..62]), Field(hdr[14..22]));
  }

  method ReadName(input: seq<Byte>, pos: nat, nameSize: nat, fileSize: nat, mode: nat) returns (r: Step)
    requires pos + HEADER <= |input|
    ensures r == NameAt(input[pos..], nameSize, fileSize, mode)
    ensures r.Next? ==> |r.rest| < |input| - pos && input[|input| - |r.rest|..] == r.rest
  {
    var at := pos + HEADER;
    if at + nameSize > |input| {
      return Bad(ShortName);
    }
    var name := TrimNuls(input[at..at + nameSize]);
    Within(input, pos, HEADER, HEADER + nameSize);
    at := at + nameSize + PadLength(HEADER + nameSize);
    if at > |input| {
      return Bad(ShortNamePadding);
    }
    if name == TRAILER {
      return Trailer;
    }
    r := ReadData(input, pos, at - pos, name, mode, fileSize);
  }

  /** What follows a name: data and padding. */
  function DataAt(s: seq<Byte>, at: nat, name: seq<Byte>, mode: nat, fileSize: nat): (r: Step)
    requires 0 < at <= |s|
    ensures r.Next? ==> |r.rest| < |s|
  {
    if |s| < at + fileSize then Bad(ShortData)
    else if |s| < at + fileSize + PadLength(fileSize) then Bad(ShortDataPadding)
    else Next(Entry(name, mode, s[at..at + fileSize]), s[at + fileSize + PadLength(fileSize)..])
  }

  method ReadData(input: seq<Byte>, pos: nat, at: nat, name: seq<Byte>, mode: nat, fileSize: nat) returns (r: Step)
    requires pos <= |input| && 0 < at <= |input| - pos
    ensures r == DataAt(input[pos..], at, name, mode, fileSize)
    ensures r.Next? ==> |r.rest| < |input| - pos && input[|input| - |r.rest|..] == r.rest
  {
    var lo := pos + at;
    if lo + fileSize > |input| {
      return Bad(ShortData);
    }
    var data := input[lo..lo + fileSize];
    Within(input, pos, at, at + fileSize);
    var hi := lo + fileSize + PadLength(fileSize);
    if hi > |input| {
      return Bad(ShortDataPadding);
    }
    Behind(input, pos, hi - pos);
    return Next(Entry(name, mode, data), input[hi..]);
  }

  lemma Within(s: seq<Byte>, pos: nat, lo: nat, hi: nat)
    requires pos <= |s| && lo <= hi <= |s| - pos
    ensures s[pos..][lo..hi] == s[pos + lo..pos + hi]
  {
  }

  lemma Behind(s: seq<Byte>, pos: nat, lo: nat)
    requires pos <= |s| && lo <= |s| - pos
    ensures s[pos..][lo..] == s[pos + lo..]
  {
  }

  lemma HeaderFields(s: seq<Byte>, pos: nat)
    requires pos + HEADER <= |s|
    ensures var hdr := s[pos..pos + HEADER];
      && s[pos..][..6] == hdr[..6] && s[pos..][94..102] == hdr[94..102]
      && s[pos..][54..62] == hdr[54..62] && s[pos..][14..22] == hdr[14..22]
  {
    InHeader(s, pos, 0, 6);
    InHeader(s, pos, 94, 102);
    InHeader(s, pos, 54, 62);
    InHeader(s, pos, 14, 22);
    assert s[pos..][..6] == s[pos..][0..6] && s[pos..pos + HEADER][..6] == s[pos..pos + HEADER][0..6];
  }

  lemma InHeader(s: seq<Byte>, pos: nat, lo: nat, hi: nat)
    requires pos + HEADER <= |s| && lo <= hi <= HEADER
    ensures s[pos..][lo..hi] == s[pos..pos + HEADER][lo..hi]
  {
    var x, y := s[pos..][lo..hi], s[pos..pos + HEADER][lo..hi];
    assert forall k :: 0 <= k < hi - lo ==> x[k] == s[pos + lo + k] == y[k];
  }

  // ----- there and back

  /** Names and data whose lengths a header can hold. */
  predicate Fits(f: File) {
    |f.name| + 1 < WORD && |f.data| < WORD
  }

  predicate AllFit(files: seq<File>) {
    files == [] || (Fits(files[0]) && AllFit(files[1..]))
  }

  function EntryOf(f: File): Entry {
    Entry(f.name, f.mode % WORD, f.data)
  }

  function Entries(files: seq<File>): seq<Entry> {
    if files == [] then [] else [EntryOf(files[0])] + Entries(files[1..])
  }

  /** The name does not end in a NUL and is not the trailer's. */
  predicate KeepsName(f: File) {
    (f.name != [] ==> f.name[|f.name| - 1] != 0) && f.name != TRAILER
  }

  predicate AllKeepNames(files: seq<File>) {
    files == [] || (KeepsName(files[0]) && AllKeepNames(files[1..]))
  }

  lemma {:induction false} FieldAt(fields: seq<nat>, k: nat)
    requires k < |fields|
    ensures HexFields(fields)[8 * k..8 * k + 8] == Hex(fields[k], 8)
    decreases |fields|
  {
    var most := fields[..|fields| - 1];
    if k < |most| {
      FieldAt(most, k);
      assert HexFields(fields)[8 * k..8 * k + 8] == HexFields(most)[8 * k..8 * k + 8];
    }
  }

  /** The number in the k-th field of a header. */
  function FieldOf(bytes: seq<Byte>, k: nat): nat
    requires 6 + 8 * k + 8 <= |bytes|
  {
    Field(bytes[6 + 8 * k..6 + 8 * k + 8])
  }

  lemma FieldSlice(m: seq<Byte>, digits: seq<Byte>, more: seq<Byte>, i: nat, h: seq<Byte>, at: nat)
    requires i + 8 <= |digits| && digits[i..i + 8] == h && at == |m| + i
    ensures at + 8 <= |m + digits + more| && (m + digits + more)[at..at + 8] == h
  {
    InTheMiddle(m, digits, more, i);
  }

  lemma FieldIs(bytes: seq<Byte>, k: nat, h: seq<Byte>, v: nat)
    requires 6 + 8 * k + 8 <= |bytes| && bytes[6 + 8 * k..6 + 8 * k + 8] == h && Field(h) == v
    ensures FieldOf(bytes, k) == v
  {
  }

  lemma FieldReads(fields: seq<nat>, more: seq<Byte>, k: nat, v: nat)
    requires k < |fields| && v == fields[k] < WORD
    ensures FieldOf(MAGIC + HexFields(fields) + more, k) == v
  {
    FieldAt(fields, k);
    FieldSlice(MAGIC, HexFields(fields), more, 8 * k, Hex(v, 8), 6 + 8 * k);
    FieldWord(v);
    FieldIs(MAGIC + HexFields(fields) + more, k, Hex(v, 8), v);
  }

  lemma InTheMiddle(m: seq<Byte>, digits: seq<Byte>, more: seq<Byte>, i: nat)
    requires i + 8 <= |digits|
    ensures (m + digits + more)[|m| + i..|m| + i + 8] == digits[i..i + 8]
  {
    var x, y := (m + digits + more)[|m| + i..|m| + i + 8], digits[i..i + 8];
    assert forall n :: 0 <= n < 8 ==> x[n] == digits[i + n] == y[n];
  }

  /** The fields of an entry in their order: inode, mode, owner and group 0, one link, time
      stamp, size of the data, no device numbers, size of the name with its NUL, and a check
      sum of 0. */
  predicate HasFields(bytes: seq<Byte>, ino: nat, f: File) {
    && |bytes| >= HEADER
    && FieldOf(bytes, 0) == ino % WORD && FieldOf(bytes, 1) == f.mode % WORD
    && FieldOf(bytes, 2) == FieldOf(bytes, 3) == 0 && FieldOf(bytes, 4) == 1
    && FieldOf(bytes, 5) == f.mtime % WORD && FieldOf(bytes, 6) == |f.data|
    && FieldOf(bytes, 7) == FieldOf(bytes, 8) == FieldOf(bytes, 9) == FieldOf(bytes, 10) == 0
    && FieldOf(bytes, 11) == |f.name| + 1 && FieldOf(bytes, 12) == 0
  }

  lemma FieldsOf(ino: nat, f: File)
    requires Fits(f)
    ensures HasFields(EntryBytes(ino, f), ino, f)
  {
    FieldsRead(ino, f);
    Kept(|f.name| + 1);
    Kept(|f.data|);
    FieldsMean(EntryBytes(ino, f), ino, f, Fields(ino, f));
  }

  predicate ReadAs(bytes: seq<Byte>, fields: seq<nat>) {
    |bytes| >= HEADER && |fields| == 13 && forall k :: 0 <= k < 13 ==> FieldOf(bytes, k) == fields[k]
  }

  lemma FieldsRead(ino: nat, f: File)
    ensures ReadAs(EntryBytes(ino, f), Fields(ino, f))
  {
    var fields, bytes := Fields(ino, f), EntryBytes(ino, f);
    var more := (f.name + [0]) + Nuls(PadLength(HEADER + |f.name| + 1)) + f.data + Nuls(PadLength(|f.data|));
    HeaderApart(MAGIC + HexFields(fields), f.name + [0], Nuls(PadLength(HEADER + |f.name| + 1)), f.data, Nuls(PadLength(|f.data|)));
    forall k | 0 <= k < 13 ensures FieldOf(bytes, k) == fields[k] {
      assert fields[k] in fields;
      FieldReads(fields, more, k, fields[k]);
    }
  }

  lemma FieldsMean(bytes: seq<Byte>, ino: nat, f: File, fields: seq<nat>)
    requires fields == [ino % WORD, f.mode % WORD, 0, 0, 1, f.mtime % WORD, |f.data|, 0, 0, 0, 0, |f.name| + 1, 0]
    requires ReadAs(bytes, fields)
    ensures HasFields(bytes, ino, f)
  {
  }

  lemma HeaderApart(h: seq<Byte>, n: seq<Byte>, p: seq<Byte>, d: seq<Byte>, q: seq<Byte>)
    ensures h + n + p + d + q == h + (n + p + d + q)
  {
  }

  /** What a header says, whatever stands behind it. */
  predicate IsHeader(h: seq<Byte>, nameSize: nat, fileSize: nat, mode: nat) {
    && |h| == HEADER && h[..6] == MAGIC
    && Field(h[94..102]) == nameSize && Field(h[54..62]) == fileSize && Field(h[14..22]) == mode
  }

  lemma HeaderOf(fields: seq<nat>)
    requires |fields| == 13 && fields[11] < WORD && fields[6] < WORD && fields[1] < WORD
    ensures IsHeader(MAGIC + HexFields(fields), fields[11], fields[6], fields[1])
  {
    var digits := HexFields(fields);
    HeaderSlices(digits);
    FieldAt(fields, 11);
    FieldAt(fields, 6);
    FieldAt(fields, 1);
    FieldWord(fields[11]);
    FieldWord(fields[6]);
    FieldWord(fields[1]);
  }

  lemma HeaderSays(ino: nat, f: File)
    requires Fits(f)
    ensures IsHeader(MAGIC + HexFields(Fields(ino, f)), |f.name| + 1, |f.data|, f.mode % WORD)
  {
    Kept(|f.name| + 1);
    Kept(|f.data|);
    HeaderOf(Fields(ino, f));
  }

  lemma Kept(n: nat)
    requires n < WORD
    ensures n % WORD == n
  {
  }

  lemma HeaderSlices(digits: seq<Byte>)
    requires |digits| == HEADER - 6
    ensures var h := MAGIC + digits;
      h[..6] == MAGIC && h[94..102] == digits[88..96] && h[54..62] == digits[48..56] && h[14..22] == digits[8..16]
  {
  }

  lemma HeaderInFront(h: seq<Byte>, more: seq<Byte>, nameSize: nat, fileSize: nat, mode: nat)
    requires IsHeader(h, nameSize, fileSize, mode)
    ensures var s := h + more;
      && s[..6] == MAGIC && s[HEADER..] == more
      && Field(s[94..102]) == nameSize && Field(s[54..62]) == fileSize && Field(s[14..22]) == mode
  {
    var s := h + more;
    assert s[..6] == h[..6] && s[94..102] == h[94..102] && s[54..62] == h[54..62] && s[14..22] == h[14..22];
  }

  lemma BodyParts(s: seq<Byte>, name: seq<Byte>, p: seq<Byte>, d: seq<Byte>, q: seq<Byte>, rest: seq<Byte>)
    requires |s| >= HEADER && s[HEADER..] == name + p + d + q + rest
    ensures |s| == HEADER + |name| + |p| + |d| + |q| + |rest|
    ensures s[HEADER..HEADER + |name|] == name
    ensures var at := HEADER + |name| + |p|;
      s[at..at + |d|] == d && s[at + |d| + |q|..] == rest
  {
    var t := name + p + d + q + rest;
    assert s[HEADER..][..|name|] == t[..|name|] == name;
    assert s[HEADER..][|name| + |p|..|name| + |p| + |d|] == t[|name| + |p|..|name| + |p| + |d|] == d;
    assert s[HEADER..][|name| + |p| + |d| + |q|..] == t[|name| + |p| + |d| + |q|..] == rest;
  }

  lemma SixParts(h: seq<Byte>, n: seq<Byte>, p: seq<Byte>, d: seq<Byte>, q: seq<Byte>, rest: seq<Byte>)
    ensures (h + n + p + d + q) + rest == h + (n + p + d + q + rest)
  {
  }

  lemma ReadParts(s: seq<Byte>, name: seq<Byte>, mode: nat, p: seq<Byte>, d: seq<Byte>, q: seq<Byte>, rest: seq<Byte>)
    requires |s| >= HEADER && s[..6] == MAGIC && s[HEADER..] == name + p + d + q + rest
    requires Field(s[94..102]) == |name| && Field(s[54..62]) == |d| && Field(s[14..22]) == mode
    requires |p| == PadLength(HEADER + |name|) && |q| == PadLength(|d|)
    ensures ReadEntry(s) == if TrimNuls(name) == TRAILER then Trailer else Next(Entry(TrimNuls(name), mode, d), rest)
  {
    BodyParts(s, name, p, d, q, rest);
  }

  lemma ReadWhole(h: seq<Byte>, name: seq<Byte>, mode: nat, p: seq<Byte>, d: seq<Byte>, q: seq<Byte>, rest: seq<Byte>)
    requires IsHeader(h, |name|, |d|, mode)
    requires |p| == PadLength(HEADER + |name|) && |q| == PadLength(|d|)
    ensures ReadEntry((h + name + p + d + q) + rest)
         == if TrimNuls(name) == TRAILER then Trailer else Next(Entry(TrimNuls(name), mode, d), rest)
  {
    var more := name + p + d + q + rest;
    SixParts(h, name, p, d, q, rest);
    HeaderInFront(h, more, |name|, |d|, mode);
    ReadParts(h + more, name, mode, p, d, q, rest);
  }

  /** Reading what was written: the name without trailing NULs. */
  lemma ReadBack(ino: nat, f: File, rest: seq<Byte>)
    requires Fits(f)
    ensures ReadEntry(EntryBytes(ino, f) + rest)
         == if TrimNuls(f.name) == TRAILER then Trailer
            else Next(Entry(TrimNuls(f.name), f.mode % WORD, f.data), rest)
  {
    var name := f.name + [0];
    HeaderSays(ino, f);
    ReadWhole(MAGIC + HexFields(Fields(ino, f)), name, f.mode % WORD,
              Nuls(PadLength(HEADER + |name|)), f.data, Nuls(PadLength(|f.data|)), rest);
    TrimName(f.name);
  }

  /** Reading an archive starts with its first file, or stops at the trailer. */
  lemma ArchiveFront(files: seq<File>, ino: nat)
    requires AllFit(files)
    ensures ReadEntry(Archive(files, ino))
         == if files == [] || TrimNuls(files[0].name) == TRAILER then Trailer
            else Next(Entry(TrimNuls(files[0].name), files[0].mode % WORD, files[0].data), Archive(files[1..], ino + 1))
  {
    if files == [] {
      var e := EntryBytes(ino, TrailerFile());
      ReadBack(ino, TrailerFile(), []);
      assert e + [] == e;
    } else {
      ReadBack(ino, files[0], Archive(files[1..], ino + 1));
    }
  }

  lemma TrimName(name: seq<Byte>)
    ensures TrimNuls(name + [0]) == TrimNuls(name)
    ensures TrimNuls(name) == name <==> name == [] || name[|name| - 1] != 0
  {
    assert (name + [0])[..|name|] == name;
  }

  /** What comes out is what went in. */
  predicate GivesBack(e: Extracted, files: seq<File>) {
    e.Done? && (e.entries == Entries(files) <==> AllKeepNames(files))
  }

  lemma ExtractStep(files: seq<File>, ino: nat)
    requires AllFit(files) && files != []
    ensures Extract(Archive(files, ino))
         == if TrimNuls(files[0].name) == TRAILER then Done([])
            else Prepend([Entry(TrimNuls(files[0].name), files[0].mode % WORD, files[0].data)],
                         Extract(Archive(files[1..], ino + 1)))
  {
    ArchiveFront(files, ino);
  }

  lemma StepGivesBack(files: seq<File>, more: Extracted)
    requires files != [] && GivesBack(more, files[1..])
    ensures var f := files[0];
      if TrimNuls(f.name) == TRAILER then GivesBack(Done([]), files)
      else GivesBack(Prepend([Entry(TrimNuls(f.name), f.mode % WORD, f.data)], more), files)
  {
    var f := files[0];
    TrimName(f.name);
    if TrimNuls(f.name) != TRAILER {
      HeadAndTail(Entry(TrimNuls(f.name), f.mode % WORD, f.data), more.entries, EntryOf(f), Entries(files[1..]));
    }
  }

  lemma {:induction false} ExtractArchive(files: seq<File>, ino: nat)
    requires AllFit(files)
    ensures GivesBack(Extract(Archive(files, ino)), files)
    decreases |files|
  {
    if files == [] {
      ArchiveFront(files, ino);
    } else {
      ExtractArchive(files[1..], ino + 1);
      ExtractStep(files, ino);
      StepGivesBack(files, Extract(Archive(files[1..], ino + 1)));
    }
  }

  lemma HeadAndTail(x: Entry, xs: seq<Entry>, y: Entry, ys: seq<Entry>)
    ensures [x] + xs == [y] + ys <==> x == y && xs == ys
  {
    assert ([x] + xs)[0] == x && ([y] + ys)[0] == y && ([x] + xs)[1..] == xs && ([y] + ys)[1..] == ys;
  }

  /** Copying out and in again gives every file back, with its name, mode and data, and in
      order, if and only if no name ends in a NUL or is the trailer's name. */
  lemma RoundTrip(files: seq<File>)
    requires AllFit(files)
    ensures Extract(Archive(files, 1)) == Done(Entries(files)) <==> AllKeepNames(files)
  {
    ExtractArchive(files, 1);
  }

  /** A file with the trailer's name hides all files behind it; a NUL at the end of a name
      is lost. */
  lemma NamesLost(mode: nat, data: seq<Byte>, more: seq<File>)
    requires |data| < WORD && AllFit(more)
    ensures Extract(Archive([File(TRAILER, mode, 0, data)] + more, 1)) == Done([])
    ensures Extract(Archive([File([0x61, 0], mode, 0, data)], 1)) == Done([Entry([0x61], mode % WORD, data)])
  {
    var files := [File(TRAILER, mode, 0, data)] + more;
    assert files[1..] == more;
    TrimName(TRAILER);
    ExtractStep(files, 1);
    var single := [File([0x61, 0], mode, 0, data)];
    assert single[1..] == [];
    TrimName([0x61]);
    assert [0x61] + [0] == [0x61, 0];
    ExtractStep(single, 1);
    ArchiveFront([], 2);
  }

  // ----- archives cut short

  /** An entry cut short is an error, unless nothing of it is left. */
  lemma ShortEntry(ino: nat, f: File, n: nat)
    requires Fits(f) && n < |EntryBytes(ino, f)|
    ensures var r := ReadEntry(EntryBytes(ino, f)[..n]);
      r.Bad? || (n == 0 && r.End?) || (TrimNuls(f.name) == TRAILER && r.Trailer?)
  {
    var bytes := EntryBytes(ino, f);
    var s := bytes[..n];
    if n >= HEADER {
      HeaderSays(ino, f);
      HeaderKept(ino, f, n);
      var name := f.name + [0];
      EntryLength(ino, f);
      assert s[HEADER..] == bytes[HEADER..n];
      if n >= HEADER + |name| {
        NameKept(ino, f, n);
        TrimName(f.name);
      }
    }
  }

  lemma EntryLength(ino: nat, f: File)
    ensures |EntryBytes(ino, f)|
         == HEADER + (|f.name| + 1) + PadLength(HEADER + |f.name| + 1) + |f.data| + PadLength(|f.data|)
  {
  }

  lemma HeaderKept(ino: nat, f: File, n: nat)
    requires Fits(f) && HEADER <= n <= |EntryBytes(ino, f)|
    ensures var s := EntryBytes(ino, f)[..n];
      s[..6] == MAGIC && Field(s[94..102]) == |f.name| + 1 && Field(s[54..62]) == |f.data|
  {
    var h := MAGIC + HexFields(Fields(ino, f));
    HeaderSays(ino, f);
    var bytes := EntryBytes(ino, f);
    assert bytes[..HEADER] == h;
    var s := bytes[..n];
    assert s[..6] == h[..6] && s[94..102] == h[94..102] && s[54..62] == h[54..62];
  }

  lemma NameKept(ino: nat, f: File, n: nat)
    requires Fits(f) && HEADER + |f.name| + 1 <= n <= |EntryBytes(ino, f)|
    ensures EntryBytes(ino, f)[..n][HEADER..HEADER + (|f.name| + 1)] == f.name + [0]
  {
    var bytes, m := EntryBytes(ino, f), |f.name| + 1;
    var h := MAGIC + HexFields(Fields(ino, f));
    assert bytes[HEADER..HEADER + m] == f.name + [0];
    assert bytes[..n][HEADER..HEADER + m] == bytes[HEADER..HEADER + m];
  }

  lemma NothingExtracted(s: seq<Byte>)
    requires !ReadEntry(s).Next?
    ensures Extract(s).entries == []
  {
  }

  lemma PrependKeeps(x: seq<Entry>, a: Extracted, b: Extracted)
    requires a.entries <= b.entries
    ensures Prepend(x, a).entries <= Prepend(x, b).entries
  {
  }

  lemma CutBehind(e: seq<Byte>, rest: seq<Byte>, n: nat)
    requires |e| <= n <= |e + rest|
    ensures (e + rest)[..n] == e + rest[..n - |e|]
  {
  }

  lemma CutWithin(e: seq<Byte>, rest: seq<Byte>, n: nat)
    requires n <= |e|
    ensures (e + rest)[..n] == e[..n]
  {
  }

  lemma ExtractNext(s: seq<Byte>, e: Entry, rest: seq<Byte>)
    requires ReadEntry(s) == Next(e, rest)
    ensures Extract(s) == Prepend([e], Extract(rest))
  {
  }

  /** From an archive that was cut short come the first of its entries, as they are. */
  lemma {:induction false} Truncated(files: seq<File>, ino: nat, n: nat)
    requires AllFit(files) && n <= |Archive(files, ino)|
    ensures Extract(Archive(files, ino)[..n]).entries <= Extract(Archive(files, ino)).entries
    decreases |files|
  {
    var all := Archive(files, ino);
    if files == [] {
      if n < |all| {
        ShortEntry(ino, TrailerFile(), n);
        NothingExtracted(all[..n]);
      } else {
        assert all[..n] == all;
      }
    } else {
      var f, e, rest := files[0], EntryBytes(ino, files[0]), Archive(files[1..], ino + 1);
      if n < |e| {
        CutWithin(e, rest, n);
        ShortEntry(ino, f, n);
        NothingExtracted(all[..n]);
      } else {
        CutBehind(e, rest, n);
        ReadBack(ino, f, rest);
        ReadBack(ino, f, rest[..n - |e|]);
        if TrimNuls(f.name) == TRAILER {
          NothingExtracted(all[..n]);
        } else {
          var entry := Entry(TrimNuls(f.name), f.mode % WORD, f.data);
          Truncated(files[1..], ino + 1, n - |e|);
          ExtractNext(all, entry, rest);
          ExtractNext(all[..n], entry, rest[..n - |e|]);
          PrependKeeps([entry], Extract(rest[..n - |e|]), Extract(rest));
        }
      }
    }
  }

  /** Every entry has a length that is a multiple of 4. */
  lemma Aligned(ino: nat, f: File)
    ensures |EntryBytes(ino, f)| % 4 == 0
  {
    var x, y := HEADER + |f.name| + 1, |f.data|;
    AddMultiples(x + PadLength(x), y + PadLength(y));
  }

  lemma AddMultiples(x: nat, y: nat)
    requires x % 4 == 0 && y % 4 == 0
    ensures (x + y) % 4 == 0
  {
  }

  /** The entries of an archive, the trailer last. */
  function Parts(files: seq<File>, ino: nat): seq<seq<Byte>> {
    if files == [] then [EntryBytes(ino, TrailerFile())] else [EntryBytes(ino, files[0])] + Parts(files[1..], ino + 1)
  }

  predicate AllAligned(parts: seq<seq<Byte>>) {
    parts == [] || (|parts[0]| % 4 == 0 && AllAligned(parts[1..]))
  }

  lemma {:induction false} PartsOf(files: seq<File>, ino: nat)
    ensures Archive(files, ino) == Concat(Parts(files, ino)) && AllAligned(Parts(files, ino))
    ensures |Parts(files, ino)| == |files| + 1
    decreases |files|
  {
    if files == [] {
      Aligned(ino, TrailerFile());
      OnePart(EntryBytes(ino, TrailerFile()));
    } else {
      Aligned(ino, files[0]);
      PartsOf(files[1..], ino + 1);
      FrontPart(EntryBytes(ino, files[0]), Parts(files[1..], ino + 1));
    }
  }

  lemma OnePart(x: seq<Byte>)
    requires |x| % 4 == 0
    ensures Concat([x]) == x && AllAligned([x])
  {
    assert [x][1..] == [] && x + [] == x;
  }

  lemma FrontPart(x: seq<Byte>, xs: seq<seq<Byte>>)
    requires |x| % 4 == 0 && AllAligned(xs)
    ensures Concat([x] + xs) == x + Concat(xs) && AllAligned([x] + xs)
  {
    assert ([x] + xs)[1..] == xs;
  }

  lemma {:induction false} CutParts(parts: seq<seq<Byte>>, k: nat)
    requires AllAligned(parts) && k <= |parts|
    ensures |Concat(parts[..k])| % 4 == 0 && Concat(parts) == Concat(parts[..k]) + Concat(parts[k..])
    decreases k
  {
    if k == 0 {
      assert parts[..0] == [] && parts[0..] == parts && [] + Concat(parts) == Concat(parts);
    } else {
      CutParts(parts[1..], k - 1);
      assert parts[..k] == [parts[0]] + parts[1..][..k - 1] && parts[1..][k - 1..] == parts[k..];
      assert parts[..k][1..] == parts[1..][..k - 1];
      AddMultiples(|parts[0]|, |Concat(parts[1..][..k - 1])|);
      Reassociate(parts[0], Concat(parts[1..][..k - 1]), Concat(parts[k..]));
    }
  }

  lemma {:induction false} PartIs(files: seq<File>, ino: nat, k: nat)
    requires k < |files|
    ensures k < |Parts(files, ino)| && Parts(files, ino)[k] == EntryBytes(ino + k, files[k])
    decreases k
  {
    var parts := Parts(files, ino);
    if k == 0 {
      assert parts[0] == EntryBytes(ino, files[0]);
    } else {
      PartIs(files[1..], ino + 1, k - 1);
      assert parts[k] == Parts(files[1..], ino + 1)[k - 1];
    }
  }

  lemma {:induction false} FitsAt(files: seq<File>, k: nat)
    requires AllFit(files) && k < |files|
    ensures Fits(files[k])
    decreases k
  {
    if k > 0 {
      FitsAt(files[1..], k - 1);
    }
  }

  /** Entry k of an archive has the fields of file k, and the inode number k + 1. */
  lemma EntriesHaveFields(files: seq<File>, k: nat)
    requires AllFit(files) && k < |files|
    ensures k < |Parts(files, 1)| && HasFields(Parts(files, 1)[k], k + 1, files[k])
  {
    PartIs(files, 1, k);
    FitsAt(files, k);
    FieldsOf(k + 1, files[k]);
  }

  /** Every header of an archive starts at a multiple of 4. */
  lemma HeadersAligned(files: seq<File>, k: nat)
    requires k <= |files|
    ensures var parts := Parts(files, 1);
      && k < |parts| && |Concat(parts[..k])| % 4 == 0
      && Archive(files, 1) == Concat(parts[..k]) + Concat(parts[k..])
  {
    PartsOf(files, 1);
    CutParts(Parts(files, 1), k);
  }
}
