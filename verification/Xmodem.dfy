/** The XMODEM receiver, for any incoming bytes, and together with a sender that repeats
    each block until an acknowledgement gets through. */
module Xmodem {
  import opened Sequences
  import opened Bits

  const SOH: Byte := 0x01
  const EOT: Byte := 0x04
  const ACK: Byte := 0x06
  const NAK: Byte := 0x15
  const CAN: Byte := 0x18
  const BLOCK := 128

  datatype Error = NoHeader | Cancelled | BadControl | NoNumber | NoComplement | BadComplement
                 | ShortData | NoChecksum | BadChecksum | OutOfSequence

  datatype End = Received | Failed(error: Error)

  /** How a transfer ends, what was written to the file and what was sent back. */
  datatype Transfer = Transfer(end: End, out: seq<Byte>, replies: seq<Byte>)

  datatype Packet = Packet(num: Byte, data: seq<Byte>)
  datatype ReadResult = Read(packet: Packet, rest: seq<Byte>) | Bad(error: Error)

  function Sum(data: seq<Byte>): nat {
    if data == [] then 0 else Sum(data[..|data| - 1]) + data[|data| - 1]
  }

  /** The sum of the bytes in eight bits. */
  method Checksum(data: seq<Byte>) returns (s: Byte)
    ensures s == Sum(data) % 256
  {
    s := 0;
    for i := 0 to |data|
      invariant s == Sum(data[..i]) % 256
    {
      assert data[..i + 1][..i] == data[..i];
      s := (s + data[i]) % 256;
    }
    assert data[..|data|] == data;
  }

  /** What follows the SOH byte. */
  function ReadFrom(s: seq<Byte>): (r: ReadResult)
    ensures r.Read? ==> |r.rest| < |s| && |r.packet.data| == BLOCK
  {
    if |s| < 1 then Bad(NoNumber)
    else if |s| < 2 then Bad(NoComplement)
    else if s[0] != 255 - s[1] then Bad(BadComplement)
    else if |s| < 2 + BLOCK then Bad(ShortData)
    else if |s| < 3 + BLOCK then Bad(NoChecksum)
    else if Sum(s[2..2 + BLOCK]) % 256 != s[2 + BLOCK] then Bad(BadChecksum)
    else Read(Packet(s[0], s[2..2 + BLOCK]), s[3 + BLOCK..])
  }

  function Next(num: Byte): Byte {
    (num + 1) % 256
  }

  function Before(num: Byte): Byte {
    (num + 255) % 256
  }

  function ReceiveFrom(s: seq<Byte>, expected: Byte): Transfer
    decreases |s|
  {
    if s == [] then Transfer(Failed(NoHeader), [], [])
    else if s[0] == EOT then Transfer(Received, [], [ACK])
    else if s[0] == CAN then Transfer(Failed(Cancelled), [], [])
    else if s[0] != SOH then Transfer(Failed(BadControl), [], [])
    else
      match ReadFrom(s[1..])
      case Bad(e) => Transfer(Failed(e), [], [])
      case Read(packet, rest) =>
        if packet.num == expected then
          var more := ReceiveFrom(rest, Next(expected));
          Transfer(more.end, packet.data + more.out, [ACK] + more.replies)
        else if packet.num == Before(expected) then
          var more := ReceiveFrom(rest, expected);
          more.(replies := [ACK] + more.replies)
        else Transfer(Failed(OutOfSequence), [], [])
  }

  /** A whole transfer: the receiver asks for the start and expects block 1 first. */
  function Receive(s: seq<Byte>): Transfer {
    var t := ReceiveFrom(s, 1);
    t.(replies := [NAK] + t.replies)
  }

  method ReadPacket(s: seq<Byte>, at: nat) returns (r: ReadResult)
    requires at <= |s|
    ensures r == ReadFrom(s[at..])
  {
    if at >= |s| {
      return Bad(NoNumber);
    }
    var num := s[at];
    if at + 1 >= |s| {
      return Bad(NoComplement);
    }
    var inv := s[at + 1];
    if num != 255 - inv {
      return Bad(BadComplement);
    }
    if at + 2 + BLOCK > |s| {
      return Bad(ShortData);
    }
    var data := s[at + 2..at + 2 + BLOCK];
    assert s[at..][2..2 + BLOCK] == data;
    if at + 2 + BLOCK >= |s| {
      return Bad(NoChecksum);
    }
    var sum := s[at + 2 + BLOCK];
    var got := Checksum(data);
    if got != sum {
      return Bad(BadChecksum);
    }
    assert s[at..][3 + BLOCK..] == s[at + 3 + BLOCK..];
    return Read(Packet(num, data), s[at + 3 + BLOCK..]);
  }

  method Run(input: seq<Byte>) returns (t: Transfer)
    ensures t == Receive(input)
  {
    var out, replies := [], [NAK];
    var expected: Byte := 1;
    var pos := 0;
    while true
      invariant pos <= |input|
      invariant Receive(input) == After(out, replies, ReceiveFrom(input[pos..], expected))
      decreases |input| - pos
    {
      if pos >= |input| {
        return Transfer(Failed(NoHeader), out, replies);
      }
      var b := input[pos];
      if b == EOT {
        return Transfer(Received, out, replies + [ACK]);
      }
      if b == CAN {
        return Transfer(Failed(Cancelled), out, replies);
      }
      if b != SOH {
        return Transfer(Failed(BadControl), out, replies);
      }
      var r := ReadPacket(input, pos + 1);
      assert input[pos..][1..] == input[pos + 1..];
      if r.Bad? {
        return Transfer(Failed(r.error), out, replies);
      }
      if r.packet.num != expected && r.packet.num != Before(expected) {
        return Transfer(Failed(OutOfSequence), out, replies);
      }
      ghost var more := ReceiveFrom(r.rest, if r.packet.num == expected then Next(expected) else expected);
      if r.packet.num == expected {
        AfterWritten(out, replies, r.packet.data, more);
        out := out + r.packet.data;
        expected := Next(expected);
      } else {
        AfterRepeated(out, replies, more);
      }
      replies := replies + [ACK];
      pos := |input| - |r.rest|;
    }
  }

  function After(out: seq<Byte>, replies: seq<Byte>, t: Transfer): Transfer {
    Transfer(t.end, out + t.out, replies + t.replies)
  }

  lemma AfterWritten(out: seq<Byte>, replies: seq<Byte>, data: seq<Byte>, t: Transfer)
    ensures After(out, replies, Transfer(t.end, data + t.out, [ACK] + t.replies)) == After(out + data, replies + [ACK], t)
  {
    assert out + (data + t.out) == out + data + t.out;
    assert replies + ([ACK] + t.replies) == replies + [ACK] + t.replies;
  }

  lemma AfterRepeated(out: seq<Byte>, replies: seq<Byte>, t: Transfer)
    ensures After(out, replies, t.(replies := [ACK] + t.replies)) == After(out, replies + [ACK], t)
  {
    assert replies + ([ACK] + t.replies) == replies + [ACK] + t.replies;
  }

  // ----- any stream

  /** The packets a stream holds one after another, up to the first thing that is none. */
  function Packets(s: seq<Byte>): seq<Packet>
    decreases |s|
  {
    if s == [] || s[0] != SOH || ReadFrom(s[1..]).Bad? then []
    else [ReadFrom(s[1..]).packet] + Packets(ReadFrom(s[1..]).rest)
  }

  function Data(packets: seq<Packet>): seq<Byte> {
    if packets == [] then [] else packets[0].data + Data(packets[1..])
  }

  /** Numbered one after another from a number on, modulo 256. */
  predicate InSequence(packets: seq<Packet>, num: Byte) {
    packets == [] || (packets[0].num == num && InSequence(packets[1..], Next(num)))
  }

  /** Some of the packets, in their order. */
  predicate Among(some: seq<Packet>, packets: seq<Packet>)
    decreases |packets|
  {
    || some == []
    || (packets != [] && some[0] == packets[0] && Among(some[1..], packets[1..]))
    || (packets != [] && Among(some, packets[1..]))
  }

  lemma AmongKept(p: Packet, some: seq<Packet>, packets: seq<Packet>)
    requires Among(some, packets)
    ensures Among([p] + some, [p] + packets) && Among(some, [p] + packets)
  {
    assert ([p] + packets)[1..] == packets && ([p] + some)[1..] == some;
  }

  lemma {:induction false} WrittenFrom(s: seq<Byte>, num: Byte) returns (written: seq<Packet>)
    ensures Among(written, Packets(s)) && InSequence(written, num)
    ensures ReceiveFrom(s, num).out == Data(written)
    decreases |s|
  {
    written := [];
    if s != [] && s[0] == SOH && ReadFrom(s[1..]).Read? {
      var p, rest := ReadFrom(s[1..]).packet, ReadFrom(s[1..]).rest;
      if p.num == num {
        written := WrittenFrom(rest, Next(num));
        AmongKept(p, written, Packets(rest));
        written := [p] + written;
      } else if p.num == Before(num) {
        written := WrittenFrom(rest, num);
        AmongKept(p, written, Packets(rest));
      }
    }
  }

  /** Whatever bytes come in, what is written is the data of packets of the stream, in
      their order, numbered 1, 2, 3 and so on modulo 256. */
  lemma WrittenInSequence(s: seq<Byte>) returns (written: seq<Packet>)
    ensures Among(written, Packets(s)) && InSequence(written, 1)
    ensures Receive(s).out == Data(written)
  {
    written := WrittenFrom(s, 1);
  }

  // ----- packets that arrive whole

  function PacketBytes(p: Packet): seq<Byte> {
    [SOH, p.num, 255 - p.num] + p.data + [Sum(p.data) % 256]
  }

  /** Packets on the line, and the end of the transmission if it has come. */
  function Bytes(packets: seq<Packet>, ended: bool): seq<Byte> {
    if packets == [] then (if ended then [EOT] else []) else PacketBytes(packets[0]) + Bytes(packets[1..], ended)
  }

  lemma ReadBack(p: Packet, rest: seq<Byte>)
    requires |p.data| == BLOCK
    ensures var s := PacketBytes(p) + rest;
      s != [] && s[0] == SOH && ReadFrom(s[1..]) == Read(p, rest)
  {
    var s := (PacketBytes(p) + rest)[1..];
    assert s[2..2 + BLOCK] == p.data;
    assert s[3 + BLOCK..] == rest;
  }

  /** What the receiver makes of a packet, given what it makes of the rest. */
  function Take(p: Packet, expected: Byte, more: Transfer): Transfer {
    if p.num == expected then Transfer(more.end, p.data + more.out, [ACK] + more.replies)
    else more.(replies := [ACK] + more.replies)
  }

  function Deliver(packets: seq<Packet>, ended: bool, expected: Byte): Transfer {
    if packets == [] then (if ended then Transfer(Received, [], [ACK]) else Transfer(Failed(NoHeader), [], []))
    else
      var p := packets[0];
      if p.num == expected then Take(p, expected, Deliver(packets[1..], ended, Next(expected)))
      else if p.num == Before(expected) then Take(p, expected, Deliver(packets[1..], ended, expected))
      else Transfer(Failed(OutOfSequence), [], [])
  }

  predicate AreWhole(packets: seq<Packet>) {
    packets == [] || (|packets[0].data| == BLOCK && AreWhole(packets[1..]))
  }

  lemma {:induction false} ReceiveDelivers(packets: seq<Packet>, ended: bool, expected: Byte)
    requires AreWhole(packets)
    ensures ReceiveFrom(Bytes(packets, ended), expected) == Deliver(packets, ended, expected)
    decreases |packets|
  {
    if packets != [] {
      ReadBack(packets[0], Bytes(packets[1..], ended));
      ReceiveDelivers(packets[1..], ended, Next(expected));
      ReceiveDelivers(packets[1..], ended, expected);
    }
  }

  // ----- with a sender that repeats blocks

  function Number(k: nat): Byte {
    (k + 1) % 256
  }

  predicate AreBlocks(blocks: seq<seq<Byte>>) {
    forall b :: b in blocks ==> |b| == BLOCK
  }

  /** The packets of a sender that sends block i, again and again until an acknowledgement
      gets through, and then the next; fates tells of each packet whether it is
      acknowledged to the sender. */
  function Packed(blocks: seq<seq<Byte>>, i: nat, fates: seq<bool>): seq<Packet>
    requires i <= |blocks|
    decreases |fates|
  {
    if i == |blocks| || fates == [] then []
    else [Packet(Number(i), blocks[i])] + Packed(blocks, if fates[0] then i + 1 else i, fates[1..])
  }

  /** How many blocks have been acknowledged to the sender in the end. */
  function Confirmed(blocks: seq<seq<Byte>>, i: nat, fates: seq<bool>): (n: nat)
    requires i <= |blocks|
    ensures i <= n <= |blocks|
    decreases |fates|
  {
    if i == |blocks| || fates == [] then i else Confirmed(blocks, if fates[0] then i + 1 else i, fates[1..])
  }

  /** What is sent: after the last block is confirmed, the end of the transmission. */
  function Sent(blocks: seq<seq<Byte>>, fates: seq<bool>): seq<Byte> {
    Bytes(Packed(blocks, 0, fates), Confirmed(blocks, 0, fates) == |blocks|)
  }

  lemma {:induction false} PackedWhole(blocks: seq<seq<Byte>>, i: nat, fates: seq<bool>)
    requires AreBlocks(blocks) && i <= |blocks|
    ensures AreWhole(Packed(blocks, i, fates))
    decreases |fates|
  {
    if i < |blocks| && fates != [] {
      assert blocks[i] in blocks;
      PackedWhole(blocks, if fates[0] then i + 1 else i, fates[1..]);
    }
  }

  function Acks(n: nat): seq<Byte> {
    if n == 0 then [] else [ACK] + Acks(n - 1)
  }

  /** From r blocks on, m blocks are written, and c packets were acknowledged. */
  predicate Reached(t: Transfer, blocks: seq<seq<Byte>>, r: nat, m: nat, ended: bool, c: nat) {
    && r <= m <= |blocks| && t.out == Concat(blocks[r..m])
    && t.end == (if ended then Received else Failed(NoHeader))
    && t.replies == Acks(c + if ended then 1 else 0)
  }

  lemma ReachedNew(t: Transfer, blocks: seq<seq<Byte>>, r: nat, m: nat, ended: bool, c: nat)
    requires r < |blocks| && Reached(t, blocks, r + 1, m, ended, c)
    ensures Reached(Take(Packet(Number(r), blocks[r]), Number(r), t), blocks, r, m, ended, c + 1)
  {
    assert blocks[r..m][1..] == blocks[r + 1..m];
  }

  lemma ReachedOld(t: Transfer, blocks: seq<seq<Byte>>, i: nat, m: nat, ended: bool, c: nat)
    requires i < |blocks| && Reached(t, blocks, i + 1, m, ended, c)
    ensures Reached(Take(Packet(Number(i), blocks[i]), Number(i + 1), t), blocks, i + 1, m, ended, c + 1)
  {
    assert Number(i) != Number(i + 1);
  }

  lemma Neighbours(i: nat)
    ensures Next(Number(i)) == Number(i + 1) && Before(Number(i + 1)) == Number(i) && Number(i) != Number(i + 1)
  {
  }

  /** The receiver has written r blocks, and the sender sends the last of these or the next. */
  lemma {:induction false} Lockstep(blocks: seq<seq<Byte>>, i: nat, r: nat, fates: seq<bool>) returns (m: nat)
    requires i <= r <= i + 1 && r <= |blocks|
    ensures var packets, n := Packed(blocks, i, fates), Confirmed(blocks, i, fates);
      && n <= m <= n + 1
      && Reached(Deliver(packets, n == |blocks|, Number(r)), blocks, r, m, n == |blocks|, |packets|)
    decreases |fates|
  {
    if i == |blocks| || fates == [] {
      m := r;
      assert blocks[r..r] == [];
      assert Acks(1) == [ACK] + Acks(0);
    } else {
      var i' := if fates[0] then i + 1 else i;
      m := Lockstep(blocks, i', i + 1, fates[1..]);
      var packets, n := Packed(blocks, i', fates[1..]), Confirmed(blocks, i', fates[1..]);
      var more := Deliver(packets, n == |blocks|, Number(i + 1));
      assert Packed(blocks, i, fates)[1..] == packets;
      Neighbours(i);
      if r == i {
        ReachedNew(more, blocks, i, m, n == |blocks|, |packets|);
      } else {
        ReachedOld(more, blocks, i, m, n == |blocks|, |packets|);
      }
    }
  }

  lemma SentDelivers(blocks: seq<seq<Byte>>, fates: seq<bool>)
    requires AreBlocks(blocks)
    ensures var d := Deliver(Packed(blocks, 0, fates), Confirmed(blocks, 0, fates) == |blocks|, Number(0));
      Receive(Sent(blocks, fates)) == Transfer(d.end, d.out, [NAK] + d.replies)
  {
    PackedWhole(blocks, 0, fates);
    ReceiveDelivers(Packed(blocks, 0, fates), Confirmed(blocks, 0, fates) == |blocks|, Number(0));
  }

  /** For any number of blocks and whichever acknowledgements are lost: at every moment the
      file holds the first blocks, each once and in order, at most one more than have been
      confirmed to the sender; every packet is acknowledged; and the transfer is complete
      once all blocks are confirmed. */
  lemma ExactlyOnce(blocks: seq<seq<Byte>>, fates: seq<bool>) returns (m: nat)
    requires AreBlocks(blocks)
    ensures var t, n := Receive(Sent(blocks, fates)), Confirmed(blocks, 0, fates);
      && m <= |blocks| && n <= m <= n + 1 && t.out == Concat(blocks[..m])
      && (t.end == Received <==> n == |blocks|)
      && (t.end == Received ==> t.out == Concat(blocks))
      && t.replies == [NAK] + Acks(|Packed(blocks, 0, fates)| + if n == |blocks| then 1 else 0)
  {
    SentDelivers(blocks, fates);
    m := Lockstep(blocks, 0, 0, fates);
    assert blocks[0..m] == blocks[..m] && blocks[..|blocks|] == blocks;
  }

  function Trues(fates: seq<bool>): nat {
    if fates == [] then 0 else (if fates[0] then 1 else 0) + Trues(fates[1..])
  }

  lemma {:induction false} ConfirmedCount(blocks: seq<seq<Byte>>, i: nat, fates: seq<bool>)
    requires i <= |blocks|
    ensures Confirmed(blocks, i, fates) == if i + Trues(fates) > |blocks| then |blocks| else i + Trues(fates)
    decreases |fates|
  {
    if i < |blocks| && fates != [] {
      ConfirmedCount(blocks, if fates[0] then i + 1 else i, fates[1..]);
    }
  }

  /** The whole file is received if and only if as many acknowledgements get through as
      there are blocks. */
  lemma CompleteIff(blocks: seq<seq<Byte>>, fates: seq<bool>)
    requires AreBlocks(blocks)
    ensures Receive(Sent(blocks, fates)).end == Received <==> Trues(fates) >= |blocks|
  {
    ConfirmedCount(blocks, 0, fates);
    var _ := ExactlyOnce(blocks, fates);
  }

  // ----- which streams are received

  /** What is read as a packet is a packet byte for byte: number, complement, data and
      checksum. */
  lemma ReadExactly(s: seq<Byte>)
    requires ReadFrom(s).Read?
    ensures var p, rest := ReadFrom(s).packet, ReadFrom(s).rest;
      |p.data| == BLOCK && [SOH] + s == PacketBytes(p) + rest
  {
    var p, rest := ReadFrom(s).packet, ReadFrom(s).rest;
    assert s == s[..2] + s[2..2 + BLOCK] + [s[2 + BLOCK]] + s[3 + BLOCK..];
    assert s[..2] == [p.num, 255 - p.num];
  }

  /** Each packet is the next one, or the one before it again. */
  predicate Acceptable(packets: seq<Packet>, expected: Byte)
    decreases |packets|
  {
    packets == [] ||
    if packets[0].num == expected then Acceptable(packets[1..], Next(expected))
    else packets[0].num == Before(expected) && Acceptable(packets[1..], expected)
  }

  /** The number expected behind the packets, and the packets that are new. */
  function Behind(packets: seq<Packet>, expected: Byte): (Byte, seq<Packet>)
    decreases |packets|
  {
    if packets == [] then (expected, [])
    else if packets[0].num == expected then
      var (num, new') := Behind(packets[1..], Next(expected));
      (num, [packets[0]] + new')
    else Behind(packets[1..], expected)
  }

  /** Acceptable packets are written and acknowledged, whatever comes behind them. */
  lemma {:induction false} PacketsTaken(packets: seq<Packet>, tail: seq<Byte>, expected: Byte)
    requires AreWhole(packets) && Acceptable(packets, expected)
    ensures var (num, new') := Behind(packets, expected);
      var t, more := ReceiveFrom(Bytes(packets, false) + tail, expected), ReceiveFrom(tail, num);
      t == Transfer(more.end, Data(new') + more.out, Acks(|packets|) + more.replies)
    decreases |packets|
  {
    if packets == [] {
      assert Bytes(packets, false) + tail == tail;
      var t := ReceiveFrom(tail, expected);
      assert [] + t.out == t.out && [] + t.replies == t.replies;
    } else {
      var p, rest := packets[0], Bytes(packets[1..], false) + tail;
      var next := if p.num == expected then Next(expected) else expected;
      Reassociate(PacketBytes(p), Bytes(packets[1..], false), tail);
      ReadBack(p, rest);
      PacketsTaken(packets[1..], tail, next);
      OnePacket(p, packets[1..], expected, ReceiveFrom(tail, Behind(packets[1..], next).0));
    }
  }

  lemma OnePacket(p: Packet, packets: seq<Packet>, expected: Byte, more: Transfer)
    requires p.num == expected || p.num == Before(expected)
    ensures var new' := Behind(packets, if p.num == expected then Next(expected) else expected).1;
      var all := Behind([p] + packets, expected).1;
      Take(p, expected, Transfer(more.end, Data(new') + more.out, Acks(|packets|) + more.replies))
      == Transfer(more.end, Data(all) + more.out, Acks(|packets| + 1) + more.replies)
  {
    var new' := Behind(packets, if p.num == expected then Next(expected) else expected).1;
    assert ([p] + packets)[1..] == packets;
    Reassociate([ACK], Acks(|packets|), more.replies);
    if p.num == expected {
      assert ([p] + new')[1..] == new';
      Reassociate(p.data, Data(new'), more.out);
    }
  }

  /** The file is received if and only if the stream consists of whole packets, each the
      next one or the one before it again, and the end of the transmission. */
  lemma ReceivedIff(s: seq<Byte>)
    ensures Receive(s).end == Received
       <==> exists packets, rest :: IsWholeStream(s, packets, rest, 1)
  {
    if Receive(s).end == Received {
      var packets, rest := Split(s, 1);
      assert IsWholeStream(s, packets, rest, 1);
    }
    forall packets, rest | IsWholeStream(s, packets, rest, 1) ensures Receive(s).end == Received {
      PacketsTaken(packets, [EOT] + rest, 1);
    }
  }

  predicate IsWholeStream(s: seq<Byte>, packets: seq<Packet>, rest: seq<Byte>, expected: Byte) {
    AreWhole(packets) && Acceptable(packets, expected) && s == Bytes(packets, false) + ([EOT] + rest)
  }

  lemma {:induction false} Split(s: seq<Byte>, expected: Byte) returns (packets: seq<Packet>, rest: seq<Byte>)
    requires ReceiveFrom(s, expected).end == Received
    ensures IsWholeStream(s, packets, rest, expected)
    decreases |s|
  {
    if s[0] == EOT {
      packets, rest := [], s[1..];
      assert s == [] + ([EOT] + s[1..]);
    } else {
      var p, more := ReadFrom(s[1..]).packet, ReadFrom(s[1..]).rest;
      ReadExactly(s[1..]);
      assert [SOH] + s[1..] == s;
      var others;
      others, rest := Split(more, if p.num == expected then Next(expected) else expected);
      packets := [p] + others;
      assert packets[1..] == others;
      Reassociate(PacketBytes(p), Bytes(others, false), [EOT] + rest);
    }
  }

  /** A transfer that the sender cancels fails; what came before is written and
      acknowledged, the cancelling is not, and nothing behind it is read. */
  lemma CancelledFails(packets: seq<Packet>, rest: seq<Byte>)
    requires AreWhole(packets) && Acceptable(packets, 1)
    ensures Receive(Bytes(packets, false) + ([CAN] + rest))
         == Transfer(Failed(Cancelled), Data(Behind(packets, 1).1), [NAK] + Acks(|packets|))
  {
    PacketsTaken(packets, [CAN] + rest, 1);
    assert Data(Behind(packets, 1).1) + [] == Data(Behind(packets, 1).1) && Acks(|packets|) + [] == Acks(|packets|);
  }

  /** A packet out of sequence, or anything that is not a whole packet, ends the transfer
      there in failure, with the packets before it written. */
  lemma BrokenFails(packets: seq<Packet>, tail: seq<Byte>)
    requires AreWhole(packets) && Acceptable(packets, 1)
    requires tail != [] ==> tail[0] != EOT
    requires tail != [] && tail[0] == SOH && ReadFrom(tail[1..]).Read? ==>
      var num := Behind(packets, 1).0;
      ReadFrom(tail[1..]).packet.num != num && ReadFrom(tail[1..]).packet.num != Before(num)
    ensures var t := Receive(Bytes(packets, false) + tail);
      t.end.Failed? && t.out == Data(Behind(packets, 1).1) && t.replies == [NAK] + Acks(|packets|)
  {
    PacketsTaken(packets, tail, 1);
    assert Data(Behind(packets, 1).1) + [] == Data(Behind(packets, 1).1) && Acks(|packets|) + [] == Acks(|packets|);
  }
}
