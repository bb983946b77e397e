/** XMODEM with 16-bit checks: packets, and the two ends of a transfer as they react to the serial line. */
module Xmodem {
  import opened Crc
  import opened FlashMemory

  const SOH: bv8 := 0x01
  const STX: bv8 := 0x02
  const EOT: bv8 := 0x04
  const ACK: bv8 := 0x06
  const NAK: bv8 := 0x15
  const CAN: bv8 := 0x18
  const START: bv8 := 0x43
  const PADDING: bv8 := 0x1A

  const SHORT: nat := 128
  const LONG: nat := 1024

  // ---------------------------------------------------------------- packets

  function Ccitt(data: seq<bv8>): bv16 {
    BitCrc(0, POLY_CCITT, MessageBits(data))
  }

  function Inverted(b: bv8): bv8 {
    b ^ 0xFF
  }

  predicate Complementary(a: bv8, b: bv8) {
    a ^ b == 0xFF
  }

  lemma InvertedIsComplementary(a: bv8, b: bv8)
    ensures Complementary(a, b) <==> b == Inverted(a)
  {
  }

  function Packet(data: seq<bv8>, blockNum: bv8): (r: seq<bv8>)
    ensures |r| == |data| + 5
  {
    [if |data| > SHORT then STX else SOH, blockNum, Inverted(blockNum)] + data + CrcBytes(Ccitt(data))
  }

  /** What xmodem_sendPacket puts on the line: nothing unless the size is one of the two of the protocol. */
  function OnTheLine(data: seq<bv8>, blockNum: bv8): seq<bv8> {
    if |data| == SHORT || |data| == LONG then Packet(data, blockNum) else []
  }

  function PayloadSize(first: bv8): nat {
    if first == STX then LONG else SHORT
  }

  function FrameLength(first: bv8): nat {
    PayloadSize(first) + 5
  }

  predicate IsFrame(f: seq<bv8>) {
    |f| > 0 && (f[0] == STX || f[0] == SOH) && |f| == FrameLength(f[0])
  }

  function Payload(f: seq<bv8>): (r: seq<bv8>)
    requires IsFrame(f)
    ensures |r| == PayloadSize(f[0])
  {
    f[3..|f| - 2]
  }

  function CheckBytes(f: seq<bv8>): seq<bv8>
    requires IsFrame(f)
  {
    f[|f| - 2..]
  }

  /** What xmodem_receivePacket returns for the frame: its payload size, or 0 if it does not check. */
  function Check(f: seq<bv8>, expected: bv8): (n: nat)
    requires IsFrame(f)
    ensures n == 0 || n == PayloadSize(f[0])
  {
    if !Complementary(f[1], f[2]) then 0
    else if expected != f[1] then 0
    else if CheckBytes(f) != CrcBytes(Ccitt(Payload(f))) then 0
    else PayloadSize(f[0])
  }

  lemma PacketParts(data: seq<bv8>, n: bv8)
    requires |data| == SHORT || |data| == LONG
    ensures var f := Packet(data, n);
            IsFrame(f) && Payload(f) == data && CheckBytes(f) == CrcBytes(Ccitt(data))
            && f[1] == n && f[2] == Inverted(n) && PayloadSize(f[0]) == |data|
  {
    hide Ccitt, CrcBytes, Inverted;
    var f := Packet(data, n);
    assert f[3..|f| - 2] == data;
    assert |CrcBytes(Ccitt(data))| == 2;
    assert f[|f| - 2..] == CrcBytes(Ccitt(data));
  }

  /** A packet that arrives as sent is accepted exactly if it has the expected number. */
  lemma PacketIsAccepted(data: seq<bv8>, n: bv8, expected: bv8)
    requires |data| == SHORT || |data| == LONG
    ensures IsFrame(Packet(data, n)) && Payload(Packet(data, n)) == data
    ensures Check(Packet(data, n), expected) == if n == expected then |data| else 0
  {
    PacketParts(data, n);
    InvertedIsComplementary(n, Inverted(n));
    hide Ccitt, CrcBytes, Inverted, Complementary, Packet, Payload, CheckBytes;
  }

  /** The bits that the check covers: the payload and the check bytes themselves. */
  function CheckedBits(f: seq<bv8>): seq<bool>
    requires IsFrame(f)
  {
    MessageBits(Payload(f) + CheckBytes(f))
  }

  /** A packet whose payload or check bytes suffer a burst of at most 16 bits is refused. */
  lemma BurstIsRefused(data: seq<bv8>, n: bv8, f: seq<bv8>, expected: bv8, a: nat)
    requires |data| == SHORT || |data| == LONG
    requires IsFrame(Packet(data, n)) && IsFrame(f) && f[0] == Packet(data, n)[0]
    requires var sent, got := CheckedBits(Packet(data, n)), CheckedBits(f);
             |sent| == |got| && sent != got && forall i | 0 <= i < |sent| && sent[i] != got[i] :: a <= i < a + 16
    ensures Check(f, expected) == 0
  {
    hide Ccitt, CrcBytes, Inverted, Complementary, Packet, MessageBits, Payload;
    PacketParts(data, n);
    if CheckBytes(f) == CrcBytes(Ccitt(Payload(f))) {
      CcittIs(data);
      CcittIs(Payload(f));
      BurstIsDetected(data, Payload(f), Ccitt(Payload(f)), a);
    }
  }

  lemma CcittIs(data: seq<bv8>)
    ensures Ccitt(data) == BitCrc(0, POLY_CCITT, MessageBits(data))
  {
  }

  /** A packet whose number bytes are altered is refused, unless they form another packet's. */
  lemma NumberIsChecked(data: seq<bv8>, n: bv8, f: seq<bv8>)
    requires |data| == SHORT || |data| == LONG
    requires IsFrame(f) && f[0] == Packet(data, n)[0] && f[1..3] != Packet(data, n)[1..3]
    ensures Check(f, n) == 0
  {
    InvertedIsComplementary(f[1], f[2]);
    assert Packet(data, n)[1..3] == [n, Inverted(n)];
    assert f[1..3] == [f[1], f[2]];
    hide Packet, Inverted, Complementary, Ccitt, CrcBytes, Payload;
  }

  // ---------------------------------------------------------------- the sending end

  datatype SenderPhase = AwaitingStart | AwaitingReply | AwaitingEnd | Sent | Cancelled

  /**
   size bytes of source are to be sent, sentSize have been. While a reply is awaited, the block
   is at the beginning of dataBuf; blockSize includes its padding, once for each transmission.
   */
  datatype Sender = Sender(phase: SenderPhase, size: nat, source: seq<bv8>, sentSize: nat, blockNum: bv8,
                           dataBuf: seq<bv8>, blockSize: nat, padSize: nat)

  function Minimum(a: nat, b: nat): (m: nat)
    ensures m <= a && m <= b && (m == a || m == b)
  {
    if a < b then a else b
  }

  function PadSize(blockSize: nat): nat {
    if blockSize < SHORT then SHORT - blockSize
    else if blockSize < LONG then LONG - blockSize
    else 0
  }

  function Padding(n: nat): (r: seq<bv8>)
    ensures |r| == n
  {
    seq(n, _ => PADDING)
  }

  /** The data buffer once a block has been read into it and padded. */
  function Filled(buf: seq<bv8>, block: seq<bv8>): (r: seq<bv8>)
    requires |buf| == LONG && |block| <= LONG
    ensures |r| == LONG
  {
    block + Padding(PadSize(|block|)) + buf[|block| + PadSize(|block|)..]
  }

  /** The packet for the first n bytes of the buffer; the buffer ends at 1024. */
  function FromBuffer(buf: seq<bv8>, n: nat, blockNum: bv8): seq<bv8>
    requires |buf| == LONG
  {
    if n <= LONG then OnTheLine(buf[..n], blockNum) else []
  }

  /** One round of the resend loop: the padding is added, the packet sent. */
  function Transmit(s: Sender): (Sender, seq<bv8>)
    requires |s.dataBuf| == LONG
  {
    (s.(blockSize := s.blockSize + s.padSize), FromBuffer(s.dataBuf, s.blockSize + s.padSize, s.blockNum))
  }

  /** The head of the sending loop: another block, or the end of the transfer. */
  function NextBlock(s: Sender): (Sender, seq<bv8>)
    requires |s.dataBuf| == LONG
  {
    if s.sentSize >= s.size then (s.(phase := AwaitingEnd), [EOT])
    else
      var n := Minimum(LONG, s.size - s.sentSize);
      if s.sentSize + n > |s.source| then (s.(phase := Cancelled), [CAN])
      else
        Transmit(s.(phase := AwaitingReply, blockSize := n, padSize := PadSize(n),
                    dataBuf := Filled(s.dataBuf, s.source[s.sentSize..s.sentSize + n])))
  }

  /** The sender that t becomes when its block is acknowledged. */
  function Acknowledged(t: Sender): Sender
    requires t.padSize <= t.blockSize
  {
    t.(sentSize := t.sentSize + t.blockSize - t.padSize, blockNum := t.blockNum + 1)
  }

  predicate SenderValid(s: Sender) {
    |s.dataBuf| == LONG && (s.phase == AwaitingReply ==> s.padSize <= s.blockSize)
  }

  /** How the sender reacts to one byte. */
  function SenderHears(s: Sender, b: bv8): (Sender, seq<bv8>)
    requires SenderValid(s)
  {
    match s.phase
    case AwaitingStart => if b == START then NextBlock(s) else (s, [])
    case AwaitingReply =>
      if b == ACK then NextBlock(Acknowledged(s))
      else if b == NAK then Transmit(s)
      else (s, [])
    case AwaitingEnd => if b == ACK then (s.(phase := Sent), []) else (s, [])
    case Sent => (s, [])
    case Cancelled => (s, [])
  }

  lemma SenderStaysValid(s: Sender, b: bv8)
    requires SenderValid(s)
    ensures SenderValid(SenderHears(s, b).0)
  {
    hide FromBuffer, Filled;
  }

  /** The sender's state after a stream of bytes, and all that it sent. */
  function SenderRun(s: Sender, input: seq<bv8>): (Sender, seq<bv8>)
    requires SenderValid(s)
    decreases |input|
  {
    if |input| == 0 then (s, [])
    else
      SenderStaysValid(s, input[0]);
      var (s1, sent) := SenderHears(s, input[0]);
      var (s2, more) := SenderRun(s1, input[1..]);
      (s2, sent + more)
  }

  function NewSender(size: nat, source: seq<bv8>, buf: seq<bv8>): (s: Sender)
    requires |buf| == LONG
    ensures SenderValid(s)
  {
    Sender(AwaitingStart, size, source, 0, 1, buf, 0, 0)
  }

  // ---------------------------------------------------------------- the receiving end

  datatype ReceiverPhase = Receiving | Ending | Received

  /** chunks holds what the callback has been given, call by call. */
  datatype Receiver = Receiver(phase: ReceiverPhase, size: nat, rcvdSize: nat, blockNum: bv8, chunks: seq<seq<bv8>>)

  function NewReceiver(size: nat): Receiver {
    Receiver(if 0 < size then Receiving else Ending, size, 0, 1, [])
  }

  /** How the receiver reacts to a frame. */
  function ReceiverHears(r: Receiver, f: seq<bv8>): (Receiver, bv8)
    requires IsFrame(f) && r.rcvdSize <= r.size
  {
    var n := Check(f, r.blockNum);
    if n == 0 then (r, NAK)
    else
      var delta := Minimum(n, r.size - r.rcvdSize);
      (Receiver(if r.rcvdSize + delta < r.size then Receiving else Ending, r.size, r.rcvdSize + delta, r.blockNum + 1,
                r.chunks + [Payload(f)[..delta]]), ACK)
  }

  /** How many bytes come before the next header byte. */
  function Skipped(input: seq<bv8>): (i: nat)
    ensures i <= |input|
    ensures forall k | 0 <= k < i :: input[k] != STX && input[k] != SOH
    ensures i < |input| ==> input[i] == STX || input[i] == SOH
  {
    if |input| == 0 || input[0] == STX || input[0] == SOH then 0 else 1 + Skipped(input[1..])
  }

  /** Where the first complete frame of the input ends; 0 if there is none. */
  function FrameEnd(input: seq<bv8>): (e: nat)
    ensures e <= |input|
    ensures e > 0 ==> Skipped(input) <= e && IsFrame(input[Skipped(input)..e])
  {
    var i := Skipped(input);
    if i < |input| && i + FrameLength(input[i]) <= |input| then i + FrameLength(input[i]) else 0
  }

  /** The receiver's state after a stream of bytes, and its replies. */
  function ReceiverRun(r: Receiver, input: seq<bv8>): (Receiver, seq<bv8>)
    requires r.rcvdSize <= r.size
    decreases |input|
  {
    match r.phase
    case Receiving =>
      var e := FrameEnd(input);
      if e == 0 then (r, [])
      else
        var (r1, reply) := ReceiverHears(r, input[Skipped(input)..e]);
        var (r2, more) := ReceiverRun(r1, input[e..]);
        (r2, [reply] + more)
    case Ending => if EOT in input then (r.(phase := Received), [ACK]) else (r, [])
    case Received => (r, [])
  }

  // ---------------------------------------------------------------- the program

  /** A serial line: what is still to arrive, and what has been written. */
  class Port {
    var input: seq<bv8>
    var output: seq<bv8>

    constructor (input: seq<bv8>)
      ensures this.input == input && output == []
    {
      this.input := input;
      output := [];
    }

    /** waitForData, which waits forever if the line stays silent: then ok is false. */
    method WaitForData(n: nat) returns (ok: bool, data: seq<bv8>)
      modifies this`input
      ensures ok == (n <= |old(input)|)
      ensures ok ==> data == old(input)[..n] && input == old(input)[n..]
      ensures !ok ==> input == []
    {
      data := [];
      ok := true;
      while |data| < n
        invariant |data| <= n && data + input == old(input)
        decreases n - |data|
      {
        if input == [] {
          return false, data;
        }
        data, input := data + input[..1], input[1..];
      }
      assert old(input)[..n] == data;
    }

    method WriteBlock(data: seq<bv8>)
      modifies this`output
      ensures output == old(output) + data
    {
      output := output + data;
    }
  }

  /** The first size bytes of data as a packet. */
  method SendPacket(port: Port, data: seq<bv8>, size: nat, blockNum: bv8)
    requires |data| == LONG
    modifies port`output
    ensures port.output == old(port.output) + FromBuffer(data, size, blockNum)
  {
    hide CrcBytes, BitCrc, MessageBits;
    if size != SHORT && size != LONG {
      return;
    }
    var header := SOH;
    if size > SHORT {
      header := STX;
    }
    var crc := CrcCcitt(data[..size]);
    port.WriteBlock([header, blockNum, Inverted(blockNum)]);
    port.WriteBlock(data[..size]);
    port.WriteBlock(CrcBytes(crc));
    assert port.output == old(port.output) + Packet(data[..size], blockNum);
  }

  lemma FrameEndIs(input: seq<bv8>, s: nat)
    requires s == Skipped(input) < |input| && s + PayloadSize(input[s]) + 5 <= |input|
    ensures FrameEnd(input) == s + PayloadSize(input[s]) + 5 && IsFrame(input[s..s + PayloadSize(input[s]) + 5])
  {
    hide Skipped, PayloadSize;
  }

  lemma InTheMiddle(a: seq<bv8>, f: seq<bv8>, rest: seq<bv8>)
    ensures (a + f + rest)[|a|..|a| + |f|] == f && (a + f + rest)[|a| + |f|..] == rest
  {
  }

  lemma FourParts(h: bv8, number: seq<bv8>, data: seq<bv8>, check: seq<bv8>)
    requires |number| == |check| == 2
    ensures var f := [h] + number + data + check;
            && |f| == |data| + 5 && f[0] == h && f[1] == number[0] && f[2] == number[1]
            && f[3..|f| - 2] == data && f[|f| - 2..] == check
  {
    var f := [h] + number + data + check;
    InTheMiddle([h] + number, data, check);
    assert f[|f| - 2..] == check;
  }

  lemma Assembled(input: seq<bv8>, s: nat, number: seq<bv8>, data: seq<bv8>, check: seq<bv8>, rest: seq<bv8>)
    requires s < |input| && |number| == |check| == 2 && input[s + 1..] == number + (data + (check + rest))
    ensures s + |data| + 5 <= |input| && input[s + |data| + 5..] == rest
    ensures input[s..s + |data| + 5] == [input[s]] + number + data + check
  {
    var f := [input[s]] + number + data + check;
    assert input == input[..s] + [input[s]] + input[s + 1..];
    Reassociated(input[..s], [input[s]], number, data, check, rest);
    InTheMiddle(input[..s], f, rest);
  }

  lemma Reassociated(a: seq<bv8>, h: seq<bv8>, number: seq<bv8>, data: seq<bv8>, check: seq<bv8>, rest: seq<bv8>)
    ensures a + h + (number + (data + (check + rest))) == a + (h + number + data + check) + rest
  {
  }

  /** A frame read piece by piece. */
  lemma FrameParts(input: seq<bv8>, s: nat, number: seq<bv8>, data: seq<bv8>, check: seq<bv8>, rest: seq<bv8>)
    returns (f: seq<bv8>)
    requires s == Skipped(input) < |input| && |number| == |check| == 2 && |data| == PayloadSize(input[s])
    requires input[s + 1..] == number + (data + (check + rest))
    ensures FrameEnd(input) > 0 && f == input[s..FrameEnd(input)] && rest == input[FrameEnd(input)..]
    ensures IsFrame(f) && f[0] == input[s] && |f| == |data| + 5 && number == [f[1], f[2]]
    ensures data == Payload(f) && check == CheckBytes(f)
  {
    hide *;
    Assembled(input, s, number, data, check, rest);
    FourParts(input[s], number, data, check);
    f := [input[s]] + number + data + check;
    FrameEndIs(input, s);
    PartsOfFrame(f);
  }

  lemma PartsOfFrame(f: seq<bv8>)
    requires IsFrame(f)
    ensures Payload(f) == f[3..|f| - 2] && CheckBytes(f) == f[|f| - 2..]
  {
    hide IsFrame;
  }

  lemma TakeAndDrop(a: seq<bv8>, n: nat)
    ensures n <= |a| ==> a == a[..n] + a[n..]
  {
  }

  method ReceivePacket(port: Port, expected: bv8) returns (ok: bool, n: nat, data: seq<bv8>)
    modifies port`input
    ensures ok == (FrameEnd(old(port.input)) > 0)
    ensures ok ==> var f := old(port.input)[Skipped(old(port.input))..FrameEnd(old(port.input))];
                   n == Check(f, expected) && data == Payload(f) && port.input == old(port.input)[FrameEnd(old(port.input))..]
  {
    hide CrcBytes, BitCrc, MessageBits, Complementary;
    var input := port.input;
    n, data := 0, [];
    var status: bv8 := 0;
    ghost var i := 0;
    while status != STX && status != SOH
      invariant 0 <= i <= |input| && port.input == input[i..]
      invariant status == STX || status == SOH ==> i > 0 && input[i - 1] == status && Skipped(input) == i - 1
      invariant !(status == STX || status == SOH) ==> Skipped(input) >= i
      decreases |port.input|
    {
      var b;
      ok, b := port.WaitForData(1);
      if !ok {
        return false, 0, [];
      }
      status := b[0];
      assert status == input[i];
      i := i + 1;
    }
    ghost var s := Skipped(input);
    var number, check;
    TakeAndDrop(port.input, 2);
    ok, number := port.WaitForData(2);
    if !ok {
      return false, 0, [];
    }
    var size := if status == STX then LONG else SHORT;
    TakeAndDrop(port.input, size);
    ok, data := port.WaitForData(size);
    if !ok {
      return false, 0, [];
    }
    TakeAndDrop(port.input, 2);
    ok, check := port.WaitForData(2);
    if !ok {
      return false, 0, [];
    }
    ghost var f := FrameParts(input, s, number, data, check, port.input);
    if !Complementary(number[0], number[1]) {
      return true, 0, data;
    }
    if expected != number[0] {
      return true, 0, data;
    }
    var crc := CrcCcitt(data);
    if check != CrcBytes(crc) {
      return true, 0, data;
    }
    n := size;
  }

  /** What is still to happen: from state s the rest of the input leads to the outcome of the whole. */
  ghost predicate SenderOnTrack(whole: (Sender, seq<bv8>), s: Sender, sent: seq<bv8>, rest: seq<bv8>) {
    SenderValid(s) && whole == (SenderRun(s, rest).0, sent + SenderRun(s, rest).1)
  }

  lemma SenderStep(whole: (Sender, seq<bv8>), s: Sender, sent: seq<bv8>, rest: seq<bv8>)
    requires SenderOnTrack(whole, s, sent, rest) && |rest| > 0
    ensures SenderOnTrack(whole, SenderHears(s, rest[0]).0, sent + SenderHears(s, rest[0]).1, rest[1..])
  {
    hide SenderHears, SenderValid;
    SenderStaysValid(s, rest[0]);
    var (s1, o) := SenderHears(s, rest[0]);
    assert sent + (o + SenderRun(s1, rest[1..]).1) == sent + o + SenderRun(s1, rest[1..]).1;
  }

  lemma {:induction false} FinishedSenderStays(s: Sender, input: seq<bv8>)
    requires SenderValid(s) && (s.phase == Sent || s.phase == Cancelled)
    ensures SenderRun(s, input) == (s, [])
    decreases |input|
  {
    if |input| > 0 {
      FinishedSenderStays(s, input[1..]);
      var none: seq<bv8> := [];
      assert SenderHears(s, input[0]) == (s, none) && none + none == none;
    }
  }

  /** The value returned by a sender that has finished. */
  function SenderResult(s: Sender): int {
    if s.phase == Cancelled then -1 else s.sentSize
  }

  /** Waits for one of the wanted bytes; the sender in state s ignores all others. */
  method AwaitCommand(port: Port, wanted: set<bv8>, ghost whole: (Sender, seq<bv8>), ghost s: Sender,
                      ghost sent: seq<bv8>)
    returns (ok: bool, cmd: bv8)
    requires SenderOnTrack(whole, s, sent, port.input)
    requires SenderValid(s) && forall b: bv8 :: b !in wanted ==> SenderHears(s, b) == (s, [])
    modifies port`input
    ensures !ok ==> whole == (s, sent)
    ensures ok ==> cmd in wanted && |port.input| < |old(port.input)|
    ensures ok ==> SenderOnTrack(whole, SenderHears(s, cmd).0, sent + SenderHears(s, cmd).1, port.input)
  {
    hide SenderOnTrack, SenderHears, SenderValid;
    while true
      invariant SenderOnTrack(whole, s, sent, port.input) && |port.input| <= |old(port.input)|
      decreases |port.input|
    {
      ghost var rest := port.input;
      SenderTrackEnds(whole, s, sent, rest);
      var b;
      ok, b := port.WaitForData(1);
      if !ok {
        return false, 0;
      }
      SenderStep(whole, s, sent, rest);
      cmd := b[0];
      if cmd in wanted {
        return true, cmd;
      }
      assert sent + [] == sent;
    }
  }

  /** The loop that sends one block until it is acknowledged; it returns the size the block has grown to. */
  method SendBlock(port: Port, dataBuf: seq<bv8>, size: nat, padSize: nat, blockNum: bv8, ghost t: Sender,
                   ghost whole: (Sender, seq<bv8>), ghost base: seq<bv8>, ghost written: seq<bv8>)
    returns (ok: bool, blockSize: nat, ghost t': Sender, ghost written': seq<bv8>)
    requires |dataBuf| == LONG && t.phase == AwaitingReply && t.blockSize == size && t.padSize == padSize
    requires t.dataBuf == dataBuf && t.blockNum == blockNum && port.output == base + written
    requires SenderOnTrack(whole, Transmit(t).0, written + Transmit(t).1, port.input)
    modifies port
    ensures port.output == base + written'
    ensures t' == t.(blockSize := blockSize)
    ensures !ok ==> whole == (t', written')
    ensures ok ==> blockSize >= size + padSize && |port.input| < |old(port.input)|
    ensures padSize == 0 ==> blockSize == size
    ensures ok ==> SenderOnTrack(whole, NextBlock(Acknowledged(t')).0, written' + NextBlock(Acknowledged(t')).1, port.input)
  {
    hide SenderOnTrack, NextBlock, FromBuffer, SenderHears;
    ok, blockSize := false, size;
    t', written' := t, written;
    while !ok
      invariant t' == t.(blockSize := blockSize) && port.output == base + written'
      invariant blockSize >= size && (padSize == 0 ==> blockSize == size)
      invariant |port.input| <= |old(port.input)|
      invariant !ok ==> SenderOnTrack(whole, Transmit(t').0, written' + Transmit(t').1, port.input)
      invariant ok ==> blockSize >= size + padSize && |port.input| < |old(port.input)|
      invariant ok ==> SenderOnTrack(whole, NextBlock(Acknowledged(t')).0, written' + NextBlock(Acknowledged(t')).1, port.input)
      decreases !ok, |port.input|
    {
      blockSize := blockSize + padSize;
      SendPacket(port, dataBuf, blockSize, blockNum);
      written' := written' + Transmit(t').1;
      t' := Transmit(t').0;
      HearsReply(t');
      var got, cmd := AwaitCommand(port, {ACK, NAK}, whole, t', written');
      if !got {
        return false, blockSize, t', written';
      }
      if cmd == ACK {
        ok := true;
      }
    }
  }

  /** The head of the sending loop: the next block is read and padded, unless reading fails. */
  method ReadBlock(flash: Flash, buf: seq<bv8>, size: nat, sentSize: nat, ghost pre: Sender)
    returns (ok: bool, dataBuf: seq<bv8>, blockSize: nat, padSize: nat, ghost t: Sender)
    requires SenderValid(pre) && pre.size == size && pre.sentSize == sentSize < size && pre.dataBuf == buf && |buf| == LONG
    requires pre.source == flash.mem[..] && flash.memAddr == sentSize
    modifies flash`memAddr
    ensures !ok ==> NextBlock(pre) == (pre.(phase := Cancelled), [CAN])
    ensures ok ==> |dataBuf| == LONG
                   && t == pre.(phase := AwaitingReply, blockSize := blockSize, padSize := padSize, dataBuf := dataBuf)
                   && NextBlock(pre) == Transmit(t)
    ensures ok ==> flash.memAddr == sentSize + blockSize <= size && (padSize == 0 || flash.memAddr == size)
  {
    hide FromBuffer, Filled, PadSize;
    blockSize := Minimum(LONG, size - sentSize);
    PaddedAtTheEnd(blockSize, size - sentSize);
    dataBuf, padSize, t := buf, PadSize(blockSize), pre;
    var failed, block := flash.GetData(blockSize);
    if failed < 0 {
      return false, dataBuf, blockSize, padSize, t;
    }
    assert block == pre.source[sentSize..sentSize + blockSize];
    dataBuf := Filled(dataBuf, block);
    t := pre.(phase := AwaitingReply, blockSize := blockSize, padSize := padSize, dataBuf := dataBuf);
    ok := true;
  }

  lemma NoMoreBlocks(s: Sender)
    requires SenderValid(s) && s.sentSize >= s.size
    ensures NextBlock(s) == (s.(phase := AwaitingEnd), [EOT])
  {
  }

  /** How the loop over the blocks ends. */
  datatype Progress = Waiting | SourceEnded | AllSent

  /** The loop over the blocks; the sender is at its head in state pre. */
  method SendBlocks(port: Port, size: nat, flash: Flash, buf: seq<bv8>, ghost start: Sender, ghost whole: (Sender, seq<bv8>))
    returns (p: Progress, sentSize: nat, ghost pre: Sender, ghost written: seq<bv8>)
    requires |buf| == LONG && flash.memAddr == 0 && start == NewSender(size, flash.mem[..], buf)
    requires SenderOnTrack(whole, NextBlock(start).0, NextBlock(start).1, port.input)
    modifies port, flash`memAddr
    ensures port.output == old(port.output) + written
    ensures p == Waiting ==> whole.1 == written && whole.0.phase == AwaitingReply
    ensures p == SourceEnded ==> whole == (pre.(phase := Cancelled), written)
    ensures p == AllSent ==> SenderValid(pre) && pre.sentSize == sentSize >= size == pre.size && flash.memAddr == size
                             && SenderOnTrack(whole, NextBlock(pre).0, written + NextBlock(pre).1, port.input)
  {
    hide FromBuffer, SenderRun, SenderOnTrack, SenderHears, NextBlock, Transmit;
    var dataBuf, blockNum := buf, 1 as bv8;
    p, sentSize, pre, written := AllSent, 0, start, [];
    assert [] + NextBlock(pre).1 == NextBlock(pre).1;
    while sentSize < size
      invariant SenderValid(pre) && pre.size == size && pre.source == flash.mem[..]
      invariant pre.sentSize == sentSize && pre.blockNum == blockNum && pre.dataBuf == dataBuf
      invariant port.output == old(port.output) + written
      invariant flash.memAddr == if sentSize < size then sentSize else size
      invariant SenderOnTrack(whole, NextBlock(pre).0, written + NextBlock(pre).1, port.input)
      decreases |port.input|
    {
      var ok, blockSize, padSize;
      ghost var t;
      ok, dataBuf, blockSize, padSize, t := ReadBlock(flash, dataBuf, size, sentSize, pre);
      if !ok {
        port.WriteBlock([CAN]);
        SenderTrackStays(whole, NextBlock(pre).0, written + [CAN], port.input);
        written := written + [CAN];
        return SourceEnded, sentSize, pre, written;
      }
      ok, blockSize, t, written :=
        SendBlock(port, dataBuf, blockSize, padSize, blockNum, t, whole, old(port.output), written);
      if !ok {
        return Waiting, sentSize, pre, written;
      }
      sentSize := sentSize + blockSize - padSize;
      blockNum := blockNum + 1;
      pre := Acknowledged(t);
    }
  }

  /**
   xmodem_sendData, reading from the flash. finished is false if the function is still waiting
   for the line when its input ends.
   */
  method SendData(port: Port, size: nat, flash: Flash, buf: seq<bv8>) returns (finished: bool, r: int)
    requires |buf| == LONG && flash.memAddr == 0
    modifies port, flash`memAddr
    ensures var (s, sent) := SenderRun(NewSender(size, flash.mem[..], buf), old(port.input));
            && port.output == old(port.output) + sent
            && finished == (s.phase == Sent || s.phase == Cancelled)
            && (finished ==> r == SenderResult(s))
    ensures finished && r != -1 ==> flash.memAddr == size
  {
    hide FromBuffer, SenderRun, SenderOnTrack, SenderHears, NextBlock, Transmit;
    ghost var start := NewSender(size, flash.mem[..], buf);
    ghost var whole := SenderRun(start, port.input);
    SenderTrackBegins(start, port.input);
    HearsStart(start);
    var started, _ := AwaitCommand(port, {START}, whole, start, []);
    if !started {
      return false, 0;
    }
    assert [] + NextBlock(start).1 == NextBlock(start).1;
    ghost var pre, written;
    var p;
    p, r, pre, written := SendBlocks(port, size, flash, buf, start, whole);
    if p == Waiting {
      return false, 0;
    }
    if p == SourceEnded {
      return true, -1;
    }
    NoMoreBlocks(pre);
    port.WriteBlock([EOT]);
    ghost var s := NextBlock(pre).0;
    HearsEnd(s);
    var ended, _ := AwaitCommand(port, {ACK}, whole, s, written + [EOT]);
    if !ended {
      return false, 0;
    }
    assert written + [EOT] + [] == written + [EOT];
    SenderTrackStays(whole, s.(phase := Sent), written + [EOT], port.input);
    finished := true;
  }

  /** Only the last block of a transfer is padded. */
  lemma PaddedAtTheEnd(blockSize: nat, remaining: nat)
    requires blockSize == Minimum(LONG, remaining)
    ensures PadSize(blockSize) == 0 || blockSize == remaining
  {
  }

  lemma SenderTrackBegins(s: Sender, input: seq<bv8>)
    requires SenderValid(s)
    ensures SenderOnTrack(SenderRun(s, input), s, [], input)
  {
    assert [] + SenderRun(s, input).1 == SenderRun(s, input).1;
  }

  lemma SenderTrackEnds(whole: (Sender, seq<bv8>), s: Sender, sent: seq<bv8>, rest: seq<bv8>)
    requires SenderOnTrack(whole, s, sent, rest)
    ensures SenderValid(s) && (rest == [] ==> whole == (s, sent))
  {
    assert sent + [] == sent;
  }

  lemma SenderTrackStays(whole: (Sender, seq<bv8>), s: Sender, sent: seq<bv8>, rest: seq<bv8>)
    requires SenderOnTrack(whole, s, sent, rest) && (s.phase == Sent || s.phase == Cancelled)
    ensures whole == (s, sent)
  {
    FinishedSenderStays(s, rest);
    assert sent + [] == sent;
  }

  // What the sender makes of one byte, phase by phase.

  lemma HearsStart(s: Sender)
    requires SenderValid(s) && s.phase == AwaitingStart
    ensures SenderHears(s, START) == NextBlock(s)
    ensures forall b: bv8 :: b !in {START} ==> SenderHears(s, b) == (s, [])
  {
    hide NextBlock;
  }

  lemma HearsReply(s: Sender)
    requires SenderValid(s) && s.phase == AwaitingReply
    ensures SenderHears(s, ACK) == NextBlock(Acknowledged(s)) && SenderHears(s, NAK) == Transmit(s)
    ensures forall b: bv8 :: b !in {ACK, NAK} ==> SenderHears(s, b) == (s, [])
  {
    hide NextBlock, Transmit;
  }

  lemma HearsEnd(s: Sender)
    requires SenderValid(s) && s.phase == AwaitingEnd
    ensures SenderHears(s, ACK) == (s.(phase := Sent), [])
    ensures forall b: bv8 :: b !in {ACK} ==> SenderHears(s, b) == (s, [])
  {
  }

  // The receiving end likewise.

  /** What the receiver makes of a frame. */
  lemma HearsBadFrame(r: Receiver, f: seq<bv8>)
    requires IsFrame(f) && r.rcvdSize <= r.size && Check(f, r.blockNum) == 0
    ensures ReceiverHears(r, f) == (r, NAK)
  {
    hide Check, Payload;
  }

  lemma HearsGoodFrame(r: Receiver, f: seq<bv8>, delta: nat)
    requires IsFrame(f) && r.rcvdSize < r.size && Check(f, r.blockNum) > 0
    requires delta == if Check(f, r.blockNum) < r.size - r.rcvdSize then Check(f, r.blockNum) else r.size - r.rcvdSize
    ensures 0 < delta <= |Payload(f)|
    ensures ReceiverHears(r, f)
            == (Receiver(if r.rcvdSize + delta < r.size then Receiving else Ending, r.size, r.rcvdSize + delta,
                         r.blockNum + 1, r.chunks + [Payload(f)[..delta]]), ACK)
  {
    hide Check, Payload;
  }

  ghost predicate ReceiverOnTrack(whole: (Receiver, seq<bv8>), r: Receiver, sent: seq<bv8>, rest: seq<bv8>) {
    r.rcvdSize <= r.size && whole == (ReceiverRun(r, rest).0, sent + ReceiverRun(r, rest).1)
  }

  lemma ReceiverStep(whole: (Receiver, seq<bv8>), r: Receiver, sent: seq<bv8>, rest: seq<bv8>)
    requires ReceiverOnTrack(whole, r, sent, rest) && r.phase == Receiving
    ensures FrameEnd(rest) == 0 ==> whole == (r, sent)
    ensures var e := FrameEnd(rest);
            e > 0 ==> var (r', reply) := ReceiverHears(r, rest[Skipped(rest)..e]);
                      ReceiverOnTrack(whole, r', sent + [reply], rest[e..])
  {
    hide ReceiverHears;
    var e := FrameEnd(rest);
    if e > 0 {
      var (r', reply) := ReceiverHears(r, rest[Skipped(rest)..e]);
      ReceiverCounts(r, rest[Skipped(rest)..e]);
      assert sent + ([reply] + ReceiverRun(r', rest[e..]).1) == sent + [reply] + ReceiverRun(r', rest[e..]).1;
    } else {
      assert sent + [] == sent;
    }
  }

  lemma ReceiverCounts(r: Receiver, f: seq<bv8>)
    requires IsFrame(f) && r.rcvdSize <= r.size
    ensures ReceiverHears(r, f).0.rcvdSize <= ReceiverHears(r, f).0.size == r.size
  {
    hide Check;
  }

  lemma ReceiverTrackBegins(r: Receiver, input: seq<bv8>)
    requires r.rcvdSize <= r.size
    ensures ReceiverOnTrack(ReceiverRun(r, input), r, [], input)
  {
    assert [] + ReceiverRun(r, input).1 == ReceiverRun(r, input).1;
  }

  /** What the receiving loop does with a frame: a bad one is refused, a good one written to the flash. */
  method HandleFrame(flash: Flash, size: nat, rcvd: nat, number: bv8, blockSize: nat, data: seq<bv8>, ghost f: seq<bv8>,
                     ghost past: seq<seq<bv8>>, ghost was: seq<bv8>)
    returns (command: bv8, rcvdSize: nat, blockNum: bv8, ghost chunks: seq<seq<bv8>>)
    requires IsFrame(f) && blockSize == Check(f, number) && data == Payload(f)
    requires flash.memAddr == rcvd == |Flat(past)| < size <= flash.mem.Length && flash.mem.Length % SECTOR == 0
    requires flash.mem[..] == BlocksWritten(was, past)
    modifies flash`memAddr, flash.mem
    ensures flash.memAddr == rcvdSize == |Flat(chunks)| <= size && flash.mem[..] == BlocksWritten(was, chunks)
    ensures ReceiverHears(Receiver(Receiving, size, rcvd, number, past), f)
            == (Receiver(if rcvdSize < size then Receiving else Ending, size, rcvdSize, blockNum, chunks), command)
  {
    hide Check, Payload, IsFrame, ReceiverHears, Flat, BlocksWritten, BlockWritten;
    command, rcvdSize, blockNum, chunks := NAK, rcvd, number, past;
    if blockSize == 0 {
      HearsBadFrame(Receiver(Receiving, size, rcvd, number, past), f);
    } else {
      var delta := size - rcvdSize;
      if blockSize < delta {
        delta := blockSize;
      }
      HearsGoodFrame(Receiver(Receiving, size, rcvd, number, past), f, delta);
      OneMoreBlock(was, past, data[..delta]);
      flash.WriteData(data[..delta]);
      chunks := chunks + [data[..delta]];
      rcvdSize := rcvdSize + delta;
      blockNum := blockNum + 1;
      command := ACK;
    }
  }

  /** xmodem_receiveData, writing to the flash block by block. */
  method ReceiveData(port: Port, size: nat, flash: Flash) returns (finished: bool, rcvdSize: nat)
    requires flash.memAddr == 0 && size <= flash.mem.Length && flash.mem.Length % SECTOR == 0
    modifies port, flash`memAddr, flash.mem
    ensures var (r, sent) := ReceiverRun(NewReceiver(size), old(port.input));
            && port.output == old(port.output) + [START] + sent
            && finished == (r.phase == Received) && rcvdSize == r.rcvdSize == flash.memAddr
            && flash.mem[..] == BlocksWritten(old(flash.mem[..]), r.chunks)
  {
    hide ReceiverRun, ReceiverOnTrack, ReceiverHears, Check, Payload, FrameEnd, Skipped, IsFrame, BlocksWritten, Flat;
    ghost var whole, was := ReceiverRun(NewReceiver(size), port.input), flash.mem[..];
    ghost var sent: seq<bv8>, chunks: seq<seq<bv8>> := [], [];
    ReceiverTrackBegins(NewReceiver(size), port.input);
    NoBlocks(was);
    var blockNum := 1 as bv8;
    rcvdSize := 0;
    port.WriteBlock([START]);
    while rcvdSize < size
      invariant rcvdSize <= size && flash.memAddr == rcvdSize == |Flat(chunks)|
      invariant port.output == old(port.output) + [START] + sent
      invariant flash.mem[..] == BlocksWritten(was, chunks)
      invariant ReceiverOnTrack(whole, Receiver(if rcvdSize < size then Receiving else Ending, size, rcvdSize, blockNum, chunks),
                                sent, port.input)
      decreases |port.input|
    {
      ghost var input := port.input;
      ReceiverStep(whole, Receiver(Receiving, size, rcvdSize, blockNum, chunks), sent, input);
      var ok, blockSize, data := ReceivePacket(port, blockNum);
      if !ok {
        return false, rcvdSize;
      }
      var command;
      command, rcvdSize, blockNum, chunks :=
        HandleFrame(flash, size, rcvdSize, blockNum, blockSize, data, input[Skipped(input)..FrameEnd(input)], chunks, was);
      port.WriteBlock([command]);
      sent := sent + [command];
    }
    EndingRun(whole, Receiver(Ending, size, rcvdSize, blockNum, chunks), sent, port.input);
    finished := AwaitEnd(port);
  }

  /** Waits for the end of the transmission and acknowledges it. */
  method AwaitEnd(port: Port) returns (ok: bool)
    modifies port
    ensures ok <==> EOT in old(port.input)
    ensures port.output == old(port.output) + if ok then [ACK] else []
  {
    var status: bv8 := 0;
    while status != EOT
      invariant port.output == old(port.output)
      invariant if status == EOT then EOT in old(port.input) else (EOT in old(port.input) <==> EOT in port.input)
      decreases |port.input|
    {
      ghost var before := port.input;
      var b;
      ok, b := port.WaitForData(1);
      if !ok {
        return false;
      }
      status := b[0];
      assert before == b + port.input;
    }
    port.WriteBlock([ACK]);
    ok := true;
  }

  lemma EndingRun(whole: (Receiver, seq<bv8>), r: Receiver, sent: seq<bv8>, rest: seq<bv8>)
    requires ReceiverOnTrack(whole, r, sent, rest) && r.phase == Ending
    ensures whole == if EOT in rest then (r.(phase := Received), sent + [ACK]) else (r, sent)
  {
    assert sent + [] == sent;
  }
}
