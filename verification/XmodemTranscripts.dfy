/** What goes over the line, byte by byte: XMODEM with CRC and blocks of 128 or 1024 bytes, as a terminal program knows it. */
module XmodemTranscripts {
  import opened Crc
  import opened Xmodem

  /** A packet: 01 for 128 bytes or 02 for 1024, the number and its complement to 255, the data, the CRC with its high byte first. */
  lemma PacketBytes(data: seq<bv8>, n: bv8)
    ensures |data| == 128 ==> OnTheLine(data, n) == [0x01, n, 255 - n] + data + CrcOf(data)
    ensures |data| == 1024 ==> OnTheLine(data, n) == [0x02, n, 255 - n] + data + CrcOf(data)
    ensures |data| != 128 && |data| != 1024 ==> OnTheLine(data, n) == []
  {
    Complement(n);
    CrcOfIs(data);
    hide Ccitt, CrcOf, CrcBytes;
  }

  lemma CrcOfIs(data: seq<bv8>)
    ensures CrcBytes(Ccitt(data)) == CrcOf(data)
  {
    hide BitCrc, MessageBits;
    HalvesAre(BitCrc(0, POLY_CCITT, MessageBits(data)));
  }

  lemma HalvesAre(r: bv16)
    ensures CrcBytes(r) == [(r >> 8) as bv8, (r & 0xFF) as bv8]
  {
  }

  /** The two bytes of the bitwise CRC of generator 0x1021. */
  function CrcOf(data: seq<bv8>): seq<bv8> {
    [(BitCrc(0, 0x1021, MessageBits(data)) >> 8) as bv8, (BitCrc(0, 0x1021, MessageBits(data)) & 0xFF) as bv8]
  }

  lemma Complement(n: bv8)
    ensures Inverted(n) == 255 - n
  {
  }

  /** A block as it is sent: filled up with 1A to 128 bytes if it is shorter, and else to 1024. */
  function Filler(n: nat): (r: seq<bv8>)
    ensures |r| == n
  {
    seq(n, _ => 0x1A)
  }

  function Sent(block: seq<bv8>): seq<bv8>
    requires |block| <= 1024
  {
    if |block| < 128 then block + Filler(128 - |block|) else block + Filler(1024 - |block|)
  }

  /** On 43 the first block is sent with number 1, on the 06 that answers it 04, and the 06 that answers that ends the transfer. */
  lemma OneBlockIsSent(source: seq<bv8>, buf: seq<bv8>)
    requires |buf| == 1024 && 0 < |source| <= 1024
    ensures var (s, output) := SenderRun(NewSender(|source|, source, buf), [0x43, 0x06, 0x06]);
            output == OnTheLine(Sent(source), 1) + [0x04] && SenderResult(s) == |source| && s.phase == SenderPhase.Sent
  {
    FirstBlock(source, buf);
    var s := NextBlock(NewSender(|source|, source, buf)).0;
    RunOfThree(NewSender(|source|, source, buf), 0x43, 0x06, 0x06);
    hide OnTheLine, Xmodem.Padding, Filled, SenderRun;
  }

  lemma FirstBlock(source: seq<bv8>, buf: seq<bv8>)
    requires |buf| == 1024 && 0 < |source| <= 1024
    ensures var (s, output) := NextBlock(NewSender(|source|, source, buf));
            && output == OnTheLine(Sent(source), 1) && s.phase == AwaitingReply && |s.dataBuf| == 1024
            && s.blockSize == |Sent(source)| && s.padSize == |Sent(source)| - |source| && s.sentSize == 0 && s.size == |source|
  {
    hide OnTheLine;
    assert source[0..|source|] == source;
    Fillings(|source|);
    assert Filled(buf, source)[..|Sent(source)|] == Sent(source);
  }

  lemma Fillings(n: nat)
    ensures n < 128 ==> Xmodem.Padding(PadSize(n)) == Filler(128 - n)
    ensures 128 <= n <= 1024 ==> Xmodem.Padding(PadSize(n)) == Filler(1024 - n)
  {
  }

  lemma RunOfThree(s: Sender, a: bv8, b: bv8, c: bv8)
    requires SenderValid(s)
    ensures SenderValid(SenderHears(s, a).0) && SenderValid(SenderHears(SenderHears(s, a).0, b).0)
    ensures var (s1, x) := SenderHears(s, a);
            var (s2, y) := SenderHears(s1, b);
            var (s3, z) := SenderHears(s2, c);
            SenderRun(s, [a, b, c]) == (s3, x + y + z)
  {
    hide SenderHears, SenderRun;
    SenderStaysValid(s, a);
    SenderStaysValid(SenderHears(s, a).0, b);
    var s1 := SenderHears(s, a).0;
    var s2 := SenderHears(s1, b).0;
    SenderStaysValid(s2, c);
    RunStep(s, a, [b, c]);
    RunStep(s1, b, [c]);
    RunStep(s2, c, []);
    assert [a] + [b, c] == [a, b, c] && [b] + [c] == [b, c] && [c] + [] == [c];
    NoInput(SenderHears(s2, c).0);
    var x, y, z := SenderHears(s, a).1, SenderHears(s1, b).1, SenderHears(s2, c).1;
    assert x + (y + (z + [])) == x + y + z;
  }

  lemma RunStep(s: Sender, b: bv8, rest: seq<bv8>)
    requires SenderValid(s)
    ensures SenderValid(SenderHears(s, b).0)
    ensures SenderRun(s, [b] + rest)
            == (SenderRun(SenderHears(s, b).0, rest).0, SenderHears(s, b).1 + SenderRun(SenderHears(s, b).0, rest).1)
  {
    hide SenderHears;
    SenderStaysValid(s, b);
    assert ([b] + rest)[1..] == rest;
  }

  lemma NoInput(s: Sender)
    requires SenderValid(s)
    ensures SenderRun(s, []) == (s, [])
  {
  }

  /** If the source cannot deliver, 18 is sent, and the result is -1. */
  lemma FailureIsSent(size: nat, source: seq<bv8>, buf: seq<bv8>)
    requires |buf| == 1024 && size > |source| && 1024 > |source|
    ensures var (s, output) := SenderRun(NewSender(size, source, buf), [0x43]);
            output == [0x18] && SenderResult(s) == -1
  {
    var s := NewSender(size, source, buf);
    RunStep(s, 0x43, []);
    NoInput(SenderHears(s, 0x43).0);
    assert [0x43 as bv8] + [] == [0x43];
    hide SenderRun;
  }

  /** Before the first block only 43 counts, after a block only 06 and 15, which asks for it again, and after the 04 only 06. */
  lemma OthersAreIgnored(s: Sender, b: bv8)
    requires SenderValid(s)
    ensures s.phase == AwaitingStart && b != 0x43 ==> SenderHears(s, b) == (s, [])
    ensures s.phase == AwaitingReply && b != 0x06 && b != 0x15 ==> SenderHears(s, b) == (s, [])
    ensures s.phase == AwaitingEnd && b != 0x06 ==> SenderHears(s, b) == (s, [])
    ensures s.phase == AwaitingReply && b == 0x15 && s.padSize == 0 && s.blockSize <= 1024 ==>
              SenderHears(s, b) == (s, OnTheLine(s.dataBuf[..s.blockSize], s.blockNum))
  {
    hide OnTheLine;
  }

  /** A good packet is answered with 06, and so is the 04 that ends the transfer; before them 43 asks for it. */
  lemma OneBlockIsReceived(data: seq<bv8>, size: nat)
    requires (|data| == 128 || |data| == 1024) && 0 < size <= |data|
    ensures var (r, replies) := ReceiverRun(NewReceiver(size), OnTheLine(data, 1) + [0x04]);
            [START] + replies == [0x43, 0x06, 0x06] && r.phase == Received && r.chunks == [data[..size]] && r.rcvdSize == size
  {
    var f := OnTheLine(data, 1);
    FrameOf(data, 1);
    hide OnTheLine, Check, Payload;
    FirstFrame(f, [0x04]);
    var r := NewReceiver(size);
    var r1 := ReceiverHears(r, f).0;
    assert (f + [0x04])[|f|..] == [0x04];
    assert ReceiverRun(r1, [0x04]) == (r1.(phase := Received), [ACK]);
  }

  /** One with another number is answered with 15. */
  lemma OtherNumberIsRefused(data: seq<bv8>, n: bv8, size: nat)
    requires (|data| == 128 || |data| == 1024) && 0 < size && n != 1
    ensures var (r, replies) := ReceiverRun(NewReceiver(size), OnTheLine(data, n));
            replies == [0x15] && r == NewReceiver(size)
  {
    var f := OnTheLine(data, n);
    FrameOf(data, n);
    hide OnTheLine, Check, Payload;
    FirstFrame(f, []);
    assert f + [] == f && f[|f|..] == [];
    assert FrameEnd([]) == 0;
  }

  lemma FrameOf(data: seq<bv8>, n: bv8)
    requires |data| == 128 || |data| == 1024
    ensures var f := OnTheLine(data, n);
            && IsFrame(f) && Payload(f) == data
            && Check(f, 1) == if n == 1 then |data| else 0
  {
    hide Ccitt;
    var f := OnTheLine(data, n);
    Complement(n);
    Pairs(n);
    assert Payload(f) == data;
    assert CheckBytes(f) == CrcBytes(Ccitt(data));
  }

  lemma Pairs(n: bv8)
    ensures Complementary(n, Inverted(n))
  {
  }

  lemma FirstFrame(f: seq<bv8>, rest: seq<bv8>)
    requires IsFrame(f)
    ensures Skipped(f + rest) == 0 && FrameEnd(f + rest) == |f| && (f + rest)[0..|f|] == f
  {
  }
}
