/**
 The two ends of an XMODEM transfer joined by a line that may damage packets in a way the receiver
 notices. Control bytes arrive as sent; nothing is lost or held up for good.
 */
module XmodemLink {
  import opened FlashMemory
  import opened Xmodem

  // ---------------------------------------------------------------- the joined system

  datatype Link = Link(sender: Sender, receiver: Receiver, toReceiver: seq<seq<bv8>>, toSender: seq<bv8>)

  /** The next byte reaches the sender, or the next message reaches the receiver as got. */
  datatype Move = ToSender | ToReceiver(got: seq<bv8>)

  function Begin(size: nat, source: seq<bv8>, buf: seq<bv8>): Link
    requires |buf| == LONG
  {
    Link(NewSender(size, source, buf), NewReceiver(size), [], [START])
  }

  /** A packet may arrive as any frame of the same kind that the receiver refuses. */
  predicate DamagedTo(sent: seq<bv8>, got: seq<bv8>, expected: bv8) {
    IsFrame(sent) && IsFrame(got) && got[0] == sent[0] && got != sent && Check(got, expected) == 0
  }

  predicate Allowed(l: Link, m: Move) {
    match m
    case ToSender => |l.toSender| > 0
    case ToReceiver(got) =>
      |l.toReceiver| > 0 && (got == l.toReceiver[0] || DamagedTo(l.toReceiver[0], got, l.receiver.blockNum))
  }

  predicate IsDamage(l: Link, m: Move) {
    m.ToReceiver? && |l.toReceiver| > 0 && m.got != l.toReceiver[0]
  }

  function Message(bytes: seq<bv8>): seq<seq<bv8>> {
    if |bytes| == 0 then [] else [bytes]
  }

  predicate Coherent(l: Link) {
    SenderValid(l.sender) && l.receiver.rcvdSize <= l.receiver.size
  }

  function SenderTurn(l: Link): Link
    requires Coherent(l) && |l.toSender| > 0
  {
    var (s, sent) := SenderHears(l.sender, l.toSender[0]);
    Link(s, l.receiver, l.toReceiver + Message(sent), l.toSender[1..])
  }

  function ReceiverTurn(l: Link, got: seq<bv8>): Link
    requires Coherent(l) && |l.toReceiver| > 0
  {
    var (r, replies) := ReceiverRun(l.receiver, got);
    Link(l.sender, r, l.toReceiver[1..], l.toSender + replies)
  }

  function After(l: Link, m: Move): Link
    requires Coherent(l) && Allowed(l, m)
  {
    match m
    case ToSender => SenderTurn(l)
    case ToReceiver(got) => ReceiverTurn(l, got)
  }

  lemma {:induction false} ReceiverRunCounts(r: Receiver, input: seq<bv8>)
    requires r.rcvdSize <= r.size
    ensures ReceiverRun(r, input).0.rcvdSize <= ReceiverRun(r, input).0.size == r.size
    decreases |input|
  {
    var e := FrameEnd(input);
    if r.phase == Receiving && e > 0 {
      ReceiverCounts(r, input[Skipped(input)..e]);
      hide ReceiverHears;
      ReceiverRunCounts(ReceiverHears(r, input[Skipped(input)..e]).0, input[e..]);
    }
  }

  lemma AfterIsCoherent(l: Link, m: Move)
    requires Coherent(l) && Allowed(l, m)
    ensures Coherent(After(l, m))
  {
    hide SenderHears, ReceiverRun, SenderValid;
    match m
    case ToSender => SenderStaysValid(l.sender, l.toSender[0]);
    case ToReceiver(got) => ReceiverRunCounts(l.receiver, got);
  }

  /** The state after a run; a move that is not possible when its turn comes is passed over. */
  function Play(l: Link, moves: seq<Move>): (l': Link)
    requires Coherent(l)
    ensures Coherent(l')
  {
    if |moves| == 0 then l
    else
      var now := Play(l, moves[..|moves| - 1]);
      var m := moves[|moves| - 1];
      if Allowed(now, m) then AfterIsCoherent(now, m); After(now, m) else now
  }

  ghost predicate Settled(l: Link) {
    forall m :: !Allowed(l, m)
  }

  predicate Done(l: Link) {
    l.sender.phase == Sent && l.receiver.phase == Received
  }

  // ---------------------------------------------------------------- the invariant

  /** The block at p, and the same block padded. */
  function BlockAt(source: seq<bv8>, size: nat, p: nat): seq<bv8>
    requires p <= size && p + Minimum(LONG, size - p) <= |source|
  {
    source[p..p + Minimum(LONG, size - p)]
  }

  function Padded(block: seq<bv8>): (r: seq<bv8>)
    requires |block| <= LONG
    ensures |r| == SHORT || |r| == LONG
  {
    block + Padding(PadSize(|block|))
  }

  function Position(k: nat, size: nat): nat {
    Minimum(LONG * k, size)
  }

  /** The chunks are the first blocks of the source, one after the other. */
  ghost predicate Delivered(chunks: seq<seq<bv8>>, size: nat, source: seq<bv8>) {
    && Position(|chunks|, size) <= |source|
    && (|chunks| > 0 ==> LONG * (|chunks| - 1) < size)
    && forall i | 0 <= i < |chunks| :: chunks[i] == source[LONG * i..Position(i + 1, size)]
  }

  /** The sender waits with the block at p, which it has sent once or that needs no padding. */
  predicate Holding(s: Sender, p: nat) {
    && s.phase == AwaitingReply && s.sentSize == p < s.size
    && p + Minimum(LONG, s.size - p) <= |s.source|
    && var block := BlockAt(s.source, s.size, p);
       && s.padSize == PadSize(|block|) && s.blockSize == |Padded(block)|
       && |s.dataBuf| == LONG && s.dataBuf[..s.blockSize] == Padded(block)
  }

  /** Where the two ends are, by what is on its way. */
  predicate Starting(l: Link) {
    |l.sender.dataBuf| == LONG && l == Begin(l.sender.size, l.sender.source, l.sender.dataBuf)
  }

  predicate PacketOnItsWay(l: Link) {
    && Holding(l.sender, l.receiver.rcvdSize) && l.sender.blockNum == l.receiver.blockNum
    && l.receiver.phase == Receiving && l.toSender == []
    && l.toReceiver == [Packet(l.sender.dataBuf[..l.sender.blockSize], l.sender.blockNum)]
  }

  predicate NakOnItsWay(l: Link) {
    && Holding(l.sender, l.receiver.rcvdSize) && l.sender.blockNum == l.receiver.blockNum
    && l.receiver.phase == Receiving && l.toSender == [NAK] && l.toReceiver == []
  }

  /** A padded block was to be sent again: its size had grown and no packet was sent. */
  predicate Starved(l: Link) {
    && l.sender.phase == AwaitingReply && l.sender.padSize > 0 && l.receiver.phase == Receiving
    && l.toSender == [] && l.toReceiver == []
  }

  predicate AckOnItsWay(l: Link) {
    && l.sender.sentSize < l.receiver.rcvdSize == Position(|l.receiver.chunks|, l.sender.size)
    && l.receiver.phase != Received
    && |l.receiver.chunks| > 0 && l.sender.sentSize == LONG * (|l.receiver.chunks| - 1)
    && Holding(l.sender, l.sender.sentSize) && l.receiver.blockNum == l.sender.blockNum + 1
    && l.toSender == [ACK] && l.toReceiver == []
  }

  predicate EndOnItsWay(l: Link) {
    && l.sender.phase == AwaitingEnd && l.sender.sentSize == l.sender.size == l.receiver.rcvdSize
    && ((l.receiver.phase == Ending && l.toReceiver == [[EOT]] && l.toSender == [])
        || (l.receiver.phase == Received && l.toReceiver == [] && l.toSender == [ACK]))
  }

  predicate BothDone(l: Link) {
    && Done(l) && l.sender.sentSize == l.sender.size == l.receiver.rcvdSize && l.toReceiver == [] && l.toSender == []
  }

  predicate SourceFailed(l: Link) {
    && l.sender.phase == Cancelled && l.sender.size > |l.sender.source| && l.receiver.phase == Receiving
    && l.receiver.rcvdSize < l.sender.size && l.toSender == [] && (l.toReceiver == [] || l.toReceiver == [[CAN]])
  }

  ghost predicate Inv(l: Link) {
    && Coherent(l) && l.receiver.size == l.sender.size
    && Delivered(l.receiver.chunks, l.sender.size, l.sender.source)
    && l.receiver.rcvdSize == Position(|l.receiver.chunks|, l.sender.size)
    && (l.receiver.phase == Receiving <==> l.receiver.rcvdSize < l.sender.size)
    && (Starting(l) || PacketOnItsWay(l) || NakOnItsWay(l) || Starved(l) || AckOnItsWay(l) || EndOnItsWay(l) || BothDone(l)
        || SourceFailed(l))
  }

  // ---------------------------------------------------------------- every step keeps it

  lemma RunOnFrame(r: Receiver, f: seq<bv8>)
    requires IsFrame(f) && r.rcvdSize <= r.size && r.phase == Receiving
    ensures ReceiverRun(r, f) == (ReceiverHears(r, f).0, [ReceiverHears(r, f).1])
  {
    hide ReceiverHears;
    ReceiverCounts(r, f);
    assert FrameEnd(f) == |f| && f[0..|f|] == f;
    var (r1, reply) := ReceiverHears(r, f);
    var none: seq<bv8> := f[|f|..];
    assert none == [] && FrameEnd(none) == 0 && ReceiverRun(r1, none) == (r1, []);
    assert [reply] + [] == [reply];
  }

  lemma RunOnByte(r: Receiver, b: bv8)
    requires r.rcvdSize <= r.size
    ensures r.phase == Ending && b == EOT ==> ReceiverRun(r, [b]) == (r.(phase := Received), [ACK])
    ensures r.phase == Receiving && b == CAN ==> ReceiverRun(r, [b]) == (r, [])
  {
    if b == CAN {
      assert [b][0] == CAN && [b][1..] == [] && Skipped([b][1..]) == 0;
      assert Skipped([b]) == 1;
    }
  }

  lemma FilledHolds(buf: seq<bv8>, block: seq<bv8>)
    requires |buf| == LONG && |block| <= LONG
    ensures Filled(buf, block)[..|Padded(block)|] == Padded(block)
  {
  }

  /** From the head of the sending loop, with both ends at the same block. */
  lemma NextBlockKeeps(s: Sender, r: Receiver)
    requires |s.dataBuf| == LONG && r.size == s.size && s.sentSize == r.rcvdSize && s.blockNum == r.blockNum
    requires Delivered(r.chunks, s.size, s.source) && r.rcvdSize == Position(|r.chunks|, s.size)
    requires r.phase == if r.rcvdSize < s.size then Receiving else Ending
    ensures Inv(Link(NextBlock(s).0, r, Message(NextBlock(s).1), []))
    ensures s.sentSize < s.size <= |s.source| ==> PacketOnItsWay(Link(NextBlock(s).0, r, Message(NextBlock(s).1), []))
  {
    hide Delivered, Packet, PadSize, Padding;
    if s.sentSize < s.size {
      var p, n := s.sentSize, Minimum(LONG, s.size - s.sentSize);
      if p + n <= |s.source| {
        var block := BlockAt(s.source, s.size, p);
        FilledHolds(s.dataBuf, block);
      }
    }
  }

  lemma StartKeeps(l: Link)
    requires Inv(l) && Starting(l)
    ensures Inv(SenderTurn(l)) && SenderTurn(l).receiver == l.receiver && SenderTurn(l).sender == NextBlock(l.sender).0
    ensures SenderTurn(l).toSender == []
    ensures 0 < l.sender.size <= |l.sender.source| ==> PacketOnItsWay(SenderTurn(l))
  {
    hide Delivered, NextBlock;
    NextBlockKeeps(l.sender, l.receiver);
    assert l.toReceiver + Message(NextBlock(l.sender).1) == Message(NextBlock(l.sender).1);
  }

  lemma NakKeeps(l: Link)
    requires Inv(l) && NakOnItsWay(l)
    ensures Inv(SenderTurn(l)) && SenderTurn(l).receiver == l.receiver
    ensures SenderTurn(l).sender == Transmit(l.sender).0
    ensures if l.sender.padSize == 0 then PacketOnItsWay(SenderTurn(l)) else Starved(SenderTurn(l))
  {
    hide Delivered, Packet;
    var s := l.sender;
    assert SenderHears(s, NAK) == Transmit(s);
    assert l.toReceiver + Message(Transmit(s).1) == Message(Transmit(s).1);
  }

  lemma AckKeeps(l: Link)
    requires Inv(l) && AckOnItsWay(l)
    ensures Inv(SenderTurn(l)) && SenderTurn(l).receiver == l.receiver
    ensures SenderTurn(l).sender == NextBlock(Acknowledged(l.sender)).0 && SenderTurn(l).toSender == []
    ensures l.receiver.rcvdSize < l.sender.size <= |l.sender.source| ==> PacketOnItsWay(SenderTurn(l))
    ensures Acknowledged(l.sender).sentSize == l.receiver.rcvdSize
  {
    hide Delivered, NextBlock, Padding;
    var s := Acknowledged(l.sender);
    assert SenderHears(l.sender, ACK) == NextBlock(s);
    NextBlockKeeps(s, l.receiver);
    assert l.toReceiver + Message(NextBlock(s).1) == Message(NextBlock(s).1);
  }

  lemma EndKeeps(l: Link, m: Move)
    requires Inv(l) && EndOnItsWay(l) && Allowed(l, m)
    ensures Inv(After(l, m)) && !IsDamage(l, m)
  {
    hide Delivered, ReceiverRun, Check;
    if l.toSender == [] {
      assert !IsFrame([EOT]);
      RunOnByte(l.receiver, EOT);
      assert [] + [ACK] == [ACK];
    } else {
      assert SenderHears(l.sender, ACK) == (l.sender.(phase := Sent), []);
      assert l.toReceiver + Message([]) == [];
    }
  }

  lemma CancelKeeps(l: Link, m: Move)
    requires Inv(l) && SourceFailed(l) && Allowed(l, m)
    ensures Inv(After(l, m)) && SourceFailed(After(l, m)) && !IsDamage(l, m)
  {
    hide Delivered, ReceiverRun, Check;
    assert !IsFrame([CAN]);
    RunOnByte(l.receiver, CAN);
  }

  lemma DamageKeeps(l: Link, got: seq<bv8>)
    requires Inv(l) && PacketOnItsWay(l) && DamagedTo(l.toReceiver[0], got, l.receiver.blockNum)
    ensures Inv(ReceiverTurn(l, got)) && NakOnItsWay(ReceiverTurn(l, got))
    ensures ReceiverTurn(l, got).sender == l.sender && ReceiverTurn(l, got).receiver == l.receiver
  {
    hide Delivered, Packet, Holding, ReceiverRun, Check;
    RunOnFrame(l.receiver, got);
    assert ReceiverHears(l.receiver, got) == (l.receiver, NAK);
    assert [] + [NAK] == [NAK];
  }

  /** The padded block shortened to what is still missing is the block itself. */
  lemma BlockArrives(s: Sender, p: nat, k: nat)
    requires Holding(s, p) && p == Position(k, s.size)
    ensures var delta := Minimum(s.blockSize, s.size - p);
            && p + delta == Position(k + 1, s.size) <= |s.source| && p == LONG * k
            && s.dataBuf[..s.blockSize][..delta] == s.source[LONG * k..Position(k + 1, s.size)]
  {
    hide Padding;
  }

  lemma DeliverOne(chunks: seq<seq<bv8>>, size: nat, source: seq<bv8>, chunk: seq<bv8>)
    requires Delivered(chunks, size, source) && LONG * |chunks| < size
    requires LONG * |chunks| <= Position(|chunks| + 1, size) <= |source|
    requires chunk == source[LONG * |chunks|..Position(|chunks| + 1, size)]
    ensures Delivered(chunks + [chunk], size, source)
  {
  }

  /** The receiver after the packet that the sender holds. */
  lemma PacketHeard(s: Sender, r: Receiver)
    requires Holding(s, r.rcvdSize) && s.blockNum == r.blockNum && r.size == s.size && r.rcvdSize == Position(|r.chunks|, s.size)
    ensures var data, k := s.dataBuf[..s.blockSize], |r.chunks|;
            && IsFrame(Packet(data, s.blockNum)) && LONG * k <= Position(k + 1, s.size) <= |s.source|
            && ReceiverHears(r, Packet(data, s.blockNum))
               == (Receiver(if Position(k + 1, s.size) < s.size then Receiving else Ending, s.size, Position(k + 1, s.size),
                            r.blockNum + 1, r.chunks + [s.source[LONG * k..Position(k + 1, s.size)]]), ACK)
  {
    hide *;
    HeldSize(s, r.rcvdSize);
    var data := s.dataBuf[..s.blockSize];
    PacketIsAccepted(data, s.blockNum, r.blockNum);
    BlockArrives(s, r.rcvdSize, |r.chunks|);
    GoodFrameHeard(r, Packet(data, s.blockNum), s.blockSize);
  }

  lemma GoodFrameHeard(r: Receiver, f: seq<bv8>, n: nat)
    requires IsFrame(f) && r.rcvdSize < r.size && Check(f, r.blockNum) == n == |Payload(f)| > 0
    ensures var delta := Minimum(n, r.size - r.rcvdSize);
            ReceiverHears(r, f)
            == (Receiver(if r.rcvdSize + delta < r.size then Receiving else Ending, r.size, r.rcvdSize + delta,
                         r.blockNum + 1, r.chunks + [Payload(f)[..delta]]), ACK)
  {
    hide Check, Payload;
  }

  lemma PacketKeeps(l: Link)
    requires Inv(l) && PacketOnItsWay(l)
    ensures Inv(ReceiverTurn(l, l.toReceiver[0])) && AckOnItsWay(ReceiverTurn(l, l.toReceiver[0]))
    ensures ReceiverTurn(l, l.toReceiver[0]).sender == l.sender
    ensures |ReceiverTurn(l, l.toReceiver[0]).receiver.chunks| == |l.receiver.chunks| + 1
  {
    hide Delivered, Packet, Holding, ReceiverRun, ReceiverHears;
    var s, r, f := l.sender, l.receiver, l.toReceiver[0];
    HeldSize(s, r.rcvdSize);
    PacketHeard(s, r);
    RunOnFrame(r, f);
    HeldPosition(s, r.rcvdSize, |r.chunks|);
    DeliverOne(r.chunks, s.size, s.source, s.source[LONG * |r.chunks|..Position(|r.chunks| + 1, s.size)]);
    assert [] + [ACK] == [ACK];
  }

  lemma HeldPosition(s: Sender, p: nat, k: nat)
    requires Holding(s, p) && p == Position(k, s.size)
    ensures p == LONG * k < Position(k + 1, s.size)
  {
  }

  lemma HeldSize(s: Sender, p: nat)
    requires Holding(s, p)
    ensures |s.dataBuf| == LONG && (s.blockSize == SHORT || s.blockSize == LONG) && p == s.sentSize < s.size
    ensures 0 < s.blockSize <= |s.dataBuf| && s.phase == AwaitingReply
  {
  }

  /** Every step from a state with the invariant leads to one with the invariant. */
  lemma StepKeepsInv(l: Link, m: Move)
    requires Inv(l) && Allowed(l, m)
    ensures Inv(After(l, m))
  {
    hide Inv, SenderTurn, ReceiverTurn, DamagedTo, Holding, Packet;
    Cases(l);
    if Starting(l) { StartKeeps(l); }
    else if NakOnItsWay(l) { NakKeeps(l); }
    else if AckOnItsWay(l) { AckKeeps(l); }
    else if EndOnItsWay(l) { EndKeeps(l, m); }
    else if SourceFailed(l) { CancelKeeps(l, m); }
    else if m.ToReceiver? {
      if m.got == l.toReceiver[0] { PacketKeeps(l); } else { DamageKeeps(l, m.got); }
    }
  }

  lemma Cases(l: Link)
    requires Inv(l)
    ensures Starting(l) || PacketOnItsWay(l) || NakOnItsWay(l) || Starved(l) || AckOnItsWay(l) || EndOnItsWay(l) || BothDone(l)
            || SourceFailed(l)
  {
  }

  lemma BeginInv(size: nat, source: seq<bv8>, buf: seq<bv8>)
    requires |buf| == LONG
    ensures Inv(Begin(size, source, buf)) && Starting(Begin(size, source, buf))
  {
  }

  lemma {:induction false} PlayKeepsInv(l: Link, moves: seq<Move>)
    requires Inv(l)
    ensures Inv(Play(l, moves))
    ensures Play(l, moves).sender.size == l.sender.size && Play(l, moves).sender.source == l.sender.source
  {
    hide After, Delivered, Starting, PacketOnItsWay, NakOnItsWay, Starved, AckOnItsWay, EndOnItsWay, BothDone, SourceFailed;
    if |moves| > 0 {
      var now, m := Play(l, moves[..|moves| - 1]), moves[|moves| - 1];
      PlayKeepsInv(l, moves[..|moves| - 1]);
      if Allowed(now, m) {
        StepKeepsInv(now, m);
        SourceStays(now, m);
      }
    }
  }

  lemma SourceStays(l: Link, m: Move)
    requires Coherent(l) && Allowed(l, m)
    ensures After(l, m).sender.size == l.sender.size && After(l, m).sender.source == l.sender.source
  {
    hide ReceiverRun, FromBuffer, Filled;
  }

  // ---------------------------------------------------------------- safety

  lemma {:induction false} DeliveredIsPrefix(chunks: seq<seq<bv8>>, size: nat, source: seq<bv8>)
    requires Delivered(chunks, size, source)
    ensures Flat(chunks) == source[..Position(|chunks|, size)]
  {
    if |chunks| > 0 {
      var k := |chunks| - 1;
      DeliveredIsPrefix(chunks[..k], size, source);
      assert Position(k, size) == LONG * k <= Position(k + 1, size);
      assert source[..LONG * k] + source[LONG * k..Position(k + 1, size)] == source[..Position(k + 1, size)];
    }
  }

  /**
   In every run, whatever packets are damaged: the receiver has been given the first bytes of the
   source, each block once and in order; the ends agree on the block number whenever a block or
   its refusal is under way; and an end that has finished has handled all the bytes.
   */
  lemma TransferIsSafe(size: nat, source: seq<bv8>, buf: seq<bv8>, moves: seq<Move>)
    requires |buf| == LONG
    ensures var l := Play(Begin(size, source, buf), moves);
            && l.receiver.rcvdSize <= |source|
            && Flat(l.receiver.chunks) == source[..l.receiver.rcvdSize]
            && Delivered(l.receiver.chunks, size, source)
            && (l.receiver.phase == Received ==> l.receiver.rcvdSize == size)
            && (l.sender.phase == Sent ==> l.receiver.phase == Received && SenderResult(l.sender) == size)
            && (l.sender.phase == Cancelled ==> size > |source| && SenderResult(l.sender) == -1)
            && |l.toSender| + |l.toReceiver| <= 1
            && (l.sender.phase == AwaitingReply && ACK !in l.toSender && !Starved(l)
                ==> l.sender.blockNum == l.receiver.blockNum && l.sender.sentSize == l.receiver.rcvdSize)
  {
    BeginInv(size, source, buf);
    PlayKeepsInv(Begin(size, source, buf), moves);
    var l := Play(Begin(size, source, buf), moves);
    DeliveredIsPrefix(l.receiver.chunks, size, source);
    hide Delivered, Holding, Packet, Play;
  }

  // ---------------------------------------------------------------- completion

  /** A run ends done, in a source that failed, or waiting for a padded block that is never sent again. */
  lemma SettledStates(l: Link)
    requires Inv(l) && Settled(l)
    ensures BothDone(l) || Starved(l) || (SourceFailed(l) && l.toReceiver == [])
  {
    SettledIsQuiet(l);
    hide Delivered, Holding, Packet;
  }

  lemma SettledIsQuiet(l: Link)
    ensures Settled(l) <==> l.toSender == [] && l.toReceiver == []
  {
    if |l.toSender| > 0 {
      assert Allowed(l, ToSender);
    } else if |l.toReceiver| > 0 {
      assert Allowed(l, ToReceiver(l.toReceiver[0]));
    }
  }

  /** Whole blocks only, all of them in the source: no block needs padding. */
  predicate Whole(l: Link) {
    && l.sender.size % LONG == 0 && l.sender.size <= |l.sender.source|
    && l.receiver.rcvdSize % LONG == 0
    && (l.sender.phase == AwaitingReply ==> l.sender.padSize == 0) && l.sender.phase != Cancelled
  }

  /** How many moves are left if no more packets are damaged. */
  function StepsLeft(l: Link): nat
    requires Coherent(l)
  {
    var blocks := (l.receiver.size - l.receiver.rcvdSize) / LONG;
    match l.sender.phase
    case AwaitingStart => 2 * blocks + 3
    case AwaitingReply => if l.toSender == [] then 2 * blocks + 2 else 2 * blocks + 3
    case AwaitingEnd => if l.toSender == [] then 2 else 1
    case Sent => 0
    case Cancelled => 0
  }

  lemma WholeBlocks(size: nat, p: nat)
    requires size % LONG == 0 && p % LONG == 0 && p < size
    ensures size - p >= LONG && (p + LONG) % LONG == 0
    ensures (size - (p + LONG)) / LONG == (size - p) / LONG - 1
  {
  }

  lemma NextBlockIsWhole(s: Sender)
    requires |s.dataBuf| == LONG && s.size % LONG == 0 && s.size <= |s.source| && s.sentSize % LONG == 0 && s.sentSize <= s.size
    ensures var s' := NextBlock(s).0;
            && s'.size == s.size && s'.source == s.source
            && if s.sentSize < s.size then s'.phase == AwaitingReply && s'.padSize == 0 else s'.phase == AwaitingEnd
  {
    hide FromBuffer, Filled;
    if s.sentSize < s.size {
      WholeBlocks(s.size, s.sentSize);
    }
  }

  lemma PacketIsCounted(l: Link)
    requires Inv(l) && Whole(l) && PacketOnItsWay(l)
    ensures Whole(ReceiverTurn(l, l.toReceiver[0])) && Coherent(ReceiverTurn(l, l.toReceiver[0]))
    ensures StepsLeft(ReceiverTurn(l, l.toReceiver[0])) + 1 == StepsLeft(l)
  {
    hide Inv, Delivered, Packet, ReceiverTurn;
    HeldSize(l.sender, l.receiver.rcvdSize);
    PacketKeeps(l);
    WholeBlocks(l.sender.size, l.receiver.rcvdSize);
    InvCounts(l);
    InvCounts(ReceiverTurn(l, l.toReceiver[0]));
  }

  lemma InvCounts(l: Link)
    requires Inv(l)
    ensures l.receiver.size == l.sender.size && l.receiver.rcvdSize == Position(|l.receiver.chunks|, l.sender.size)
    ensures Coherent(l)
  {
    hide Delivered, Holding, Packet;
  }

  lemma DamageIsCounted(l: Link, got: seq<bv8>)
    requires Inv(l) && Whole(l) && PacketOnItsWay(l) && DamagedTo(l.toReceiver[0], got, l.receiver.blockNum)
    ensures Whole(ReceiverTurn(l, got)) && Coherent(ReceiverTurn(l, got))
    ensures StepsLeft(ReceiverTurn(l, got)) == StepsLeft(l) + 1
  {
    hide Inv, Delivered, Packet, ReceiverTurn;
    DamageKeeps(l, got);
    InvCounts(l);
    InvCounts(ReceiverTurn(l, got));
  }

  lemma NakIsCounted(l: Link)
    requires Inv(l) && Whole(l) && NakOnItsWay(l)
    ensures Whole(SenderTurn(l)) && Coherent(SenderTurn(l))
    ensures StepsLeft(SenderTurn(l)) + 1 == StepsLeft(l)
  {
    hide Inv, SenderTurn, Holding, Packet;
    HeldSize(l.sender, l.receiver.rcvdSize);
    NakKeeps(l);
    TransmitMeans(l.sender);
    InvCounts(l);
    InvCounts(SenderTurn(l));
  }

  lemma AckIsCounted(l: Link)
    requires Inv(l) && Whole(l) && AckOnItsWay(l)
    ensures Whole(SenderTurn(l)) && Coherent(SenderTurn(l))
    ensures StepsLeft(SenderTurn(l)) + 1 == StepsLeft(l)
  {
    hide Inv, SenderTurn, Holding, Packet, NextBlock;
    HeldSize(l.sender, l.sender.sentSize);
    AckKeeps(l);
    InvCounts(l);
    InvCounts(SenderTurn(l));
    NextBlockIsWhole(Acknowledged(l.sender));
    assert 0 / LONG == 0;
  }

  lemma StartIsCounted(l: Link)
    requires Inv(l) && Whole(l) && Starting(l)
    ensures Whole(SenderTurn(l)) && Coherent(SenderTurn(l))
    ensures StepsLeft(SenderTurn(l)) + 1 == StepsLeft(l)
  {
    hide Inv, SenderTurn, NextBlock;
    StartKeeps(l);
    InvCounts(l);
    InvCounts(SenderTurn(l));
    NextBlockIsWhole(l.sender);
    assert 0 / LONG == 0;
    assert l.sender.phase == AwaitingStart && l.receiver.rcvdSize == 0;
    if l.sender.size == 0 {
      assert StepsLeft(l) == 3;
    } else {
      assert SenderTurn(l).sender.phase == AwaitingReply;
    }
  }

  /** In a whole transfer each move brings the end one move closer, but a damaged packet costs two. */
  lemma StepIsCounted(l: Link, m: Move)
    requires Inv(l) && Whole(l) && Allowed(l, m)
    ensures Whole(After(l, m)) && Coherent(After(l, m))
    ensures StepsLeft(After(l, m)) + 1 == StepsLeft(l) + if IsDamage(l, m) then 2 else 0
  {
    hide Inv, SenderTurn, ReceiverTurn, DamagedTo, Holding, Packet, Whole, StepsLeft, Coherent;
    Cases(l);
    InvCounts(l);
    if Starting(l) { StartIsCounted(l); }
    else if NakOnItsWay(l) { NakIsCounted(l); }
    else if AckOnItsWay(l) { AckIsCounted(l); }
    else if EndOnItsWay(l) { EndKeeps(l, m); EndCounts(l, m); }
    else if PacketOnItsWay(l) {
      if m.got == l.toReceiver[0] { PacketIsCounted(l); } else { DamageIsCounted(l, m.got); }
    } else {
      WholeNeverFails(l);
    }
  }

  lemma WholeNeverFails(l: Link)
    requires Whole(l)
    ensures !SourceFailed(l) && !Starved(l)
  {
  }

  lemma TransmitMeans(s: Sender)
    requires |s.dataBuf| == LONG
    ensures Transmit(s).0 == s.(blockSize := s.blockSize + s.padSize)
  {
  }

  lemma EndCounts(l: Link, m: Move)
    requires Inv(l) && Whole(l) && EndOnItsWay(l) && Allowed(l, m)
    ensures Whole(After(l, m)) && Coherent(After(l, m))
    ensures StepsLeft(After(l, m)) + 1 == StepsLeft(l)
  {
    hide Delivered, ReceiverRun, Check;
    EndKeeps(l, m);
    if l.toSender == [] {
      assert !IsFrame([EOT]);
      RunOnByte(l.receiver, EOT);
      assert [] + [ACK] == [ACK];
    }
  }

  function Taken(l: Link, moves: seq<Move>): nat
    requires Coherent(l)
  {
    if |moves| == 0 then 0
    else
      var before := moves[..|moves| - 1];
      Taken(l, before) + if Allowed(Play(l, before), moves[|moves| - 1]) then 1 else 0
  }

  function Damages(l: Link, moves: seq<Move>): nat
    requires Coherent(l)
  {
    if |moves| == 0 then 0
    else
      var before, m := moves[..|moves| - 1], moves[|moves| - 1];
      Damages(l, before) + if Allowed(Play(l, before), m) && IsDamage(Play(l, before), m) then 1 else 0
  }

  lemma {:induction false} RunIsCounted(l: Link, moves: seq<Move>)
    requires Inv(l) && Whole(l)
    ensures Whole(Play(l, moves))
    ensures Taken(l, moves) + StepsLeft(Play(l, moves)) == StepsLeft(l) + 2 * Damages(l, moves)
  {
    hide After, Delivered, Starting, PacketOnItsWay, NakOnItsWay, Starved, AckOnItsWay, EndOnItsWay, BothDone, SourceFailed,
         Whole, StepsLeft, IsDamage;
    if |moves| > 0 {
      var now, m := Play(l, moves[..|moves| - 1]), moves[|moves| - 1];
      RunIsCounted(l, moves[..|moves| - 1]);
      PlayKeepsInv(l, moves[..|moves| - 1]);
      if Allowed(now, m) {
        StepIsCounted(now, m);
      }
    }
  }

  /**
   A transfer of whole blocks comes to an end in a number of moves that only the damage decides,
   and at the end both sides have finished with all the bytes.
   */
  lemma WholeTransferCompletes(size: nat, source: seq<bv8>, buf: seq<bv8>, moves: seq<Move>)
    requires |buf| == LONG && size % LONG == 0 && size <= |source|
    ensures var l, l' := Begin(size, source, buf), Play(Begin(size, source, buf), moves);
            && Taken(l, moves) <= 2 * (size / LONG) + 3 + 2 * Damages(l, moves)
            && (Settled(l') ==> BothDone(l') && Taken(l, moves) == 2 * (size / LONG) + 3 + 2 * Damages(l, moves))
  {
    var l := Begin(size, source, buf);
    BeginInv(size, source, buf);
    RunIsCounted(l, moves);
    PlayKeepsInv(l, moves);
    if Settled(Play(l, moves)) {
      SettledStates(Play(l, moves));
      WholeNeverFails(Play(l, moves));
    }
    hide Play, Taken, Damages, Inv, Settled;
  }

  lemma PlayOneMore(l: Link, moves: seq<Move>, m: Move)
    requires Coherent(l) && Allowed(Play(l, moves), m)
    ensures Play(l, moves + [m]) == After(Play(l, moves), m)
  {
    assert (moves + [m])[..|moves|] == moves;
  }

  /** An undamaged run up to the point where block k is on its way. */
  lemma {:induction false} RunToBlock(size: nat, source: seq<bv8>, buf: seq<bv8>, k: nat) returns (moves: seq<Move>)
    requires |buf| == LONG && LONG * k < size <= |source|
    ensures var l := Play(Begin(size, source, buf), moves);
            Inv(l) && PacketOnItsWay(l) && |l.receiver.chunks| == k && l.sender.size == size && l.sender.source == source
  {
    hide Inv, SenderTurn, ReceiverTurn, Holding, Packet, AckOnItsWay;
    var l := Begin(size, source, buf);
    BeginInv(size, source, buf);
    if k == 0 {
      moves := [] + [ToSender];
      PlayOneMore(l, [], ToSender);
      StartKeeps(l);
    } else {
      var before := RunToBlock(size, source, buf, k - 1);
      var l1 := Play(l, before);
      var m := ToReceiver(l1.toReceiver[0]);
      PlayOneMore(l, before, m);
      PacketKeeps(l1);
      var l2 := ReceiverTurn(l1, l1.toReceiver[0]);
      AckMeans(l2);
      InvCounts(l2);
      PlayOneMore(l, before + [m], ToSender);
      AckKeeps(l2);
      moves := before + [m] + [ToSender];
    }
    PlayKeepsInv(l, moves);
  }

  lemma AckMeans(l: Link)
    requires AckOnItsWay(l)
    ensures l.toSender == [ACK]
  {
  }

  /** Some frame that the channel may turn the packet into. */
  lemma DamagedFrame(data: seq<bv8>, n: bv8) returns (got: seq<bv8>)
    requires |data| == SHORT || |data| == LONG
    ensures DamagedTo(Packet(data, n), got, n)
  {
    PacketIsAccepted(data, n, n);
    var f := Packet(data, n);
    got := f[1 := Inverted(f[1])];
    InvertedDiffers(f[1]);
    assert f[1] == n;
    hide Packet, Payload, CheckBytes, Inverted;
  }

  lemma InvertedDiffers(b: bv8)
    ensures Inverted(b) != b
  {
  }

  /** If the last block needs padding, a run in which that block is damaged gets stuck. */
  lemma PaddedTransferStarves(size: nat, source: seq<bv8>, buf: seq<bv8>) returns (moves: seq<Move>)
    requires |buf| == LONG && size % LONG != 0 && size <= |source|
    ensures Settled(Play(Begin(size, source, buf), moves)) && !Done(Play(Begin(size, source, buf), moves))
  {
    hide Inv, SenderTurn, ReceiverTurn, Holding, Packet;
    var start, k := Begin(size, source, buf), size / LONG;
    var before := RunToBlock(size, source, buf, k);
    var l := Play(start, before);
    HeldSize(l.sender, l.receiver.rcvdSize);
    LastIsPadded(l, k);
    var got := DamagedFrame(l.sender.dataBuf[..l.sender.blockSize], l.sender.blockNum);
    PlayOneMore(start, before, ToReceiver(got));
    DamageKeeps(l, got);
    PlayOneMore(start, before + [ToReceiver(got)], ToSender);
    NakKeeps(ReceiverTurn(l, got));
    moves := before + [ToReceiver(got)] + [ToSender];
    SettledIsQuiet(Play(start, moves));
  }

  lemma LastIsPadded(l: Link, k: nat)
    requires Inv(l) && PacketOnItsWay(l) && |l.receiver.chunks| == k == l.sender.size / LONG && l.sender.size % LONG != 0
    ensures l.sender.padSize > 0
  {
    hide Delivered, Packet, Padding;
  }

  /** A transfer from a long enough source always comes to its end exactly if it consists of whole blocks. */
  lemma CompletesExactlyIfWhole(size: nat, source: seq<bv8>, buf: seq<bv8>)
    requires |buf| == LONG && size <= |source|
    ensures (forall moves :: Settled(Play(Begin(size, source, buf), moves)) ==> Done(Play(Begin(size, source, buf), moves)))
            <==> size % LONG == 0
  {
    hide Play, Settled;
    if size % LONG == 0 {
      forall moves | Settled(Play(Begin(size, source, buf), moves))
        ensures Done(Play(Begin(size, source, buf), moves))
      {
        WholeTransferCompletes(size, source, buf, moves);
      }
    } else {
      var moves := PaddedTransferStarves(size, source, buf);
      assert Settled(Play(Begin(size, source, buf), moves)) && !Done(Play(Begin(size, source, buf), moves));
    }
  }

  // ---------------------------------------------------------------- the ends are the programs

  /** All that has reached the receiver, and the sender, in a run. */
  function HeardByReceiver(l: Link, moves: seq<Move>): seq<bv8>
    requires Coherent(l)
  {
    if |moves| == 0 then []
    else
      var before, m := moves[..|moves| - 1], moves[|moves| - 1];
      HeardByReceiver(l, before) + if m.ToReceiver? && Allowed(Play(l, before), m) then m.got else []
  }

  function HeardBySender(l: Link, moves: seq<Move>): seq<bv8>
    requires Coherent(l)
  {
    if |moves| == 0 then []
    else
      var before, m := moves[..|moves| - 1], moves[|moves| - 1];
      HeardBySender(l, before) + if m.ToSender? && Allowed(Play(l, before), m) then Play(l, before).toSender[..1] else []
  }

  lemma FrameFirst(r: Receiver, f: seq<bv8>, rest: seq<bv8>)
    requires IsFrame(f) && r.rcvdSize <= r.size && r.phase == Receiving
    ensures ReceiverHears(r, f).0.rcvdSize <= ReceiverHears(r, f).0.size
    ensures ReceiverRun(r, f + rest).0 == ReceiverRun(ReceiverHears(r, f).0, rest).0
  {
    hide ReceiverHears;
    ReceiverCounts(r, f);
    var input := f + rest;
    assert input[0] == f[0];
    assert FrameEnd(input) == |f| && input[0..|f|] == f && input[|f|..] == rest;
  }

  lemma NoiseFirst(r: Receiver, b: bv8, rest: seq<bv8>)
    requires r.rcvdSize <= r.size && r.phase == Receiving && b != STX && b != SOH
    ensures ReceiverRun(r, [b] + rest).0 == ReceiverRun(r, rest).0
  {
    hide ReceiverHears;
    var input := [b] + rest;
    assert input[1..] == rest && Skipped(input) == 1 + Skipped(rest);
    var e := FrameEnd(rest);
    if e > 0 {
      assert FrameEnd(input) == e + 1;
      assert input[Skipped(input)..e + 1] == rest[Skipped(rest)..e] && input[e + 1..] == rest[e..];
      ReceiverCounts(r, rest[Skipped(rest)..e]);
    } else {
      assert FrameEnd(input) == 0;
    }
  }

  /** What the receiver hears in one move it also hears as the first part of a longer input. */
  lemma MessageFirst(l: Link, got: seq<bv8>, rest: seq<bv8>)
    requires Inv(l) && Allowed(l, ToReceiver(got))
    ensures Coherent(ReceiverTurn(l, got))
    ensures ReceiverRun(l.receiver, got + rest).0 == ReceiverRun(ReceiverTurn(l, got).receiver, rest).0
  {
    AfterIsCoherent(l, ToReceiver(got));
    InFlight(l);
    hide Inv, Delivered, Holding, Packet, ReceiverHears, Check, FrameEnd;
    if IsFrame(got) {
      RunOnFrame(l.receiver, got);
      FrameFirst(l.receiver, got, rest);
    } else {
      RunOnByte(l.receiver, got[0]);
      if got == [CAN] {
        NoiseFirst(l.receiver, CAN, rest);
      }
    }
  }

  lemma InFlight(l: Link)
    requires Inv(l) && |l.toReceiver| > 0
    ensures var f := l.toReceiver[0];
            || (IsFrame(f) && l.receiver.phase == Receiving)
            || (f == [EOT] && l.receiver.phase == Ending && !IsFrame(f))
            || (f == [CAN] && l.receiver.phase == Receiving && !IsFrame(f))
  {
    hide Delivered, Packet, Holding;
    if PacketOnItsWay(l) {
      HeldSize(l.sender, l.receiver.rcvdSize);
      PacketParts(l.sender.dataBuf[..l.sender.blockSize], l.sender.blockNum);
    }
  }

  /** In every run the receiver is where xmodem_receiveData would be, given the same bytes. */
  lemma {:induction false} ReceiverIsTheProgram(l: Link, moves: seq<Move>, rest: seq<bv8>)
    requires Inv(l)
    ensures ReceiverRun(l.receiver, HeardByReceiver(l, moves) + rest).0 == ReceiverRun(Play(l, moves).receiver, rest).0
  {
    hide ReceiverRun, SenderHears, Delivered, Starting, PacketOnItsWay, NakOnItsWay, Starved, AckOnItsWay, EndOnItsWay,
         BothDone, SourceFailed;
    if |moves| == 0 {
      assert [] + rest == rest;
    } else {
      var before, m := moves[..|moves| - 1], moves[|moves| - 1];
      var now := Play(l, before);
      PlayKeepsInv(l, before);
      if m.ToReceiver? && Allowed(now, m) {
        assert HeardByReceiver(l, before) + m.got + rest == HeardByReceiver(l, before) + (m.got + rest);
        ReceiverIsTheProgram(l, before, m.got + rest);
        MessageFirst(now, m.got, rest);
      } else {
        assert HeardByReceiver(l, before) + [] + rest == HeardByReceiver(l, before) + rest;
        ReceiverIsTheProgram(l, before, rest);
      }
    }
  }

  /** And the sender is where xmodem_sendData would be. */
  lemma {:induction false} SenderIsTheProgram(l: Link, moves: seq<Move>, rest: seq<bv8>)
    requires Coherent(l)
    ensures SenderRun(l.sender, HeardBySender(l, moves) + rest).0 == SenderRun(Play(l, moves).sender, rest).0
  {
    hide SenderHears, ReceiverRun;
    if |moves| == 0 {
      assert [] + rest == rest;
    } else {
      var before, m := moves[..|moves| - 1], moves[|moves| - 1];
      var now := Play(l, before);
      if m.ToSender? && Allowed(now, m) {
        var b := now.toSender[..1];
        assert HeardBySender(l, before) + b + rest == HeardBySender(l, before) + (b + rest);
        SenderIsTheProgram(l, before, b + rest);
        assert (b + rest)[0] == now.toSender[0] && (b + rest)[1..] == rest;
      } else {
        assert HeardBySender(l, before) + [] + rest == HeardBySender(l, before) + rest;
        SenderIsTheProgram(l, before, rest);
      }
    }
  }
}
