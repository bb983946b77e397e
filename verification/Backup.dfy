/** Saving the external flash over XMODEM and writing it back. */
module Backup {
  import opened FlashMemory
  import opened NonLinear
  import opened Xmodem
  import opened XmodemLink

  /** eflash_dump. */
  method Dump(flash: Flash, port: Port, buf: seq<bv8>) returns (finished: bool, r: int)
    requires |buf| == LONG
    modifies flash`memAddr, port
    ensures var (s, sent) := SenderRun(NewSender(flash.mem.Length, flash.mem[..], buf), old(port.input));
            && port.output == old(port.output) + sent
            && finished == (s.phase == Sent || s.phase == Cancelled)
            && (finished ==> r == SenderResult(s))
    ensures finished && r != -1 ==> flash.memAddr == flash.mem.Length
  {
    flash.Rewind();
    finished, r := SendData(port, flash.mem.Length, flash, buf);
  }

  /** eflash_restore. */
  method Restore(flash: Flash, port: Port) returns (finished: bool, rcvdSize: nat)
    requires flash.mem.Length % SECTOR == 0
    modifies flash`memAddr, flash.mem, port
    ensures var (r, sent) := ReceiverRun(NewReceiver(flash.mem.Length), old(port.input));
            && port.output == old(port.output) + [START] + sent
            && finished == (r.phase == Received) && rcvdSize == r.rcvdSize == flash.memAddr
            && flash.mem[..] == BlocksWritten(old(flash.mem[..]), r.chunks)
  {
    flash.Rewind();
    finished, rcvdSize := ReceiveData(port, flash.mem.Length, flash);
  }

  // ---------------------------------------------------------------- writing back gives the image

  lemma ProgrammedTwice(mem: seq<bv8>, addr: nat, a: seq<bv8>, b: seq<bv8>)
    ensures Programmed(Programmed(mem, addr, a), addr + |a|, b) == Programmed(mem, addr, a + b)
  {
    hide Cleared;
  }

  /** From a page boundary on, no page write is cut short. */
  lemma {:induction false} AlignedPages(mem: seq<bv8>, addr: nat, data: seq<bv8>)
    requires addr % PAGE == 0
    ensures PagesWritten(mem, addr, data) == Programmed(mem, addr, data)
    decreases |data|
  {
    hide Programmed;
    if |data| == 0 {
      NothingProgrammed(mem, addr);
    } else {
      var n := if |data| < PAGE then |data| else PAGE;
      assert data[..n][..WithinPage(addr, n)] == data[..n];
      if n == PAGE {
        AlignedPages(PageWritten(mem, addr, data[..n]), addr + n, data[n..]);
      } else {
        NothingProgrammed(PageWritten(mem, addr, data[..n]), addr + n);
      }
      ProgrammedTwice(mem, addr, data[..n], data[n..]);
      assert data[..n] + data[n..] == data;
    }
  }

  lemma NothingProgrammed(mem: seq<bv8>, addr: nat)
    ensures Programmed(mem, addr, []) == mem
  {
  }

  /**
   What the callback does to every byte, for a block that begins at a page: the sector of 4096
   bytes is erased if the block begins it, and where the block goes only those bits stay set that
   are set in the block.
   */
  lemma BlockBytes(mem: seq<bv8>, addr: nat, data: seq<bv8>, i: nat)
    requires addr % 256 == 0 && i < |mem|
    ensures var now, erased, written := BlockWritten(mem, addr, data), addr % 4096 == 0 && addr <= i < addr + 4096, addr <= i < addr + |data|;
            && (erased && written ==> now[i] == data[i - addr]) && (erased && !written ==> now[i] == 0xFF)
            && (!erased && written ==> now[i] == mem[i] & data[i - addr]) && (!erased && !written ==> now[i] == mem[i])
  {
    hide BlockWritten, PagesWritten, Cleared, Programmed, Erased;
    var m := if addr % 4096 == 0 then Erased(mem, addr) else mem;
    BlockIsProgrammed(mem, addr, data);
    ErasedAt(mem, addr, i);
    ProgrammedAt(m, addr, data, i);
    if addr <= i < addr + |data| {
      ClearedFromErased(data[i - addr]);
      ClearedIs(mem[i], data[i - addr]);
    }
  }

  lemma BlockIsProgrammed(mem: seq<bv8>, addr: nat, data: seq<bv8>)
    requires addr % 256 == 0
    ensures BlockWritten(mem, addr, data) == Programmed(if addr % 4096 == 0 then Erased(mem, addr) else mem, addr, data)
  {
    hide PagesWritten, Cleared, Programmed, Erased;
    AlignedPages(if addr % 4096 == 0 then Erased(mem, addr) else mem, addr, data);
  }

  lemma ClearedIs(was: bv8, data: bv8)
    ensures Cleared(was, data) == was & data
  {
  }

  lemma ErasedAt(mem: seq<bv8>, addr: nat, i: nat)
    requires i < |mem|
    ensures Erased(mem, addr)[i] == if addr <= i < addr + 4096 then 0xFF else mem[i]
  {
  }

  lemma ProgrammedAt(m: seq<bv8>, addr: nat, data: seq<bv8>, i: nat)
    requires i < |m|
    ensures Programmed(m, addr, data)[i] == if addr <= i < addr + |data| then Cleared(m[i], data[i - addr]) else m[i]
  {
    hide Cleared;
  }

  /** The end of the sector that p is in, or p itself at the beginning of one. */
  function SectorEnd(p: nat): nat {
    if p % SECTOR == 0 then p else p - p % SECTOR + SECTOR
  }

  /** Up to p the memory holds the image; the rest of the sector that p is in is erased. */
  predicate RestoredUpTo(mem: seq<bv8>, image: seq<bv8>, p: nat) {
    && |mem| == |image| && p <= |image| && mem[..p] == image[..p]
    && forall i | p <= i < SectorEnd(p) && i < |mem| :: mem[i] == 0xFF
  }

  lemma BlocksInSectors(p: nat)
    requires p % LONG == 0
    ensures p % PAGE == 0
    ensures if p % SECTOR == 0 then SectorEnd(p + LONG) == p + SECTOR else SectorEnd(p + LONG) == SectorEnd(p) >= p + LONG
  {
    QuarterSectors(p / LONG);
    assert p == 1024 * (p / 1024);
  }

  /** Where the k-th block lies in its page and in its sector. */
  lemma QuarterSectors(k: nat)
    ensures 1024 * k % 256 == 0
    ensures 1024 * k % 4096 == 1024 * (k % 4)
    ensures (1024 * k + 1024) % 4096 == if k % 4 == 3 then 0 else 1024 * (k % 4) + 1024
  {
    var q, j := k / 4, k % 4;
    DivMod(256, 4 * k, 0);
    DivMod(4096, q, 1024 * j);
    if j == 3 {
      DivMod(4096, q + 1, 0);
    } else {
      DivMod(4096, q, 1024 * (j + 1));
    }
  }

  /** The block at p in a memory that is erased there. */
  lemma ProgrammedBlock(m: seq<bv8>, image: seq<bv8>, p: nat, e: nat)
    requires |m| == |image| && p + LONG <= |image| && p + LONG <= e && m[..p] == image[..p]
    requires forall i | p <= i < e && i < |m| :: m[i] == 0xFF
    ensures var r := Programmed(m, p, image[p..p + LONG]);
            r[..p + LONG] == image[..p + LONG] && forall i | p + LONG <= i < e && i < |m| :: r[i] == 0xFF
  {
    hide Cleared;
    var r := Programmed(m, p, image[p..p + LONG]);
    forall i | 0 <= i < p + LONG
      ensures r[i] == image[i]
    {
      ClearedFromErased(image[i]);
      assert i < p ==> m[..p][i] == image[..p][i];
    }
  }

  lemma BlockRestored(mem: seq<bv8>, image: seq<bv8>, p: nat)
    requires p % LONG == 0 && p + LONG <= |image| && RestoredUpTo(mem, image, p)
    ensures RestoredUpTo(BlockWritten(mem, p, image[p..p + LONG]), image, p + LONG)
  {
    hide Cleared, Programmed, PagesWritten, SectorEnd;
    var m := if p % SECTOR == 0 then Erased(mem, p) else mem;
    BlocksInSectors(p);
    AlignedPages(m, p, image[p..p + LONG]);
    assert m[..p] == mem[..p];
    ProgrammedBlock(m, image, p, SectorEnd(p + LONG));
  }

  /** A whole image that has been delivered block by block is restored, whatever the flash held before. */
  lemma {:induction false} DeliveredIsRestored(mem: seq<bv8>, image: seq<bv8>, chunks: seq<seq<bv8>>)
    requires |mem| == |image| && |image| % SECTOR == 0 && Delivered(chunks, |image|, image)
    ensures RestoredUpTo(BlocksWritten(mem, chunks), image, LONG * |chunks|)
  {
    hide BlockWritten, RestoredUpTo;
    if |chunks| > 0 {
      var k := |chunks| - 1;
      DeliveredIsRestored(mem, image, chunks[..k]);
      DeliveredIsPrefix(chunks[..k], |image|, image);
      WholeBlockAt(|image|, k);
      BlockRestored(BlocksWritten(mem, chunks[..k]), image, LONG * k);
    } else {
      NothingRestored(mem, image);
    }
  }

  lemma NothingRestored(mem: seq<bv8>, image: seq<bv8>)
    requires |mem| == |image|
    ensures RestoredUpTo(mem, image, 0)
  {
  }

  lemma WholeBlockAt(size: nat, k: nat)
    requires size % SECTOR == 0 && LONG * k < size
    ensures LONG * k % LONG == 0 && LONG * k + LONG <= size && Position(k + 1, size) == LONG * k + LONG && Position(k, size) == LONG * k
  {
  }

  /**
   A dump that is restored: however packets are damaged on the way, the transfer ends, both ends
   report the size of the flash, and the flash that is written holds what the other one held.
   */
  lemma DumpThenRestore(image: seq<bv8>, mem: seq<bv8>, buf: seq<bv8>, moves: seq<Move>)
    requires |buf| == LONG && |mem| == |image| && |image| % SECTOR == 0
    requires Settled(Play(Begin(|image|, image, buf), moves))
    ensures var l := Begin(|image|, image, buf);
            && var (s, _) := SenderRun(NewSender(|image|, image, buf), HeardBySender(l, moves));
               var (r, _) := ReceiverRun(NewReceiver(|image|), HeardByReceiver(l, moves));
            && s.phase == Sent && SenderResult(s) == |image|
            && r.phase == Received && r.rcvdSize == |image|
            && BlocksWritten(mem, r.chunks) == image
  {
    hide Delivered, BlocksWritten, Play, HeardBySender, HeardByReceiver, SenderRun, ReceiverRun, Settled, RestoredUpTo,
         Inv, SenderHears;
    var l := Begin(|image|, image, buf);
    var l' := Play(l, moves);
    WholeSectors(|image|);
    WholeTransferCompletes(|image|, image, buf, moves);
    BeginInv(|image|, image, buf);
    PlayKeepsInv(l, moves);
    SenderIsTheProgram(l, moves, []);
    ReceiverIsTheProgram(l, moves, []);
    assert HeardBySender(l, moves) + [] == HeardBySender(l, moves);
    assert HeardByReceiver(l, moves) + [] == HeardByReceiver(l, moves);
    NothingMore(l'.sender, l'.receiver);
    InvDelivered(l');
    DeliveredIsRestored(mem, image, l'.receiver.chunks);
    AllRestored(BlocksWritten(mem, l'.receiver.chunks), image, |l'.receiver.chunks|);
  }

  lemma WholeSectors(size: nat)
    requires size % SECTOR == 0
    ensures size % LONG == 0
  {
  }

  lemma NothingMore(s: Sender, r: Receiver)
    requires SenderValid(s) && r.rcvdSize <= r.size
    ensures SenderRun(s, []).0 == s && ReceiverRun(r, []).0 == r
  {
  }

  lemma InvDelivered(l: Link)
    requires Inv(l)
    ensures Delivered(l.receiver.chunks, l.sender.size, l.sender.source)
    ensures l.receiver.rcvdSize == Position(|l.receiver.chunks|, l.sender.size)
  {
  }

  lemma AllRestored(mem: seq<bv8>, image: seq<bv8>, k: nat)
    requires RestoredUpTo(mem, image, LONG * k) && Position(k, |image|) == |image|
    ensures mem == image
  {
    assert mem[..|image|] == mem && image[..|image|] == image;
  }
}
