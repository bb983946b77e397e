/** The external flash and the two functions that feed a transfer from it and write a transfer to it. */
module FlashMemory {
  const SECTOR: nat := 0x1000
  const PAGE: nat := 256

  // ---------------------------------------------------------------- the flash

  function Cleared(was: bv8, data: bv8): bv8 {
    was & data
  }

  lemma ClearedFromErased(b: bv8)
    ensures Cleared(0xFF, b) == b
  {
  }

  /** A memory with the sector at addr erased. */
  function Erased(mem: seq<bv8>, addr: nat): (r: seq<bv8>)
    ensures |r| == |mem|
  {
    seq(|mem|, i requires 0 <= i < |mem| => if addr <= i < addr + SECTOR then 0xFF else mem[i])
  }

  /** Programming clears bits and sets none. */
  function Programmed(mem: seq<bv8>, addr: nat, data: seq<bv8>): (r: seq<bv8>)
    ensures |r| == |mem|
  {
    seq(|mem|, i requires 0 <= i < |mem| => if addr <= i < addr + |data| then Cleared(mem[i], data[i - addr]) else mem[i])
  }

  /** How many of n bytes from addr on lie before the end of the page. */
  function WithinPage(addr: nat, n: nat): (m: nat)
    ensures m <= n
  {
    if addr % PAGE + n > PAGE then PAGE - addr % PAGE else n
  }

  /** One page write: what would cross the end of the page is not written. */
  function PageWritten(mem: seq<bv8>, addr: nat, data: seq<bv8>): (r: seq<bv8>)
    ensures |r| == |mem|
  {
    Programmed(mem, addr, data[..WithinPage(addr, |data|)])
  }

  function PagesWritten(mem: seq<bv8>, addr: nat, data: seq<bv8>): (r: seq<bv8>)
    ensures |r| == |mem|
    decreases |data|
  {
    if |data| == 0 then mem
    else
      var n := if |data| < PAGE then |data| else PAGE;
      PagesWritten(PageWritten(mem, addr, data[..n]), addr + n, data[n..])
  }

  /** What the receive callback does with a block. */
  function BlockWritten(mem: seq<bv8>, addr: nat, data: seq<bv8>): (r: seq<bv8>)
    ensures |r| == |mem|
  {
    PagesWritten(if addr % SECTOR == 0 then Erased(mem, addr) else mem, addr, data)
  }

  /** The bytes of several blocks, one after the other. */
  function Flat(chunks: seq<seq<bv8>>): seq<bv8> {
    if |chunks| == 0 then [] else Flat(chunks[..|chunks| - 1]) + chunks[|chunks| - 1]
  }

  function BlocksWritten(mem: seq<bv8>, chunks: seq<seq<bv8>>): (r: seq<bv8>)
    ensures |r| == |mem|
  {
    if |chunks| == 0 then mem
    else
      var before := chunks[..|chunks| - 1];
      BlockWritten(BlocksWritten(mem, before), |Flat(before)|, chunks[|chunks| - 1])
  }

  /** The flash, and the address that both callbacks advance. */
  class Flash {
    var memAddr: nat
    const mem: array<bv8>

    constructor (mem: array<bv8>)
      ensures this.mem == mem && memAddr == 0
    {
      this.mem := mem;
      memAddr := 0;
    }

    method Rewind()
      modifies this`memAddr
      ensures memAddr == 0
    {
      memAddr := 0;
    }

    method GetData(size: nat) returns (r: int, data: seq<bv8>)
      modifies this`memAddr
      ensures if old(memAddr) + size > mem.Length then r == -1 && memAddr == old(memAddr)
              else r == 0 && data == mem[old(memAddr)..old(memAddr) + size] && memAddr == old(memAddr) + size
    {
      if memAddr + size > mem.Length {
        return -1, [];
      }
      data := mem[memAddr..memAddr + size];
      memAddr := memAddr + size;
      r := 0;
    }

    method Erase(addr: nat)
      requires addr + SECTOR <= mem.Length
      modifies mem
      ensures mem[..] == Erased(old(mem[..]), addr)
      ensures forall i | 0 <= i < mem.Length :: mem[i] == if addr <= i < addr + 4096 then 0xFF else old(mem[i])
    {
      forall i | addr <= i < addr + SECTOR {
        mem[i] := 0xFF;
      }
    }

    /** Only bits that are set in the data stay set, and only in the page of 256 bytes that addr is in. */
    method WritePage(addr: nat, data: seq<bv8>)
      requires addr + |data| <= mem.Length
      modifies mem
      ensures mem[..] == PageWritten(old(mem[..]), addr, data)
      ensures forall i | 0 <= i < mem.Length ::
                mem[i] == if addr <= i < addr + |data| && InPageOf(i, addr) then old(mem[i]) & data[i - addr] else old(mem[i])
    {
      PageWrittenAt(mem[..], addr, data);
      hide Cleared, InPageOf;
      var writeLen := |data|;
      if addr % PAGE + |data| > PAGE {
        writeLen := PAGE - addr % PAGE;
      }
      assert writeLen == WithinPage(addr, |data|);
      forall i | addr <= i < addr + writeLen {
        mem[i] := Cleared(mem[i], data[i - addr]);
      }
    }

    /** writeDataCallback: the sector is erased when its first block arrives, then the pages are written. */
    method WriteData(data: seq<bv8>)
      requires |data| > 0 && memAddr + |data| <= mem.Length && mem.Length % SECTOR == 0
      modifies this`memAddr, mem
      ensures mem[..] == BlockWritten(old(mem[..]), old(memAddr), data)
      ensures memAddr == old(memAddr) + |data|
    {
      hide Erased, PageWritten;
      if memAddr % SECTOR == 0 {
        Erase(memAddr);
      }
      ghost var was := mem[..];
      var written := 0;
      while written < |data|
        invariant 0 <= written <= |data| && memAddr == old(memAddr) + written
        invariant PagesWritten(was, old(memAddr), data) == PagesWritten(mem[..], memAddr, data[written..])
      {
        var toWrite := |data| - written;
        if toWrite > PAGE {
          toWrite := PAGE;
        }
        assert data[written..][..toWrite] == data[written..written + toWrite];
        assert data[written..][toWrite..] == data[written + toWrite..];
        WritePage(memAddr, data[written..written + toWrite]);
        written := written + toWrite;
        memAddr := memAddr + toWrite;
      }
    }
  }

  /** Two addresses are in the same page. */
  predicate InPageOf(i: nat, addr: nat) {
    i / 256 == addr / 256
  }

  lemma PageWrittenAt(mem: seq<bv8>, addr: nat, data: seq<bv8>)
    ensures forall i | 0 <= i < |mem| ::
              PageWritten(mem, addr, data)[i]
              == if addr <= i < addr + |data| && InPageOf(i, addr) then mem[i] & data[i - addr] else mem[i]
  {
    hide InPageOf;
    forall i | 0 <= i < |mem|
      ensures PageWritten(mem, addr, data)[i]
              == if addr <= i < addr + |data| && InPageOf(i, addr) then mem[i] & data[i - addr] else mem[i]
    {
      if addr <= i {
        SamePage(addr, i);
      }
    }
  }

  lemma SamePage(addr: nat, i: nat)
    requires addr <= i
    ensures InPageOf(i, addr) <==> addr % PAGE + (i - addr) < PAGE
  {
  }

  lemma NoBlocks(mem: seq<bv8>)
    ensures Flat([]) == [] && BlocksWritten(mem, []) == mem
  {
  }

  lemma OneMoreBlock(mem: seq<bv8>, chunks: seq<seq<bv8>>, chunk: seq<bv8>)
    ensures Flat(chunks + [chunk]) == Flat(chunks) + chunk
    ensures BlocksWritten(mem, chunks + [chunk]) == BlockWritten(BlocksWritten(mem, chunks), |Flat(chunks)|, chunk)
  {
    assert (chunks + [chunk])[..|chunks|] == chunks;
    hide BlockWritten;
  }
}
