/**
 Error correction of a QR message: its data is cut into short and long blocks, every block gets
 its check bytes, and blocks and check bytes are interleaved byte by byte.
 */
module Interleaving {
  import opened NonLinear
  import opened QrStandard
  import opened ReedSolomon
  import opened BitBuckets
  import opened RsEncoder

  /**
   numBlocks blocks, the first numShort of shortLen data bytes and the others one byte longer,
   each with eccLen check bytes.
   */
  datatype Layout = Layout(numBlocks: nat, numShort: nat, shortLen: nat, eccLen: nat) {
    predicate Valid() {
      0 < numShort <= numBlocks && 0 < eccLen < 256
    }

    function BlockLen(b: nat): nat {
      if b < numShort then shortLen else shortLen + 1
    }

    function BlockStart(b: nat): nat {
      At(shortLen, b, if b < numShort then 0 else b - numShort)
    }

    function DataLen(): nat
      requires numShort <= numBlocks
    {
      At(numBlocks, shortLen, numBlocks - numShort)
    }

    function TotalLen(): nat
      requires numShort <= numBlocks
    {
      DataLen() + At(numBlocks, eccLen, 0)
    }

    /** The data of block b. */
    function Block(data: seq<bv8>, b: nat): (r: seq<bv8>)
      requires Valid() && b < numBlocks && DataLen() <= |data|
      ensures |r| == BlockLen(b)
    {
      BlockFits(b);
      data[BlockStart(b)..BlockStart(b) + BlockLen(b)]
    }

    /** Block b with its check bytes. */
    function Codeword(data: seq<bv8>, b: nat): (r: seq<bv8>)
      requires Valid() && b < numBlocks && DataLen() <= |data|
      ensures |r| == BlockLen(b) + eccLen
    {
      Block(data, b) + CheckBytes(eccLen, Block(data, b))
    }

    lemma BlockFits(b: nat)
      requires Valid() && b < numBlocks
      ensures BlockStart(b) + BlockLen(b) == BlockStart(b + 1) <= DataLen()
    {
      MulMonotone(shortLen, b + 1, numBlocks);
      MulSplits(shortLen, b + 1, b);
    }

    lemma BlocksEnd()
      requires Valid()
      ensures BlockStart(0) == 0 && BlockStart(numBlocks) == DataLen()
    {
    }

    // ------------------------------------------------------------ where each byte goes

    /** The output position of byte k of the code word of block b. */
    function Slot(b: nat, k: nat): nat
      requires Valid() && b < numBlocks && k < BlockLen(b) + eccLen
    {
      if k < shortLen then At(numBlocks, k, b)
      else if k < BlockLen(b) then At(numBlocks, shortLen, b - numShort)
      else DataLen() + At(numBlocks, k - BlockLen(b), b)
    }

    /** The block and the byte of its code word found at output position o. */
    function Unslot(o: nat): (nat, nat)
      requires Valid()
    {
      if o < At(numBlocks, shortLen, 0) then (Rest(o, numBlocks), Quot(o, numBlocks))
      else if o < DataLen() then (numShort + (o - At(numBlocks, shortLen, 0)), shortLen)
      else
        var p := o - DataLen();
        (Rest(p, numBlocks), BlockLen(Rest(p, numBlocks)) + Quot(p, numBlocks))
    }

    /** The bytes of a message in the order they are sent. */
    function Interleaved(data: seq<bv8>): (r: seq<bv8>)
      requires Valid() && DataLen() <= |data|
      ensures |r| == TotalLen()
    {
      seq(TotalLen(), o requires 0 <= o < TotalLen() => OutputByte(data, o))
    }

    function OutputByte(data: seq<bv8>, o: nat): bv8
      requires Valid() && DataLen() <= |data| && o < TotalLen()
    {
      UnslotIsValid(o);
      var (b, k) := Unslot(o);
      Codeword(data, b)[k]
    }

    lemma UnslotIsValid(o: nat)
      requires Valid() && o < TotalLen()
      ensures var (b, k) := Unslot(o);
              b < numBlocks && k < BlockLen(b) + eccLen && Slot(b, k) == o
    {
      hide Quot, Rest, At;
      AtSteps(numBlocks, shortLen, numBlocks - numShort);
      if o < At(numBlocks, shortLen, 0) {
        RowOf(numBlocks, o, shortLen);
      } else if o < DataLen() {
        AtSteps(numBlocks, shortLen, o - At(numBlocks, shortLen, 0));
      } else {
        RowOf(numBlocks, o - DataLen(), eccLen);
      }
    }

    lemma SlotIsValid(b: nat, k: nat)
      requires Valid() && b < numBlocks && k < BlockLen(b) + eccLen
      ensures Slot(b, k) < TotalLen() && Unslot(Slot(b, k)) == (b, k)
    {
      hide Quot, Rest, At;
      AtSteps(numBlocks, shortLen, numBlocks - numShort);
      if k < shortLen {
        RowCell(numBlocks, k, b, shortLen);
      } else if k < BlockLen(b) {
        AtSteps(numBlocks, shortLen, b - numShort);
      } else {
        RowCell(numBlocks, k - BlockLen(b), b, eccLen);
      }
    }
  }

  // ---------------------------------------------------------------- what a reader gets back

  /** Every output position belongs to exactly one byte of exactly one code word. */
  lemma SlotsAreABijection(l: Layout)
    requires l.Valid()
    ensures forall b: nat, k: nat | b < l.numBlocks && k < l.BlockLen(b) + l.eccLen ::
              l.Slot(b, k) < l.TotalLen() && l.Unslot(l.Slot(b, k)) == (b, k)
    ensures forall o: nat | o < l.TotalLen() ::
              var (b, k) := l.Unslot(o);
              b < l.numBlocks && k < l.BlockLen(b) + l.eccLen && l.Slot(b, k) == o
  {
    forall b: nat, k: nat | b < l.numBlocks && k < l.BlockLen(b) + l.eccLen
      ensures l.Slot(b, k) < l.TotalLen() && l.Unslot(l.Slot(b, k)) == (b, k)
    {
      l.SlotIsValid(b, k);
    }
    forall o: nat | o < l.TotalLen()
      ensures var (b, k) := l.Unslot(o);
              b < l.numBlocks && k < l.BlockLen(b) + l.eccLen && l.Slot(b, k) == o
    {
      l.UnslotIsValid(o);
    }
  }

  /** The code word of block b, collected from its slots. */
  function Collect(l: Layout, out: seq<bv8>, b: nat): (r: seq<bv8>)
    requires l.Valid() && b < l.numBlocks && l.TotalLen() <= |out|
    ensures |r| == l.BlockLen(b) + l.eccLen
  {
    seq(l.BlockLen(b) + l.eccLen, k requires 0 <= k < l.BlockLen(b) + l.eccLen => CollectAt(l, out, b, k))
  }

  function CollectAt(l: Layout, out: seq<bv8>, b: nat, k: nat): bv8
    requires l.Valid() && b < l.numBlocks && l.TotalLen() <= |out| && k < l.BlockLen(b) + l.eccLen
  {
    l.SlotIsValid(b, k);
    out[l.Slot(b, k)]
  }

  /** The data bytes of the first n blocks, as a reader puts them together. */
  function Deinterleave(l: Layout, out: seq<bv8>, n: nat): seq<bv8>
    requires l.Valid() && n <= l.numBlocks && l.TotalLen() <= |out|
  {
    if n == 0 then [] else Deinterleave(l, out, n - 1) + Collect(l, out, n - 1)[..l.BlockLen(n - 1)]
  }

  lemma CollectIsCodeword(l: Layout, data: seq<bv8>, out: seq<bv8>, b: nat)
    requires l.Valid() && b < l.numBlocks && l.DataLen() <= |data|
    requires l.Interleaved(data) <= out
    ensures Collect(l, out, b) == l.Codeword(data, b)
    ensures IsCodeword(l.eccLen, Collect(l, out, b))
  {
    forall k | 0 <= k < l.BlockLen(b) + l.eccLen
      ensures CollectAt(l, out, b, k) == l.Codeword(data, b)[k]
    {
      l.SlotIsValid(b, k);
      var o := l.Slot(b, k);
      assert out[o] == l.Interleaved(data)[o] == l.OutputByte(data, o);
    }
    EncodingIsCodeword(l.eccLen, l.Block(data, b));
  }

  /** Reading every block back in order returns the data. */
  lemma {:induction false} DeinterleaveRestores(l: Layout, data: seq<bv8>, out: seq<bv8>, n: nat)
    requires l.Valid() && n <= l.numBlocks && l.DataLen() <= |data|
    requires l.Interleaved(data) <= out
    ensures l.BlockStart(n) <= |data|
    ensures Deinterleave(l, out, n) == data[..l.BlockStart(n)]
  {
    hide Collect, CheckBytes, Layout.Interleaved;
    if n > 0 {
      DeinterleaveRestores(l, data, out, n - 1);
      CollectIsCodeword(l, data, out, n - 1);
      l.BlockFits(n - 1);
      var mid, end := l.BlockStart(n - 1), l.BlockStart(n);
      assert Collect(l, out, n - 1)[..l.BlockLen(n - 1)] == data[mid..end];
      assert data[..mid] + data[mid..end] == data[..end];
    }
  }

  // The output is the standard's: data blocks in turn, then check bytes in turn.

  function DataBlocks(l: Layout, data: seq<bv8>): (r: seq<seq<bv8>>)
    requires l.Valid() && l.DataLen() <= |data|
    ensures |r| == l.numBlocks
  {
    seq(l.numBlocks, b requires 0 <= b < l.numBlocks => l.Block(data, b))
  }

  function CheckBlocks(l: Layout, data: seq<bv8>): (r: seq<seq<bv8>>)
    requires l.Valid() && l.DataLen() <= |data|
    ensures |r| == l.numBlocks
  {
    seq(l.numBlocks, b requires 0 <= b < l.numBlocks => CheckBytes(l.eccLen, l.Block(data, b)))
  }

  /** Where the bytes of a turn lie in the output. */
  lemma DataByteAt(l: Layout, data: seq<bv8>, b: nat, k: nat)
    requires l.Valid() && l.DataLen() <= |data| && b < l.numBlocks && k < l.BlockLen(b)
    ensures var o := if k < l.shortLen then At(l.numBlocks, k, b) else At(l.numBlocks, l.shortLen, b - l.numShort);
            o < l.TotalLen() && l.Interleaved(data)[o] == l.Block(data, b)[k]
  {
    l.SlotIsValid(b, k);
    hide CheckBytes, At, Quot, Rest, Layout.DataLen, Layout.BlockStart, Layout.Unslot;
  }

  lemma CheckByteAt(l: Layout, data: seq<bv8>, b: nat, k: nat)
    requires l.Valid() && l.DataLen() <= |data| && b < l.numBlocks && k < l.eccLen
    ensures var o := l.DataLen() + At(l.numBlocks, k, b);
            o < l.TotalLen() && l.Interleaved(data)[o] == CheckBytes(l.eccLen, l.Block(data, b))[k]
  {
    l.SlotIsValid(b, l.BlockLen(b) + k);
    hide CheckBytes, At, Quot, Rest, Layout.DataLen, Layout.BlockStart, Layout.Unslot;
  }

  lemma {:induction false} DataTurn(l: Layout, data: seq<bv8>, k: nat, n: nat)
    requires l.Valid() && l.DataLen() <= |data| && k < l.shortLen && n <= l.numBlocks
    ensures At(l.numBlocks, k, n) <= l.TotalLen()
    ensures Turn(DataBlocks(l, data), k, n) == l.Interleaved(data)[At(l.numBlocks, k, 0)..At(l.numBlocks, k, n)]
  {
    hide Layout.Block, Layout.TotalLen, Layout.Interleaved, At;
    AtSteps(l.numBlocks, k, 0);
    AtSteps(l.numBlocks, k, n);
    if n > 0 {
      DataTurn(l, data, k, n - 1);
      DataByteAt(l, data, n - 1, k);
      AtSteps(l.numBlocks, k, n - 1);
    } else {
      DataByteAt(l, data, 0, k);
    }
  }

  /** The turn to which only the long blocks contribute. */
  lemma {:induction false} LastDataTurn(l: Layout, data: seq<bv8>, n: nat)
    requires l.Valid() && l.DataLen() <= |data| && n <= l.numBlocks
    ensures var o, m := At(l.numBlocks, l.shortLen, 0), if n <= l.numShort then 0 else n - l.numShort;
            o + m <= l.DataLen() && Turn(DataBlocks(l, data), l.shortLen, n) == l.Interleaved(data)[o..o + m]
  {
    hide Layout.Block, Layout.Interleaved, At;
    AtSteps(l.numBlocks, l.shortLen, l.numBlocks - l.numShort);
    if n > 0 {
      LastDataTurn(l, data, n - 1);
      if n > l.numShort {
        DataByteAt(l, data, n - 1, l.shortLen);
        AtSteps(l.numBlocks, l.shortLen, n - 1 - l.numShort);
      }
    }
  }

  lemma {:induction false} CheckTurn(l: Layout, data: seq<bv8>, k: nat, n: nat)
    requires l.Valid() && l.DataLen() <= |data| && k < l.eccLen && n <= l.numBlocks
    ensures l.DataLen() + At(l.numBlocks, k, n) <= l.TotalLen()
    ensures Turn(CheckBlocks(l, data), k, n)
            == l.Interleaved(data)[l.DataLen() + At(l.numBlocks, k, 0)..l.DataLen() + At(l.numBlocks, k, n)]
  {
    hide Layout.Block, Layout.TotalLen, Layout.Interleaved, Layout.DataLen, CheckBytes, At;
    AtSteps(l.numBlocks, k, 0);
    AtSteps(l.numBlocks, k, n);
    if n > 0 {
      CheckTurn(l, data, k, n - 1);
      CheckByteAt(l, data, n - 1, k);
      AtSteps(l.numBlocks, k, n - 1);
    } else {
      CheckByteAt(l, data, 0, k);
    }
  }

  lemma {:induction false} DataTurns(l: Layout, data: seq<bv8>, k: nat)
    requires l.Valid() && l.DataLen() <= |data| && k <= l.shortLen
    ensures At(l.numBlocks, k, 0) <= l.DataLen()
    ensures Turns(DataBlocks(l, data), k) == l.Interleaved(data)[..At(l.numBlocks, k, 0)]
  {
    hide Layout.Block, Layout.Interleaved, At;
    AtSteps(l.numBlocks, l.shortLen, l.numBlocks - l.numShort);
    if k > 0 {
      DataTurns(l, data, k - 1);
      DataTurn(l, data, k - 1, l.numBlocks);
      AtSteps(l.numBlocks, k - 1, l.numBlocks);
      LaterTurn(l, k);
      SlicesJoin(l.Interleaved(data), 0, At(l.numBlocks, k - 1, 0), At(l.numBlocks, k, 0));
    } else {
      AtSteps(l.numBlocks, 0, 0);
      LaterTurn(l, 0);
    }
  }

  lemma SlicesJoin(s: seq<bv8>, a: nat, b: nat, c: nat)
    requires a <= b <= c <= |s|
    ensures s[a..b] + s[b..c] == s[a..c]
  {
  }

  lemma LaterTurn(l: Layout, k: nat)
    requires l.Valid() && k <= l.shortLen
    ensures At(l.numBlocks, k, 0) <= At(l.numBlocks, l.shortLen, 0)
  {
    MulMonotone(l.numBlocks, k, l.shortLen);
  }

  lemma {:induction false} CheckTurns(l: Layout, data: seq<bv8>, k: nat)
    requires l.Valid() && l.DataLen() <= |data| && k <= l.eccLen
    ensures l.DataLen() + At(l.numBlocks, k, 0) <= l.TotalLen()
    ensures Turns(CheckBlocks(l, data), k) == l.Interleaved(data)[l.DataLen()..l.DataLen() + At(l.numBlocks, k, 0)]
  {
    hide Layout.Block, Layout.TotalLen, Layout.Interleaved, Layout.DataLen, CheckBytes, At;
    if k > 0 {
      CheckTurns(l, data, k - 1);
      CheckTurn(l, data, k - 1, l.numBlocks);
      AtSteps(l.numBlocks, k - 1, l.numBlocks);
      SlicesJoin(l.Interleaved(data), l.DataLen(), l.DataLen() + At(l.numBlocks, k - 1, 0), l.DataLen() + At(l.numBlocks, k, 0));
    } else {
      AtSteps(l.numBlocks, 0, 0);
      CheckTurn(l, data, 0, 0);
    }
  }

  /** The interleaved bytes are the standard's: the data blocks in turn, then the check bytes in turn. */
  lemma InterleavedInTurns(l: Layout, data: seq<bv8>)
    requires l.Valid() && l.DataLen() <= |data|
    ensures l.Interleaved(data) == Turns(DataBlocks(l, data), l.shortLen + 1) + Turns(CheckBlocks(l, data), l.eccLen)
  {
    hide Layout.Block, Layout.Interleaved, CheckBytes, Turn, At;
    DataTurns(l, data, l.shortLen);
    LastDataTurn(l, data, l.numBlocks);
    AtSteps(l.numBlocks, l.shortLen, l.numBlocks - l.numShort);
    CheckTurns(l, data, l.eccLen);
  }

  /** The blocks are consecutive pieces of the data, the short ones first and the long ones one byte longer. */
  lemma BlocksInData(l: Layout, data: seq<bv8>, b: nat)
    requires l.Valid() && l.DataLen() <= |data| && b < l.numBlocks
    ensures var start := if b < l.numShort then b * l.shortLen else b * l.shortLen + (b - l.numShort);
            var len := if b < l.numShort then l.shortLen else l.shortLen + 1;
            start + len <= |data| && DataBlocks(l, data)[b] == data[start..start + len]
    ensures l.DataLen() == l.numBlocks * l.shortLen + (l.numBlocks - l.numShort)
  {
    l.BlockFits(b);
    hide Layout.DataLen;
    Commutes(b, l.shortLen);
  }

  lemma Commutes(a: nat, b: nat)
    ensures a * b == b * a
  {
  }

  // ---------------------------------------------------------------- the firmware's loops

  /** The layout that performErrorCorrection derives from the version tables. */
  function LayoutOf(numBlocks: nat, totalEcc: nat, moduleCount: nat): Layout
    requires 0 < numBlocks && totalEcc / numBlocks <= moduleCount / 8 / numBlocks
  {
    Layout(numBlocks, numBlocks - moduleCount / 8 % numBlocks,
           moduleCount / 8 / numBlocks - totalEcc / numBlocks, totalEcc / numBlocks)
  }

  /** The blocks and their check bytes fill the symbol's whole bytes exactly. */
  lemma LayoutFillsSymbol(numBlocks: nat, totalEcc: nat, moduleCount: nat)
    requires 0 < numBlocks && totalEcc / numBlocks <= moduleCount / 8 / numBlocks
    ensures var l := LayoutOf(numBlocks, totalEcc, moduleCount);
            && l.numShort <= l.numBlocks && l.TotalLen() == moduleCount / 8
            && l.eccLen == totalEcc / numBlocks && (0 < l.eccLen < 256 ==> l.Valid())
            && l.DataLen() == moduleCount / 8 - numBlocks * (totalEcc / numBlocks)
  {
    var l := LayoutOf(numBlocks, totalEcc, moduleCount);
    var raw := moduleCount / 8;
    assert raw == numBlocks * (raw / numBlocks) + raw % numBlocks;
    MulSplits(numBlocks, raw / numBlocks, totalEcc / numBlocks);
  }

  /** A data byte of the output, read straight from its block. */
  lemma OutputData(l: Layout, data: seq<bv8>, b: nat, k: nat)
    requires l.Valid() && l.DataLen() <= |data| && b < l.numBlocks && k < l.BlockLen(b)
    ensures l.Slot(b, k) < l.TotalLen() && l.BlockStart(b) + k < |data|
    ensures l.OutputByte(data, l.Slot(b, k)) == data[l.BlockStart(b) + k]
  {
    hide CheckBytes, At;
    l.SlotIsValid(b, k);
    l.BlockFits(b);
  }

  lemma OutputCheck(l: Layout, data: seq<bv8>, b: nat, j: nat)
    requires l.Valid() && l.DataLen() <= |data| && b < l.numBlocks && j < l.eccLen
    ensures l.DataLen() + At(l.numBlocks, j, b) < l.TotalLen()
    ensures l.OutputByte(data, l.DataLen() + At(l.numBlocks, j, b)) == CheckBytes(l.eccLen, l.Block(data, b))[j]
  {
    hide CheckBytes, At;
    l.SlotIsValid(b, l.BlockLen(b) + j);
  }

  lemma RowByte(l: Layout, data: seq<bv8>, b: nat, i: nat)
    requires l.Valid() && l.DataLen() <= |data| && b < l.numBlocks && i < l.shortLen
    ensures At(l.numBlocks, i, b) < At(l.numBlocks, l.shortLen, 0) <= l.DataLen() <= l.TotalLen()
    ensures l.BlockStart(b) + i < |data|
    ensures l.OutputByte(data, At(l.numBlocks, i, b)) == data[l.BlockStart(b) + i]
    ensures l.BlockStart(b + 1) == l.BlockStart(b) + l.BlockLen(b)
    ensures At(l.numBlocks, i, b + 1) == At(l.numBlocks, i, b) + 1
  {
    hide CheckBytes, At;
    OutputData(l, data, b, i);
    RowCell(l.numBlocks, i, b, l.shortLen);
    AtSteps(l.numBlocks, l.shortLen, l.numBlocks - l.numShort);
    AtSteps(l.numBlocks, i, b);
    AtSteps(l.numBlocks, i, b + 1);
    l.BlockFits(b);
  }

  /** The position of the last byte of long block j, where the second loop looks for it. */
  function LongIndex(l: Layout, j: nat): nat {
    l.shortLen * (l.numShort + 1) + j * (l.shortLen + 1)
  }

  lemma LongByte(l: Layout, data: seq<bv8>, j: nat)
    requires l.Valid() && l.DataLen() <= |data| && j < l.numBlocks - l.numShort
    ensures At(l.numBlocks, l.shortLen, j) == At(l.numBlocks, l.shortLen, 0) + j < l.DataLen() <= l.TotalLen()
    ensures LongIndex(l, j) < |data|
    ensures l.OutputByte(data, At(l.numBlocks, l.shortLen, j)) == data[LongIndex(l, j)]
    ensures LongIndex(l, j + 1) == LongIndex(l, j) + l.shortLen + 1
  {
    hide CheckBytes, Layout.OutputByte, Layout.TotalLen;
    OutputData(l, data, l.numShort + j, l.shortLen) by {
      hide At;
    }
    AtSteps(l.numBlocks, l.shortLen, j);
    AtSteps(l.numBlocks, l.shortLen, l.numBlocks - l.numShort);
    LongIndexIsStart(l, j);
    TotalBound(l);
  }

  lemma TotalBound(l: Layout)
    requires l.Valid()
    ensures l.DataLen() <= l.TotalLen()
  {
  }

  lemma LongIndexIsStart(l: Layout, j: nat)
    requires l.Valid()
    ensures LongIndex(l, j) == l.BlockStart(l.numShort + j) + l.shortLen
    ensures LongIndex(l, j + 1) == LongIndex(l, j) + l.shortLen + 1
  {
  }

  /** The first loop: byte i of every block, for every i that all blocks have. */
  method InterleaveRows(l: Layout, data: array<bv8>, result: array<bv8>) returns (offset: nat)
    requires l.Valid() && l.DataLen() <= data.Length && l.TotalLen() <= result.Length && data != result
    modifies result
    ensures offset == At(l.numBlocks, l.shortLen, 0) <= l.TotalLen()
    ensures forall o | 0 <= o < offset :: result[o] == l.OutputByte(data[..], o)
    ensures forall o | offset <= o < result.Length :: result[o] == old(result[o])
  {
    hide Layout.OutputByte, Layout.Slot, Layout.Unslot, Layout.BlockStart, Layout.DataLen, Layout.TotalLen, At;
    ghost var d := data[..];
    offset := 0;
    AtSteps(l.numBlocks, 0, 0);
    AtSteps(l.numBlocks, l.shortLen, 0);
    TotalBound(l);
    RowsEnd(l);
    l.BlocksEnd();
    for i := 0 to l.shortLen
      invariant offset == At(l.numBlocks, i, 0) <= l.TotalLen()
      invariant forall o | 0 <= o < offset :: result[o] == l.OutputByte(d, o)
      invariant forall o | offset <= o < result.Length :: result[o] == old(result[o])
    {
      var index := i;
      var stride := l.shortLen;
      for blockNum := 0 to l.numBlocks
        invariant offset == At(l.numBlocks, i, blockNum) <= l.TotalLen()
        invariant index == l.BlockStart(blockNum) + i
        invariant stride == l.shortLen + (if blockNum > l.numShort then 1 else 0)
        invariant forall o | 0 <= o < offset :: result[o] == l.OutputByte(d, o)
        invariant forall o | offset <= o < result.Length :: result[o] == old(result[o])
      {
        RowByte(l, d, blockNum, i);
        result[offset] := data[index];
        offset := offset + 1;
        if blockNum == l.numShort {
          stride := stride + 1;
        }
        index := index + stride;
      }
      AtSteps(l.numBlocks, i, 0);
    }
  }

  lemma RowsEnd(l: Layout)
    requires l.Valid()
    ensures At(l.numBlocks, l.shortLen, 0) <= l.TotalLen()
  {
  }

  /** The second loop: the last byte of every long block. */
  method InterleaveLongBlocks(l: Layout, data: array<bv8>, result: array<bv8>, start: nat) returns (offset: nat)
    requires l.Valid() && l.DataLen() <= data.Length && l.TotalLen() <= result.Length && data != result
    requires start == At(l.numBlocks, l.shortLen, 0) <= l.TotalLen()
    requires forall o | 0 <= o < start :: result[o] == l.OutputByte(data[..], o)
    modifies result
    ensures start <= offset == l.DataLen() <= l.TotalLen()
    ensures forall o | 0 <= o < offset :: result[o] == l.OutputByte(data[..], o)
    ensures forall o | offset <= o < result.Length :: result[o] == old(result[o])
  {
    hide Layout.OutputByte, Layout.Slot, Layout.Unslot, Layout.BlockStart, Layout.TotalLen, At, LongIndex;
    ghost var d := data[..];
    offset := start;
    LongIndexBegins(l);
    var index := l.shortLen * (l.numShort + 1);
    var stride := l.shortLen;
    AtSteps(l.numBlocks, l.shortLen, l.numBlocks - l.numShort);
    TotalBound(l);
    for blockNum := 0 to l.numBlocks - l.numShort
      invariant offset == start + blockNum <= l.TotalLen()
      invariant index == LongIndex(l, blockNum)
      invariant stride == l.shortLen + (if blockNum > 0 then 1 else 0)
      invariant forall o | 0 <= o < offset :: result[o] == l.OutputByte(d, o)
      invariant forall o | offset <= o < result.Length :: result[o] == old(result[o])
    {
      LongByte(l, d, blockNum);
      result[offset] := data[index];
      offset := offset + 1;
      if blockNum == 0 {
        stride := stride + 1;
      }
      index := index + stride;
    }
  }

  lemma LongIndexBegins(l: Layout)
    ensures LongIndex(l, 0) == l.shortLen * (l.numShort + 1)
  {
  }

  /** Position p of the check area, once the check bytes of the first n blocks are in place. */
  ghost predicate CheckDone(l: Layout, data: seq<bv8>, result: seq<bv8>, n: nat, p: nat)
    requires l.Valid() && l.DataLen() <= |data| && l.TotalLen() <= |result| && p < At(l.numBlocks, l.eccLen, 0)
  {
    result[l.DataLen() + p] == if Rest(p, l.numBlocks) < n then l.OutputByte(data, l.DataLen() + p) else 0
  }

  ghost predicate ChecksDone(l: Layout, data: seq<bv8>, result: seq<bv8>, n: nat)
    requires l.Valid() && l.DataLen() <= |data| && l.TotalLen() <= |result|
  {
    forall p: nat | p < At(l.numBlocks, l.eccLen, 0) :: CheckDone(l, data, result, n, p)
  }

  /** A position of block n's stride gets its check byte. */
  lemma CheckArrives(l: Layout, data: seq<bv8>, after: seq<bv8>, n: nat, p: nat)
    requires l.Valid() && l.DataLen() <= |data| && l.TotalLen() <= |after|
    requires n < l.numBlocks && p < At(l.numBlocks, l.eccLen, 0) && Rest(p, l.numBlocks) == n
    requires l.DataLen() + n + l.numBlocks * (l.eccLen - 1) < |after|
    requires Strided(after, l.DataLen() + n, l.numBlocks, l.eccLen) == CheckBytes(l.eccLen, l.Block(data, n))
    ensures l.DataLen() + p < l.TotalLen()
    ensures after[l.DataLen() + p] == l.OutputByte(data, l.DataLen() + p)
  {
    hide *;
    hide Layout.DataLen;
    BlockSizes(l);
    RowOf(l.numBlocks, p, l.eccLen);
    OutputCheck(l, data, n, Quot(p, l.numBlocks));
    OnStrideCell(after, l.DataLen(), l.numBlocks, l.eccLen, n, Quot(p, l.numBlocks));
  }

  /** Any other position keeps its byte. */
  lemma CheckStays(before: seq<bv8>, after: seq<bv8>, dl: nat, b: nat, e: nat, n: nat, p: nat)
    requires n < b && Rest(p, b) != n && dl + p < |before|
    requires AgreeOffStride(before, after, dl + n, b, e)
    ensures |after| == |before| && after[dl + p] == before[dl + p]
  {
    hide OnStride, Rest;
    OffStride(dl, b, n, e, p);
  }

  /** Writing the check bytes of block n along its stride settles position p. */
  lemma CheckAdvances(l: Layout, data: seq<bv8>, before: seq<bv8>, after: seq<bv8>, n: nat, p: nat)
    requires l.Valid() && l.DataLen() <= |data| && l.TotalLen() <= |before| == |after|
    requires n < l.numBlocks && p < At(l.numBlocks, l.eccLen, 0) && CheckDone(l, data, before, n, p)
    requires l.DataLen() + n + l.numBlocks * (l.eccLen - 1) < |after|
    requires Strided(after, l.DataLen() + n, l.numBlocks, l.eccLen) == CheckBytes(l.eccLen, l.Block(data, n))
    requires AgreeOffStride(before, after, l.DataLen() + n, l.numBlocks, l.eccLen)
    ensures CheckDone(l, data, after, n + 1, p)
  {
    hide CheckBytes, Strided, Layout.OutputByte, Layout.DataLen, Quot, Rest, Layout.Block, OnStride, AgreeOffStride, At;
    if Rest(p, l.numBlocks) == n {
      CheckArrives(l, data, after, n, p);
    } else {
      CheckStays(before, after, l.DataLen(), l.numBlocks, l.eccLen, n, p);
    }
  }

  lemma OnStrideCell(s: seq<bv8>, dl: nat, b: nat, e: nat, n: nat, j: nat)
    requires j < e && dl + n + b * (e - 1) < |s|
    ensures dl + At(b, j, n) < |s|
    ensures s[dl + At(b, j, n)] == Strided(s, dl + n, b, e)[j]
  {
    hide Strided;
    StridedCells(s, dl + n, b, e);
    AtIs(b, j, n);
    assert dl + n + b * j < |s|;
  }

  lemma OffStride(dl: nat, b: nat, n: nat, e: nat, p: nat)
    requires n < b && Rest(p, b) != n
    ensures !OnStride(dl + p, dl + n, b, e)
  {
    hide Rest, At;
    if OnStride(dl + p, dl + n, b, e) {
      var j: nat :| j < e && dl + p == dl + n + b * j;
      RowCell(b, j, n, e);
      AtIs(b, j, n);
      assert false;
    }
  }

  lemma AtIs(p: nat, row: nat, col: nat)
    ensures At(p, row, col) == p * row + col
  {
  }

  lemma ChecksAdvance(l: Layout, data: seq<bv8>, before: seq<bv8>, after: seq<bv8>, n: nat)
    requires l.Valid() && l.DataLen() <= |data| && l.TotalLen() <= |before| == |after|
    requires n < l.numBlocks && ChecksDone(l, data, before, n)
    requires l.DataLen() + n + l.numBlocks * (l.eccLen - 1) < |after|
    requires Strided(after, l.DataLen() + n, l.numBlocks, l.eccLen) == CheckBytes(l.eccLen, l.Block(data, n))
    requires AgreeOffStride(before, after, l.DataLen() + n, l.numBlocks, l.eccLen)
    ensures ChecksDone(l, data, after, n + 1)
  {
    hide CheckBytes, Strided, Layout.DataLen, Layout.TotalLen, Layout.Block, CheckDone, AgreeOffStride, At;
    var m := n + 1;
    forall p: nat | p < At(l.numBlocks, l.eccLen, 0)
      ensures CheckDone(l, data, after, m, p)
    {
      CheckAdvances(l, data, before, after, n, p);
    }
  }

  lemma ZerosAreStrided(l: Layout, data: seq<bv8>, result: seq<bv8>, n: nat)
    requires l.Valid() && l.DataLen() <= |data| && l.TotalLen() <= |result|
    requires n < l.numBlocks && ChecksDone(l, data, result, n)
    ensures l.DataLen() + n + l.numBlocks * (l.eccLen - 1) < l.TotalLen()
    ensures Strided(result, l.DataLen() + n, l.numBlocks, l.eccLen) == Zeros(l.eccLen)
  {
    hide Layout.OutputByte, Layout.DataLen, Quot, Rest, At;
    var dl, b := l.DataLen(), l.numBlocks;
    RowCell(b, l.eccLen - 1, n, l.eccLen);
    AtIs(b, l.eccLen - 1, n);
    var s := Strided(result, dl + n, b, l.eccLen);
    forall j | 0 <= j < l.eccLen
      ensures s[j] == 0
    {
      RowCell(b, j, n, l.eccLen);
      assert CheckDone(l, data, result, n, At(b, j, n));
      OnStrideCell(result, dl, b, l.eccLen, n, j);
    }
  }

  /** The third loop: the check bytes of every block, spread over the rest of the output. */
  method AppendCheckBytes(l: Layout, coeff: array<bv8>, data: array<bv8>, result: array<bv8>, offset: nat)
    requires l.Valid() && l.DataLen() <= data.Length && l.TotalLen() <= result.Length
    requires data != result && coeff != result
    requires coeff.Length == l.eccLen && coeff[..] == Generator(l.eccLen)[1..]
    requires offset == l.DataLen() <= l.TotalLen()
    requires forall o | offset <= o < result.Length :: result[o] == 0
    modifies result
    ensures forall o | 0 <= o < offset :: result[o] == old(result[o])
    ensures forall o | offset <= o < l.TotalLen() :: result[o] == l.OutputByte(data[..], o)
    ensures forall o | l.TotalLen() <= o < result.Length :: result[o] == 0
  {
    hide *;
    ghost var d := data[..];
    var first := 0;
    var blockSize := l.shortLen;
    BlockSizes(l);
    ChecksBegin(l, d, result[..]);
    for blockNum := 0 to l.numBlocks
      invariant first == l.BlockStart(blockNum)
      invariant blockSize == l.shortLen + (if blockNum > l.numShort then 1 else 0)
      invariant ChecksDone(l, d, result[..], blockNum)
      invariant forall o | 0 <= o < offset :: result[o] == old(result[o])
      invariant forall o | l.TotalLen() <= o < result.Length :: result[o] == 0
    {
      if blockNum == l.numShort {
        blockSize := blockSize + 1;
      }
      BlockIs(l, d, blockNum);
      ZerosAreStrided(l, d, result[..], blockNum);
      ghost var before := result[..];
      RsGetRemainder(l.eccLen, coeff, data, first, blockSize, result, offset + blockNum, l.numBlocks);
      CheckBytesAre(l.eccLen, d[first..first + blockSize]);
      AgreeIsSameLength(before, result[..], offset + blockNum, l.numBlocks, l.eccLen);
      ChecksAdvance(l, d, before, result[..], blockNum);
      OutsideChecks(l, before, result[..], blockNum);
      first := first + blockSize;
    }
    ChecksEnd(l, d, result[..]);
  }

  lemma BlockSizes(l: Layout)
    requires l.Valid()
    ensures 0 < l.numShort <= l.numBlocks && 0 < l.eccLen < 256 && l.BlockStart(0) == 0
  {
  }

  lemma AgreeIsSameLength(before: seq<bv8>, after: seq<bv8>, start: nat, stride: nat, n: nat)
    requires AgreeOffStride(before, after, start, stride, n)
    ensures |before| == |after|
  {
  }

  lemma CheckBytesAre(e: nat, block: seq<bv8>)
    requires e > 0
    ensures CheckBytes(e, block) == Remainder(Generator(e)[1..], Zeros(e), block)
  {
  }

  lemma BlockIs(l: Layout, data: seq<bv8>, b: nat)
    requires l.Valid() && b < l.numBlocks && l.DataLen() <= |data|
    ensures l.BlockStart(b) + l.BlockLen(b) == l.BlockStart(b + 1) <= |data|
    ensures l.BlockLen(b) == if b < l.numShort then l.shortLen else l.shortLen + 1
    ensures l.Block(data, b) == data[l.BlockStart(b)..l.BlockStart(b) + l.BlockLen(b)]
  {
    l.BlockFits(b);
  }

  lemma ChecksBegin(l: Layout, data: seq<bv8>, result: seq<bv8>)
    requires l.Valid() && l.DataLen() <= |data| && l.TotalLen() <= |result|
    requires forall o | l.DataLen() <= o < |result| :: result[o] == 0
    ensures ChecksDone(l, data, result, 0)
  {
    hide Layout.OutputByte;
  }

  lemma ChecksEnd(l: Layout, data: seq<bv8>, result: seq<bv8>)
    requires l.Valid() && l.DataLen() <= |data| && l.TotalLen() <= |result|
    requires ChecksDone(l, data, result, l.numBlocks)
    ensures forall o | l.DataLen() <= o < l.TotalLen() :: result[o] == l.OutputByte(data, o)
  {
    hide Layout.OutputByte, Layout.DataLen, Quot, Rest, At;
    forall o | l.DataLen() <= o < l.TotalLen()
      ensures result[o] == l.OutputByte(data, o)
    {
      var p := o - l.DataLen();
      RowOf(l.numBlocks, p, l.eccLen);
      assert CheckDone(l, data, result, l.numBlocks, p);
    }
  }

  /** The stride of block n stays inside the check area. */
  lemma OutsideChecks(l: Layout, before: seq<bv8>, after: seq<bv8>, n: nat)
    requires l.Valid() && n < l.numBlocks && l.TotalLen() <= |before|
    requires AgreeOffStride(before, after, l.DataLen() + n, l.numBlocks, l.eccLen)
    ensures |before| == |after|
    ensures forall o: nat | o < l.DataLen() || l.TotalLen() <= o < |before| :: after[o] == before[o]
  {
    hide Layout.DataLen, At;
    forall o: nat | o < l.DataLen() || l.TotalLen() <= o < |before|
      ensures after[o] == before[o]
    {
      if OnStride(o, l.DataLen() + n, l.numBlocks, l.eccLen) {
        var j: nat :| j < l.eccLen && o == l.DataLen() + n + l.numBlocks * j;
        RowCell(l.numBlocks, j, n, l.eccLen);
        AtIs(l.numBlocks, j, n);
        assert false;
      }
    }
  }

  /** All three loops, into a cleared buffer as long as the message. */
  method InterleaveBlocks(l: Layout, data: array<bv8>) returns (result: array<bv8>)
    requires l.Valid() && l.TotalLen() <= data.Length
    ensures fresh(result) && result.Length == data.Length && l.DataLen() <= l.TotalLen()
    ensures result[..] == l.Interleaved(data[..]) + Zeros(data.Length - l.TotalLen())
  {
    hide Layout.OutputByte, Generator, Layout.DataLen, Layout.TotalLen, At;
    TotalBound(l);
    result := new bv8[data.Length](_ => 0);
    var coeff := new bv8[l.eccLen];
    RsInit(l.eccLen, coeff);
    ghost var generator := coeff[..];
    var offset := InterleaveRows(l, data, result);
    offset := InterleaveLongBlocks(l, data, result, offset);
    assert coeff[..] == generator;
    AppendCheckBytes(l, coeff, data, result, offset);
  }

  /** memcpy. */
  method CopyBytes(target: array<bv8>, source: array<bv8>)
    requires target != source && target.Length == source.Length
    modifies target
    ensures target[..] == source[..]
  {
    for i := 0 to target.Length
      invariant target[..i] == source[..i]
    {
      target[i] := source[i];
    }
    assert target[..] == target[..target.Length] && source[..] == source[..target.Length];
  }

  /**
   The table entries of the version stand as parameters: the number of blocks, the number of
   check bytes in all of them, and the number of modules that hold data.
   */
  method PerformErrorCorrection(numBlocks: nat, totalEcc: nat, moduleCount: nat, data: BitBucket)
    requires 0 < numBlocks < 256 && 0 < totalEcc / numBlocks < 256
    requires totalEcc / numBlocks <= moduleCount / 8 / numBlocks < 255
    requires data.data.Length == (moduleCount + 7) / 8
    modifies data, data.data
    ensures data.data == old(data.data) && data.bitOffsetOrWidth == moduleCount
    ensures var l := LayoutOf(numBlocks, totalEcc, moduleCount);
            && l.Valid() && l.TotalLen() == moduleCount / 8 <= data.data.Length && l.DataLen() <= l.TotalLen()
            && data.data[..] == l.Interleaved(old(data.data[..])) + Zeros(data.data.Length - l.TotalLen())
  {
    hide LayoutOf, Layout.Interleaved, Layout.DataLen, Layout.TotalLen, At;
    var l := LayoutOf(numBlocks, totalEcc, moduleCount);
    LayoutFillsSymbol(numBlocks, totalEcc, moduleCount);
    TotalBound(l);
    var result := InterleaveBlocks(l, data.data);
    CopyBytes(data.data, result);
    data.bitOffsetOrWidth := moduleCount;
  }
}
