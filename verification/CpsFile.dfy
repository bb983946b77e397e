/** The codeplug file as the C library shows it: bytes and a cursor; and the block move that makes room in it. */
module CpsFiles {
  import opened Bytes

  const CPS_CHUNK_SIZE: nat := 1024

  function Least(a: nat, b: nat): nat {
    if a < b then a else b
  }

  function Zeroes(n: nat): (r: seq<Byte>)
    ensures |r| == n
  {
    seq(n, _ => 0)
  }

  /** The file after writing b at p; a gap between its end and p is filled with zeros. */
  function Overwritten(s: seq<Byte>, p: nat, b: seq<Byte>): (r: seq<Byte>)
    ensures |b| > 0 ==> |r| == if p + |b| < |s| then |s| else p + |b|
  {
    if |b| == 0 then s
    else if p + |b| <= |s| then s[..p] + b + s[p + |b|..]
    else s[..Least(p, |s|)] + Zeroes(p - Least(p, |s|)) + b
  }

  class CpsFile {
    var data: seq<Byte>
    var pos: nat

    constructor (data: seq<Byte>)
      ensures this.data == data && pos == 0
    {
      this.data := data;
      pos := 0;
    }

    method Seek(p: nat)
      modifies this`pos
      ensures pos == p
    {
      pos := p;
    }

    /** A seek relative to the cursor; one to a place before the file fails and leaves the cursor. */
    method SeekBy(delta: int)
      modifies this`pos
      ensures pos == if old(pos) + delta >= 0 then old(pos) + delta else old(pos)
    {
      if pos + delta >= 0 {
        pos := pos + delta;
      }
    }

    /** fread of one item of n bytes; short at the end of the file. */
    method Read(n: nat) returns (b: seq<Byte>)
      modifies this`pos
      ensures b == data[Least(old(pos), |data|)..Least(old(pos) + n, |data|)]
      ensures pos == old(pos) + |b|
    {
      b := data[Least(pos, |data|)..Least(pos + n, |data|)];
      pos := pos + |b|;
    }

    method Write(b: seq<Byte>)
      modifies this
      ensures data == Overwritten(old(data), old(pos), b)
      ensures pos == old(pos) + |b|
    {
      data := Overwritten(data, pos, b);
      pos := pos + |b|;
    }

    /** One chunk of the move: n bytes from p to p + amount. */
    method MoveChunk(p: nat, n: nat, amount: nat)
      requires p + n <= |data|
      modifies this
      ensures data == Overwritten(old(data), p + amount, old(data)[p..p + n])
    {
      Seek(p);
      var buffer := Read(n);
      Seek(p + amount);
      Write(buffer);
    }

    /**
     Everything from offset on moves by amount, whatever the two are, and the cursor is left at
     the hole. At the end of the file there is nothing to move.
     */
    method PushDown(offset: nat, amount: nat)
      requires offset <= |data|
      modifies this
      ensures pos == offset
      ensures offset == |old(data)| ==> data == old(data)
      ensures offset < |old(data)| ==> Pushed(old(data), data, offset, amount)
    {
      var end := |data|;
      pos := end;
      if offset == end {
        return;
      }
      hide Overwritten, MovedFrom, Pushed;
      ghost var was := data;
      MoveBegins(was, amount);
      var chunks, tail := (end - offset) / CPS_CHUNK_SIZE, (end - offset) % CPS_CHUNK_SIZE;
      assert end == offset + tail + CPS_CHUNK_SIZE * chunks;
      var i := 1;
      while i <= chunks
        invariant 1 <= i <= chunks + 1
        invariant MovedFrom(was, data, end - (i - 1) * CPS_CHUNK_SIZE, amount)
      {
        MoveNext(was, end - (i - 1) * CPS_CHUNK_SIZE, CPS_CHUNK_SIZE, amount);
        i := i + 1;
      }
      MoveNext(was, offset + tail, tail, amount);
      MoveEnds(was, data, offset, amount);
      Seek(offset);
    }

    /** The chunk below q moves. */
    method MoveNext(ghost was: seq<Byte>, q: nat, n: nat, amount: nat)
      requires n <= q && MovedFrom(was, data, q, amount)
      modifies this
      ensures MovedFrom(was, data, q - n, amount)
    {
      hide Overwritten;
      ghost var before := data;
      MoveChunk(q - n, n, amount);
      MoveStep(was, before, data, q, n, amount);
    }
  }

  /** The block from offset on has moved by amount; what lay before it is unchanged. */
  ghost predicate Pushed(was: seq<Byte>, now: seq<Byte>, offset: nat, amount: nat) {
    && offset <= |was| && |now| == |was| + amount
    && now[..offset] == was[..offset] && now[offset + amount..] == was[offset..]
  }

  /** The move has been done for everything from q on, and has not touched what lies below. */
  ghost predicate MovedFrom(was: seq<Byte>, now: seq<Byte>, q: int, amount: nat) {
    && 0 <= q <= |was|
    && |now| == (if q < |was| then |was| + amount else |was|)
    && (forall k | 0 <= k < |was| && k < q + amount :: now[k] == was[k])
    && (forall k | q <= k < |was| :: now[k + amount] == was[k])
  }

  lemma MoveBegins(was: seq<Byte>, amount: nat)
    ensures MovedFrom(was, was, |was|, amount)
  {
  }

  /** Moving the n bytes below q extends the move down to q - n. */
  lemma MoveStep(was: seq<Byte>, before: seq<Byte>, after: seq<Byte>, q: nat, n: nat, amount: nat)
    requires MovedFrom(was, before, q, amount) && n <= q <= |before|
    requires after == Overwritten(before, q - n + amount, before[q - n..q])
    ensures MovedFrom(was, after, q - n, amount)
  {
  }

  lemma MoveEnds(was: seq<Byte>, now: seq<Byte>, offset: nat, amount: nat)
    requires MovedFrom(was, now, offset, amount) && offset < |was|
    ensures Pushed(was, now, offset, amount)
  {
  }
}
