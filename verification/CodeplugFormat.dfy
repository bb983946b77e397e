/**
 The codeplug file format: header, contacts, channels, a table of bank offsets, and the banks;
 and the edits of a codeplug as operations on lists of records.
 */
module CodeplugFormat {
  import opened Bytes
  import opened CpsFiles

  const CPS_MAGIC: nat := 0x43585452
  const CPS_VERSION_MAJOR: nat := 0
  const CPS_VERSION_MINOR: nat := 1

  const HEADER_SIZE: nat := 88
  const CONTACT_SIZE: nat := 39
  const CHANNEL_SIZE: nat := 94
  const BANK_HEADER_SIZE: nat := 34
  const WORD_SIZE: nat := 4

  const OPMODE_DMR: nat := 2
  const OPMODE_M17: nat := 3

  // ---------------------------------------------------------------- records

  /** meta holds author, description and timestamp. */
  datatype Header = Header(magic: nat, version: nat, meta: seq<Byte>, ctCount: nat, chCount: nat, bCount: nat)

  function EncodeHeader(h: Header): seq<Byte> {
    LittleEndian(h.magic, 8) + LittleEndian(h.version, 2) + h.meta
    + LittleEndian(h.ctCount, 2) + LittleEndian(h.chCount, 2) + LittleEndian(h.bCount, 2)
  }

  function DecodeHeader(b: seq<Byte>): Header
    requires |b| == HEADER_SIZE
  {
    Header(FromLittleEndian(b[..8]), FromLittleEndian(b[8..10]), b[10..82],
           FromLittleEndian(b[82..84]), FromLittleEndian(b[84..86]), FromLittleEndian(b[86..88]))
  }

  predicate HeaderFits(h: Header) {
    h.magic < Pow256(8) && h.version < 0x10000 && |h.meta| == 72
    && h.ctCount < 0x10000 && h.chCount < 0x10000 && h.bCount < 0x10000
  }

  lemma HeaderReadBack(h: Header)
    requires HeaderFits(h)
    ensures |EncodeHeader(h)| == HEADER_SIZE && DecodeHeader(EncodeHeader(h)) == h
  {
    var b := EncodeHeader(h);
    SmallPowers256();
    LittleEndianReadBack(h.magic, 8);
    LittleEndianReadBack(h.version, 2);
    LittleEndianReadBack(h.ctCount, 2);
    LittleEndianReadBack(h.chCount, 2);
    LittleEndianReadBack(h.bCount, 2);
    hide LittleEndian, FromLittleEndian, Pow256;
    assert b[..8] == LittleEndian(h.magic, 8);
    assert b[8..10] == LittleEndian(h.version, 2);
    assert b[10..82] == h.meta;
    assert b[82..84] == LittleEndian(h.ctCount, 2);
    assert b[84..86] == LittleEndian(h.chCount, 2);
    assert b[86..88] == LittleEndian(h.bCount, 2);
  }

  /** The validation of _readHeader. */
  predicate Accepted(h: Header) {
    h.magic == CPS_MAGIC && h.version / 256 % 256 == CPS_VERSION_MAJOR && h.version % 256 <= CPS_VERSION_MINOR
  }

  /** A bank header: a name and the number of entries that follow it. */
  datatype BankHeader = BankHeader(name: seq<Byte>, chCount: nat)

  function EncodeBankHeader(b: BankHeader): seq<Byte> {
    b.name + LittleEndian(b.chCount, 2)
  }

  function DecodeBankHeader(b: seq<Byte>): BankHeader
    requires |b| == BANK_HEADER_SIZE
  {
    BankHeader(b[..32], FromLittleEndian(b[32..34]))
  }

  lemma BankHeaderReadBack(b: BankHeader)
    requires |b.name| == 32 && b.chCount < 0x10000
    ensures |EncodeBankHeader(b)| == BANK_HEADER_SIZE && DecodeBankHeader(EncodeBankHeader(b)) == b
  {
    SmallPowers256();
    LittleEndianReadBack(b.chCount, 2);
    hide LittleEndian, FromLittleEndian;
    assert EncodeBankHeader(b)[..32] == b.name;
    assert EncodeBankHeader(b)[32..34] == LittleEndian(b.chCount, 2);
  }

  // ---------------------------------------------------------------- lists of records

  function Flat(rs: seq<seq<Byte>>): seq<Byte> {
    if |rs| == 0 then [] else Flat(rs[..|rs| - 1]) + rs[|rs| - 1]
  }

  lemma {:induction false} FlatConcat(a: seq<seq<Byte>>, b: seq<seq<Byte>>)
    ensures Flat(a + b) == Flat(a) + Flat(b)
  {
    if |b| == 0 {
      assert a + b == a;
    } else {
      FlatConcat(a, b[..|b| - 1]);
      assert (a + b)[..|a + b| - 1] == a + b[..|b| - 1];
    }
  }

  predicate AllOfLength(rs: seq<seq<Byte>>, n: nat) {
    forall i | 0 <= i < |rs| :: |rs[i]| == n
  }

  lemma {:induction false} FlatLength(rs: seq<seq<Byte>>, n: nat)
    requires AllOfLength(rs, n)
    ensures |Flat(rs)| == |rs| * n
  {
    if |rs| > 0 {
      FlatLength(rs[..|rs| - 1], n);
      assert (|rs| - 1) * n + n == |rs| * n;
    }
  }

  lemma FlatAppend(rs: seq<seq<Byte>>, r: seq<Byte>)
    ensures Flat(rs + [r]) == Flat(rs) + r
  {
    assert (rs + [r])[..|rs|] == rs;
  }

  lemma FlatAround(rs: seq<seq<Byte>>, i: nat)
    requires i < |rs|
    ensures Flat(rs) == Flat(rs[..i]) + rs[i] + Flat(rs[i + 1..])
  {
    hide Flat;
    FlatConcat(rs[..i + 1], rs[i + 1..]);
    FlatAppend(rs[..i], rs[i]);
    assert rs == rs[..i + 1] + rs[i + 1..];
    assert rs[..i + 1] == rs[..i] + [rs[i]];
  }

  lemma FlatSplit(rs: seq<seq<Byte>>, i: nat)
    requires i <= |rs|
    ensures Flat(rs) == Flat(rs[..i]) + Flat(rs[i..])
  {
    FlatConcat(rs[..i], rs[i..]);
    assert rs == rs[..i] + rs[i..];
  }

  /** b put into s at p, everything from p on moving up. */
  function InsertedAt(s: seq<Byte>, p: nat, b: seq<Byte>): (r: seq<Byte>)
    requires p <= |s|
    ensures |r| == |s| + |b|
  {
    s[..p] + b + s[p..]
  }

  function InsertAt<T>(s: seq<T>, i: nat, x: T): (r: seq<T>)
    requires i <= |s|
    ensures |r| == |s| + 1
  {
    s[..i] + [x] + s[i..]
  }

  /** Record i of a list in the middle of a file. */
  lemma ReadRecord(pre: seq<Byte>, rs: seq<seq<Byte>>, post: seq<Byte>, i: nat)
    requires i < |rs|
    ensures var data, p := pre + Flat(rs) + post, |pre| + |Flat(rs[..i])|;
            p + |rs[i]| <= |data| && data[p..p + |rs[i]|] == rs[i]
  {
    hide Flat;
    FlatAround(rs, i);
  }

  lemma WriteRecord(pre: seq<Byte>, rs: seq<seq<Byte>>, post: seq<Byte>, i: nat, r: seq<Byte>)
    requires i < |rs| && |r| == |rs[i]| > 0
    ensures Overwritten(pre + Flat(rs) + post, |pre| + |Flat(rs[..i])|, r) == pre + Flat(rs[i := r]) + post
  {
    hide Flat, Overwritten;
    var t := rs[i := r];
    assert t[..i] == rs[..i] && t[i + 1..] == rs[i + 1..] && t[i] == r;
    FlatAround(rs, i);
    FlatAround(t, i);
    var a, z := Flat(rs[..i]), Flat(rs[i + 1..]);
    Regroup(pre, a, rs[i], z, post);
    Regroup(pre, a, r, z, post);
    OverwriteMiddle(pre + a, rs[i], z + post, r);
    assert |pre + a| == |pre| + |a|;
  }

  lemma Regroup(pre: seq<Byte>, a: seq<Byte>, r: seq<Byte>, z: seq<Byte>, post: seq<Byte>)
    ensures pre + (a + r + z) + post == (pre + a) + r + (z + post)
  {
  }

  lemma OverwriteMiddle(x: seq<Byte>, y: seq<Byte>, z: seq<Byte>, y': seq<Byte>)
    requires |y| == |y'| > 0
    ensures Overwritten(x + y + z, |x|, y') == x + y' + z
  {
  }

  lemma FlatInserted(rs: seq<seq<Byte>>, i: nat, r: seq<Byte>)
    requires i <= |rs|
    ensures Flat(InsertAt(rs, i, r)) == Flat(rs[..i]) + r + Flat(rs[i..])
  {
    hide Flat;
    var t := InsertAt(rs, i, r);
    FlatAround(t, i);
    assert t[..i] == rs[..i] && t[i] == r && t[i + 1..] == rs[i..];
  }

  lemma InsertRecord(pre: seq<Byte>, rs: seq<seq<Byte>>, post: seq<Byte>, i: nat, r: seq<Byte>)
    requires i <= |rs|
    ensures |pre| + |Flat(rs[..i])| <= |pre + Flat(rs) + post|
    ensures InsertedAt(pre + Flat(rs) + post, |pre| + |Flat(rs[..i])|, r) == pre + Flat(InsertAt(rs, i, r)) + post
  {
    hide *;
    var a, z := Flat(rs[..i]), Flat(rs[i..]);
    FlatSplit(rs, i);
    FlatInserted(rs, i, r);
    Regroup(pre, a, r, z, post);
    Regroup(pre, a, [], z, post);
    assert a + [] + z == a + z;
    InsertMiddle(pre + a, z + post, r);
  }

  lemma InsertMiddle(x: seq<Byte>, z: seq<Byte>, r: seq<Byte>)
    ensures InsertedAt(x + [] + z, |x|, r) == x + r + z
  {
  }

  // ---------------------------------------------------------------- files as they are while being edited

  /** The parts of a file; tail is whatever follows the offset table. */
  datatype Layout = Layout(header: Header, contacts: seq<seq<Byte>>, channels: seq<seq<Byte>>,
                           offsets: seq<nat>, tail: seq<Byte>)

  function Words(vs: seq<nat>): (r: seq<seq<Byte>>)
    ensures |r| == |vs|
  {
    seq(|vs|, i requires 0 <= i < |vs| => LittleEndian(vs[i], 4))
  }

  function FileBytes(l: Layout): seq<Byte> {
    EncodeHeader(l.header) + Flat(l.contacts) + Flat(l.channels) + Flat(Words(l.offsets)) + l.tail
  }

  /** All records have their size. In the middle of an insertion the header's counts may be behind. */
  ghost predicate LayoutSized(l: Layout) {
    && HeaderFits(l.header) && AllOfLength(l.contacts, CONTACT_SIZE) && AllOfLength(l.channels, CHANNEL_SIZE)
  }

  /** Besides, the header's counts are right and all offsets fit their fields. */
  ghost predicate LayoutFits(l: Layout) {
    && LayoutSized(l) && Accepted(l.header)
    && |l.contacts| == l.header.ctCount && |l.channels| == l.header.chCount && |l.offsets| == l.header.bCount
    && (forall i | 0 <= i < |l.offsets| :: l.offsets[i] < 0x1_0000_0000)
  }

  /** The positions of the four parts after the header. */
  function ContactsAt(l: Layout): nat {
    HEADER_SIZE
  }

  function ChannelsAt(l: Layout): nat {
    ContactsAt(l) + CONTACT_SIZE * |l.contacts|
  }

  function OffsetsAt(l: Layout): nat {
    ChannelsAt(l) + CHANNEL_SIZE * |l.channels|
  }

  function TailAt(l: Layout): nat {
    OffsetsAt(l) + WORD_SIZE * |l.offsets|
  }

  lemma LayoutPositions(l: Layout)
    requires LayoutSized(l)
    ensures |EncodeHeader(l.header)| == HEADER_SIZE
    ensures |EncodeHeader(l.header) + Flat(l.contacts)| == ChannelsAt(l)
    ensures |EncodeHeader(l.header) + Flat(l.contacts) + Flat(l.channels)| == OffsetsAt(l)
    ensures |EncodeHeader(l.header) + Flat(l.contacts) + Flat(l.channels) + Flat(Words(l.offsets))| == TailAt(l)
  {
    HeaderReadBack(l.header);
    FlatLength(l.contacts, CONTACT_SIZE);
    FlatLength(l.channels, CHANNEL_SIZE);
    FlatLength(Words(l.offsets), WORD_SIZE);
    hide Flat, EncodeHeader;
  }

  function Front(l: Layout): seq<Byte> {
    EncodeHeader(l.header) + Flat(l.contacts) + Flat(l.channels) + Flat(Words(l.offsets))
  }

  lemma PrefixLength(rs: seq<seq<Byte>>, n: nat, i: nat)
    requires AllOfLength(rs, n) && i <= |rs|
    ensures |Flat(rs[..i])| == n * i
  {
    FlatLength(rs[..i], n);
  }

  lemma WordsAreWords(vs: seq<nat>)
    ensures AllOfLength(Words(vs), WORD_SIZE)
  {
    hide LittleEndian;
  }

  // The four lists of a file, each as a list in the middle of the whole.

  lemma AroundContacts(l: Layout) returns (pre: seq<Byte>, post: seq<Byte>)
    requires LayoutSized(l)
    ensures |pre| == ContactsAt(l)
    ensures forall rs {:trigger l.(contacts := rs)} :: FileBytes(l.(contacts := rs)) == pre + Flat(rs) + post
    ensures FileBytes(l) == pre + Flat(l.contacts) + post
  {
    LayoutPositions(l);
    hide Flat, EncodeHeader, Words;
    pre := EncodeHeader(l.header);
    post := Flat(l.channels) + Flat(Words(l.offsets)) + l.tail;
    forall rs
      ensures FileBytes(l.(contacts := rs)) == pre + Flat(rs) + post
    {
    }
    assert l.(contacts := l.contacts) == l;
  }

  lemma AroundChannels(l: Layout) returns (pre: seq<Byte>, post: seq<Byte>)
    requires LayoutSized(l)
    ensures |pre| == ChannelsAt(l)
    ensures forall rs {:trigger l.(channels := rs)} :: FileBytes(l.(channels := rs)) == pre + Flat(rs) + post
    ensures FileBytes(l) == pre + Flat(l.channels) + post
  {
    LayoutPositions(l);
    hide Flat, EncodeHeader, Words;
    pre := EncodeHeader(l.header) + Flat(l.contacts);
    post := Flat(Words(l.offsets)) + l.tail;
    forall rs
      ensures FileBytes(l.(channels := rs)) == pre + Flat(rs) + post
    {
    }
    assert l.(channels := l.channels) == l;
  }

  lemma AroundOffsets(l: Layout) returns (pre: seq<Byte>, post: seq<Byte>)
    requires LayoutSized(l)
    ensures |pre| == OffsetsAt(l)
    ensures forall vs {:trigger l.(offsets := vs)} :: FileBytes(l.(offsets := vs)) == pre + Flat(Words(vs)) + post
    ensures FileBytes(l) == pre + Flat(Words(l.offsets)) + post
  {
    LayoutPositions(l);
    hide Flat, EncodeHeader, Words;
    pre := EncodeHeader(l.header) + Flat(l.contacts) + Flat(l.channels);
    post := l.tail;
    forall vs
      ensures FileBytes(l.(offsets := vs)) == pre + Flat(Words(vs)) + post
    {
    }
    assert l.(offsets := l.offsets) == l;
  }

  // ---------------------------------------------------------------- reading and writing a file's parts

  lemma HeaderOfFile(l: Layout)
    requires LayoutSized(l)
    ensures |FileBytes(l)| >= HEADER_SIZE && DecodeHeader(FileBytes(l)[..HEADER_SIZE]) == l.header
  {
    HeaderReadBack(l.header);
    hide EncodeHeader, DecodeHeader, Flat;
    assert FileBytes(l)[..HEADER_SIZE] == EncodeHeader(l.header);
  }

  lemma HeaderWritten(l: Layout, h: Header)
    requires LayoutSized(l) && HeaderFits(h)
    ensures Overwritten(FileBytes(l), 0, EncodeHeader(h)) == FileBytes(l.(header := h))
  {
    HeaderReadBack(l.header);
    HeaderReadBack(h);
    hide EncodeHeader, DecodeHeader, Flat, Overwritten;
    var rest := Flat(l.contacts) + Flat(l.channels) + Flat(Words(l.offsets)) + l.tail;
    FirstOfFive(EncodeHeader(l.header), Flat(l.contacts), Flat(l.channels), Flat(Words(l.offsets)), l.tail);
    FirstOfFive(EncodeHeader(h), Flat(l.contacts), Flat(l.channels), Flat(Words(l.offsets)), l.tail);
    OverwriteMiddle([], EncodeHeader(l.header), rest, EncodeHeader(h));
  }

  lemma FirstOfFive(a: seq<Byte>, b: seq<Byte>, c: seq<Byte>, d: seq<Byte>, e: seq<Byte>)
    ensures a + b + c + d + e == [] + a + (b + c + d + e)
  {
  }

  lemma ContactOfFile(l: Layout, i: nat)
    requires LayoutSized(l) && i < |l.contacts|
    ensures var p := ContactsAt(l) + CONTACT_SIZE * i;
            p + CONTACT_SIZE <= |FileBytes(l)| && FileBytes(l)[p..p + CONTACT_SIZE] == l.contacts[i]
  {
    hide FileBytes, Flat;
    var pre, post := AroundContacts(l);
    PrefixLength(l.contacts, CONTACT_SIZE, i);
    ReadRecord(pre, l.contacts, post, i);
  }

  lemma ContactWritten(l: Layout, i: nat, r: seq<Byte>)
    requires LayoutSized(l) && i < |l.contacts| && |r| == CONTACT_SIZE
    ensures Overwritten(FileBytes(l), ContactsAt(l) + CONTACT_SIZE * i, r) == FileBytes(l.(contacts := l.contacts[i := r]))
  {
    hide FileBytes, Flat, Overwritten;
    var pre, post := AroundContacts(l);
    PrefixLength(l.contacts, CONTACT_SIZE, i);
    WriteRecord(pre, l.contacts, post, i, r);
  }

  lemma ContactInserted(l: Layout, i: nat, r: seq<Byte>)
    requires LayoutSized(l) && i <= |l.contacts|
    ensures ContactsAt(l) + CONTACT_SIZE * i <= |FileBytes(l)|
    ensures InsertedAt(FileBytes(l), ContactsAt(l) + CONTACT_SIZE * i, r)
            == FileBytes(l.(contacts := InsertAt(l.contacts, i, r)))
  {
    hide FileBytes, Flat, InsertedAt, InsertAt;
    var pre, post := AroundContacts(l);
    PrefixLength(l.contacts, CONTACT_SIZE, i);
    InsertRecord(pre, l.contacts, post, i, r);
  }

  lemma ChannelOfFile(l: Layout, i: nat)
    requires LayoutSized(l) && i < |l.channels|
    ensures var p := ChannelsAt(l) + CHANNEL_SIZE * i;
            p + CHANNEL_SIZE <= |FileBytes(l)| && FileBytes(l)[p..p + CHANNEL_SIZE] == l.channels[i]
  {
    hide FileBytes, Flat;
    var pre, post := AroundChannels(l);
    PrefixLength(l.channels, CHANNEL_SIZE, i);
    ReadRecord(pre, l.channels, post, i);
  }

  lemma ChannelWritten(l: Layout, i: nat, r: seq<Byte>)
    requires LayoutSized(l) && i < |l.channels| && |r| == CHANNEL_SIZE
    ensures Overwritten(FileBytes(l), ChannelsAt(l) + CHANNEL_SIZE * i, r) == FileBytes(l.(channels := l.channels[i := r]))
  {
    hide FileBytes, Flat, Overwritten;
    var pre, post := AroundChannels(l);
    PrefixLength(l.channels, CHANNEL_SIZE, i);
    WriteRecord(pre, l.channels, post, i, r);
  }

  lemma ChannelInserted(l: Layout, i: nat, r: seq<Byte>)
    requires LayoutSized(l) && i <= |l.channels|
    ensures ChannelsAt(l) + CHANNEL_SIZE * i <= |FileBytes(l)|
    ensures InsertedAt(FileBytes(l), ChannelsAt(l) + CHANNEL_SIZE * i, r)
            == FileBytes(l.(channels := InsertAt(l.channels, i, r)))
  {
    hide FileBytes, Flat, InsertedAt, InsertAt;
    var pre, post := AroundChannels(l);
    PrefixLength(l.channels, CHANNEL_SIZE, i);
    InsertRecord(pre, l.channels, post, i, r);
  }

  lemma WordReadBack(v: nat)
    requires v < 0x1_0000_0000
    ensures FromLittleEndian(LittleEndian(v, 4)) == v
  {
    SmallPowers256();
    LittleEndianReadBack(v, 4);
  }

  lemma OffsetOfFile(l: Layout, i: nat)
    requires LayoutSized(l) && i < |l.offsets| && l.offsets[i] < 0x1_0000_0000
    ensures var p := OffsetsAt(l) + WORD_SIZE * i;
            p + WORD_SIZE <= |FileBytes(l)|
            && FileBytes(l)[p..p + WORD_SIZE] == LittleEndian(l.offsets[i], 4)
            && FromLittleEndian(FileBytes(l)[p..p + WORD_SIZE]) == l.offsets[i]
  {
    WordReadBack(l.offsets[i]);
    hide FileBytes, Flat, LittleEndian, FromLittleEndian;
    var pre, post := AroundOffsets(l);
    WordsAreWords(l.offsets);
    PrefixLength(Words(l.offsets), WORD_SIZE, i);
    ReadRecord(pre, Words(l.offsets), post, i);
  }

  lemma OffsetWritten(l: Layout, i: nat, v: nat)
    requires LayoutSized(l) && i < |l.offsets|
    ensures Overwritten(FileBytes(l), OffsetsAt(l) + WORD_SIZE * i, LittleEndian(v, 4))
            == FileBytes(l.(offsets := l.offsets[i := v]))
  {
    hide FileBytes, Flat, LittleEndian, Overwritten;
    var pre, post := AroundOffsets(l);
    WordsAreWords(l.offsets);
    PrefixLength(Words(l.offsets), WORD_SIZE, i);
    WriteRecord(pre, Words(l.offsets), post, i, LittleEndian(v, 4));
    assert Words(l.offsets[i := v]) == Words(l.offsets)[i := LittleEndian(v, 4)];
  }

  lemma OffsetInserted(l: Layout, i: nat, v: nat)
    requires LayoutSized(l) && i <= |l.offsets|
    ensures OffsetsAt(l) + WORD_SIZE * i <= |FileBytes(l)|
    ensures InsertedAt(FileBytes(l), OffsetsAt(l) + WORD_SIZE * i, LittleEndian(v, 4))
            == FileBytes(l.(offsets := InsertAt(l.offsets, i, v)))
  {
    hide FileBytes, Flat, LittleEndian, InsertedAt;
    var pre, post := AroundOffsets(l);
    WordsAreWords(l.offsets);
    PrefixLength(Words(l.offsets), WORD_SIZE, i);
    InsertRecord(pre, Words(l.offsets), post, i, LittleEndian(v, 4));
    assert Words(InsertAt(l.offsets, i, v)) == InsertAt(Words(l.offsets), i, LittleEndian(v, 4));
  }

  lemma AroundTail(l: Layout)
    requires LayoutSized(l)
    ensures |Front(l)| == TailAt(l) && FileBytes(l) == Front(l) + l.tail
    ensures forall t {:trigger l.(tail := t)} :: FileBytes(l.(tail := t)) == Front(l) + t
  {
    LayoutPositions(l);
    hide Flat, EncodeHeader, Words;
  }

  lemma TailOfFile(l: Layout, p: nat, n: nat)
    requires LayoutSized(l) && p + n <= |l.tail|
    ensures |FileBytes(l)| == TailAt(l) + |l.tail|
    ensures FileBytes(l)[TailAt(l) + p..TailAt(l) + p + n] == l.tail[p..p + n]
  {
    AroundTail(l);
    hide FileBytes, Front, TailAt, LayoutSized;
  }

  lemma TailWritten(l: Layout, p: nat, b: seq<Byte>)
    requires LayoutSized(l) && p + |b| <= |l.tail|
    ensures Overwritten(FileBytes(l), TailAt(l) + p, b) == FileBytes(l.(tail := Overwritten(l.tail, p, b)))
  {
    AroundTail(l);
    hide *;
    OverwriteSuffix(Front(l), l.tail, p, b);
  }

  lemma OverwriteSuffix(x: seq<Byte>, t: seq<Byte>, p: nat, b: seq<Byte>)
    requires p + |b| <= |t|
    ensures Overwritten(x + t, |x| + p, b) == x + Overwritten(t, p, b)
  {
  }

  lemma TailInserted(l: Layout, p: nat, b: seq<Byte>)
    requires LayoutSized(l) && p <= |l.tail|
    ensures TailAt(l) + p <= |FileBytes(l)|
    ensures InsertedAt(FileBytes(l), TailAt(l) + p, b) == FileBytes(l.(tail := InsertedAt(l.tail, p, b)))
  {
    AroundTail(l);
    hide *;
    InsertSuffix(Front(l), l.tail, p, b);
  }

  lemma InsertSuffix(x: seq<Byte>, t: seq<Byte>, p: nat, b: seq<Byte>)
    requires p <= |t|
    ensures InsertedAt(x + t, |x| + p, b) == x + InsertedAt(t, p, b)
  {
  }
}
