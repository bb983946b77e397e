/**
 Codeplug files byte by byte, after the packed structures of the firmware's header file: the
 positions and numbers below are counted out from those structures, and nothing in what the
 lemmas state refers to how the model builds a file.
 */
module CodeplugBytes {
  import opened Bytes
  import opened CodeplugFormat
  import opened Codeplugs
  import opened CodeplugStores

  /** The two and the four bytes at p as a number. */
  function Number2(s: seq<Byte>, p: nat): nat
    requires p + 2 <= |s|
  {
    s[p] as int + 0x100 * s[p + 1] as int
  }

  function Number4(s: seq<Byte>, p: nat): nat
    requires p + 4 <= |s|
  {
    s[p] as int + 0x100 * s[p + 1] as int + 0x10000 * s[p + 2] as int + 0x1000000 * s[p + 3] as int
  }

  lemma TwoBytes(s: seq<Byte>, p: nat)
    requires p + 2 <= |s|
    ensures FromLittleEndian(s[p..p + 2]) == Number2(s, p)
  {
    var b := s[p..p + 2];
    assert b[1..][1..] == [];
    assert FromLittleEndian(b[1..]) == b[1];
  }

  lemma FourBytes(s: seq<Byte>, p: nat)
    requires p + 4 <= |s|
    ensures FromLittleEndian(s[p..p + 4]) == Number4(s, p)
  {
    var b := s[p..p + 4];
    TwoBytes(b, 2);
    assert b[2..4] == b[1..][1..];
    assert FromLittleEndian(b[1..]) == b[1] + 256 * FromLittleEndian(b[1..][1..]);
  }

  lemma BytesOf2(v: nat)
    requires v < 0x10000
    ensures LittleEndian(v, 2) == [v % 0x100, v / 0x100]
  {
    assert LittleEndian(v / 0x100, 1) == [v / 0x100] + LittleEndian(v / 0x100 / 0x100, 0);
  }

  // ---------------------------------------------------------------- the header

  lemma MagicBytes()
    ensures LittleEndian(CPS_MAGIC, 8) == ['R' as int, 'T' as int, 'X' as int, 'C' as int, 0, 0, 0, 0]
  {
    hide CPS_MAGIC;
    Zero4();
    MagicIs();
    assert LittleEndian(0x43585452, 8) == [0x52] + LittleEndian(0x435854, 7);
    assert LittleEndian(0x435854, 7) == [0x54] + LittleEndian(0x4358, 6);
    assert LittleEndian(0x4358, 6) == [0x58] + LittleEndian(0x43, 5);
    assert LittleEndian(0x43, 5) == [0x43] + LittleEndian(0, 4);
  }

  lemma MagicIs()
    ensures CPS_MAGIC == 0x43585452
  {
  }

  lemma Zero4()
    ensures LittleEndian(0, 4) == [0, 0, 0, 0]
  {
    assert LittleEndian(0, 3) == [0] + LittleEndian(0, 2);
    assert LittleEndian(0, 1) == [0];
  }

  /** A file begins with "RTXC", the version, author, description and time, and the three counts. */
  lemma HeaderInFile(c: Codeplug)
    requires WellFormed(c)
    ensures var s := Encode(c);
            && |s| >= 88 && s[..8] == ['R' as int, 'T' as int, 'X' as int, 'C' as int, 0, 0, 0, 0]
            && Number2(s, 8) == c.version && s[10..82] == c.meta
            && Number2(s, 82) == |c.contacts| && Number2(s, 84) == |c.channels| && Number2(s, 86) == |c.banks|
  {
    MagicBytes();
    BytesOf2(c.version);
    BytesOf2(|c.contacts|);
    BytesOf2(|c.channels|);
    BytesOf2(|c.banks|);
    HeaderParts(c);
    var h := EncodeHeader(HeaderOf(c));
    hide Encode, LittleEndian, CPS_MAGIC;
    HeaderSlices(LittleEndian(CPS_MAGIC, 8), LittleEndian(c.version, 2), c.meta, LittleEndian(|c.contacts|, 2),
                 LittleEndian(|c.channels|, 2), LittleEndian(|c.banks|, 2));
    assert Encode(c)[..88] == h;
  }

  lemma HeaderParts(c: Codeplug)
    requires WellFormed(c)
    ensures EncodeHeader(HeaderOf(c))
            == LittleEndian(CPS_MAGIC, 8) + LittleEndian(c.version, 2) + c.meta + LittleEndian(|c.contacts|, 2)
               + LittleEndian(|c.channels|, 2) + LittleEndian(|c.banks|, 2)
    ensures |Encode(c)| >= 88 && Encode(c)[..88] == EncodeHeader(HeaderOf(c))
  {
    hide WellFormed, LittleEndian, Flat, Blobs, Offsets;
    WellFormedMeans(c);
    MetaLength(c);
    HeaderReadBack(HeaderOf(c));
  }

  lemma MetaLength(c: Codeplug)
    requires WellFormed(c)
    ensures HeaderFits(HeaderOf(c))
  {
    SmallPowers256();
  }

  lemma HeaderSlices(a: seq<Byte>, b: seq<Byte>, m: seq<Byte>, x: seq<Byte>, y: seq<Byte>, z: seq<Byte>)
    requires |a| == 8 && |b| == 2 && |m| == 72 && |x| == 2 && |y| == 2 && |z| == 2
    ensures var h := a + b + m + x + y + z;
            && |h| == 88 && h[..8] == a && h[8] == b[0] && h[9] == b[1] && h[10..82] == m
            && h[82] == x[0] && h[83] == x[1] && h[84] == y[0] && h[85] == y[1] && h[86] == z[0] && h[87] == z[1]
  {
  }

  /** A header is accepted exactly if its file begins with "RTXC" and four zeros and is of version 0.0 or 0.1. */
  lemma AcceptedExactlyIf(s: seq<Byte>)
    requires |s| >= 88
    ensures Accepted(DecodeHeader(s[..88]))
            <==> s[..8] == ['R' as int, 'T' as int, 'X' as int, 'C' as int, 0, 0, 0, 0] && s[9] == 0 && s[8] <= 1
  {
    var b := s[..88];
    EightBytes(b);
    TwoBytes(b, 8);
    hide FromLittleEndian;
    assert b[..8] == b[0..8] == s[..8] && b[8] == s[8] && b[9] == s[9];
    VersionParts(s[8], s[9]);
    MagicExactlyIf(s[..8]);
  }

  lemma VersionParts(minor: Byte, major: Byte)
    ensures (minor as int + 0x100 * major as int) % 256 == minor && (minor as int + 0x100 * major as int) / 256 % 256 == major
  {
  }

  lemma EightBytes(s: seq<Byte>)
    requires |s| >= 8
    ensures FromLittleEndian(s[0..8]) == Number4(s, 0) + 0x1_0000_0000 * Number4(s, 4)
  {
    var b := s[0..8];
    FourBytes(s, 4);
    assert b[1..][1..][1..][1..] == s[4..8];
    var b1, b2, b3 := b[1..], b[1..][1..], b[1..][1..][1..];
    assert FromLittleEndian(b3) == b3[0] as int + 256 * FromLittleEndian(b3[1..]);
    assert FromLittleEndian(b2) == b2[0] as int + 256 * FromLittleEndian(b2[1..]);
    assert FromLittleEndian(b1) == b1[0] as int + 256 * FromLittleEndian(b1[1..]);
  }

  lemma MagicExactlyIf(s: seq<Byte>)
    requires |s| == 8
    ensures Number4(s, 0) + 0x1_0000_0000 * Number4(s, 4) == 0x43585452
            <==> s == ['R' as int, 'T' as int, 'X' as int, 'C' as int, 0, 0, 0, 0]
  {
  }

  // ---------------------------------------------------------------- the rest

  /** Where the words for the banks begin, and where the banks. */
  function WordsFrom(c: Codeplug): nat {
    88 + 39 * |c.contacts| + 94 * |c.channels|
  }

  function BanksFrom(c: Codeplug): nat {
    WordsFrom(c) + 4 * |c.banks|
  }

  /** Contacts of 39 bytes from byte 88 on, then channels of 94, then one word for each bank. */
  lemma RecordsInFile(c: Codeplug, i: nat)
    requires WellFormed(c)
    ensures var s, channels := Encode(c), 88 + 39 * |c.contacts|;
            && (i < |c.contacts| ==> 88 + 39 * i + 39 <= |s| && s[88 + 39 * i..88 + 39 * i + 39] == c.contacts[i])
            && (i < |c.channels| ==> channels + 94 * i + 94 <= |s| && s[channels + 94 * i..channels + 94 * i + 94] == c.channels[i])
            && BanksFrom(c) <= |s|
  {
    hide FileBytes, Flat, LayoutSized, LayoutFits, WellFormed, LayoutOf, ChannelsAt, OffsetsAt, TailAt;
    LayoutStart(c);
    var l := LayoutOf(c);
    if i < |c.contacts| {
      ContactOfFile(l, i);
    }
    if i < |c.channels| {
      ChannelOfFile(l, i);
    }
    TailOfFile(l, 0, 0);
  }

  /** Behind the words the banks: each word is the distance of its bank, which is name, count and entries. */
  lemma BankInFile(c: Codeplug, i: nat, j: nat)
    requires WellFormed(c) && i < |c.banks|
    ensures var s := Encode(c);
            && WordsFrom(c) + 4 * i + 4 <= |s|
            && var at := BanksFrom(c) + Number4(s, WordsFrom(c) + 4 * i);
            && at + 34 <= |s| && s[at..at + 32] == c.banks[i].name && Number2(s, at + 32) == |c.banks[i].entries|
            && (j < |c.banks[i].entries| ==> at + 34 + 4 * j + 4 <= |s| && Number4(s, at + 34 + 4 * j) == c.banks[i].entries[j])
  {
    hide Encode, FileBytes, FromLittleEndian, LittleEndian, WellFormed, LayoutOf, LayoutFits, LayoutSized, BankOffset, OffsetsAt, TailAt;
    LayoutStart(c);
    BankOfFile(c, i);
    LayoutIsFit(c);
    WordFits(c, i);
    OffsetOfFile(LayoutOf(c), i);
    var s, p := Encode(c), TailAt(LayoutOf(c)) + BankOffset(c.banks, i);
    FourBytes(s, OffsetsAt(LayoutOf(c)) + 4 * i);
    TwoBytes(s[p..p + 34], 32);
    if j < |c.banks[i].entries| {
      EntryOfFile(c, i, j);
      FourBytes(s, p + 34 + 4 * j);
    }
  }

  lemma WordFits(c: Codeplug, i: nat)
    requires WellFormed(c) && i < |c.banks| && LayoutFits(LayoutOf(c))
    ensures i < |LayoutOf(c).offsets| && LayoutOf(c).offsets[i] < 0x1_0000_0000
  {
    hide WellFormed, Flat, Blobs;
  }

  // ---------------------------------------------------------------- what an insertion changes

  /** Where an M17 channel, mode 3, and a DMR channel, mode 2, keep the two bytes of their contact's index. */
  function IndexPlace(ch: seq<Byte>): (p: nat)
    requires |ch| == 94
    ensures p + 2 <= 94
  {
    if ch[0] == 3 then 92 else 91
  }

  /**
   After a contact has been inserted the channels are the same byte for byte, except for the index
   of those M17 and DMR channels that named a contact at or behind the place, which is one more.
   */
  lemma ContactInsertionChanges(c: Codeplug, pos: nat, r: seq<Byte>, i: nat)
    requires WellFormed(c) && pos <= |c.contacts| && i < |c.channels|
    ensures var c', ch, p := WithContact(c, pos, r), c.channels[i], IndexPlace(c.channels[i]);
            var ch' := c'.channels[i];
            && c'.contacts == c.contacts[..pos] + [r] + c.contacts[pos..] && c' == c.(contacts := c'.contacts, channels := c'.channels)
            && |c'.channels| == |c.channels| && |ch'| == 94
            && (if (ch[0] == 2 || ch[0] == 3) && Number2(ch, p) >= pos
                then Number2(ch', p) == (Number2(ch, p) + 1) % 0x10000 && forall k | 0 <= k < 94 && k != p && k != p + 1 :: ch'[k] == ch[k]
                else ch' == ch)
  {
    hide Encode;
    var ch, p := c.channels[i], IndexPlace(c.channels[i]);
    TwoBytes(ch, p);
    hide FromLittleEndian, LittleEndian;
    IndexReplaced(ch, p, (Number2(ch, p) + 1) % 0x10000);
  }

  lemma IndexReplaced(ch: seq<Byte>, p: nat, v: nat)
    requires |ch| == 94 && p + 2 <= 94 && v < 0x10000
    ensures var ch' := WithIndex(ch, p, v);
            Number2(ch', p) == v && forall k | 0 <= k < 94 && k != p && k != p + 1 :: ch'[k] == ch[k]
  {
    BytesOf2(v);
    hide LittleEndian;
  }

  /**
   After a channel has been inserted the banks are the same, except for the entries that, as signed
   numbers, name a channel at or behind the place and whose own position is not beyond the number
   of banks, which are one more.
   */
  lemma ChannelInsertionChanges(c: Codeplug, pos: nat, r: seq<Byte>, i: nat, j: nat)
    requires WellFormed(c) && pos <= |c.channels| && i < |c.banks| && j < |c.banks[i].entries|
    ensures var c', v := WithChannel(c, pos, r), c.banks[i].entries[j];
            && c'.channels == c.channels[..pos] + [r] + c.channels[pos..] && c' == c.(channels := c'.channels, banks := c'.banks)
            && |c'.banks| == |c.banks| && c'.banks[i].name == c.banks[i].name
            && |c'.banks[i].entries| == |c.banks[i].entries|
            && c'.banks[i].entries[j] == if pos <= v <= 0x7FFF_FFFF && j <= |c.banks| then v + 1 else v
  {
    hide Encode;
  }

  /** A bank insertion moves the later banks up by one and changes nothing else. */
  lemma BankInsertionChanges(c: Codeplug, pos: nat, name: seq<Byte>, i: nat)
    requires pos <= |c.banks| && i <= |c.banks|
    ensures var c' := WithBank(c, pos, name);
            && c' == c.(banks := c'.banks) && |c'.banks| == |c.banks| + 1
            && if i == pos then c'.banks[i].name == name && c'.banks[i].entries == []
               else c'.banks[i] == if i < pos then c.banks[i] else c.banks[i - 1]
  {
  }

  /** An entry insertion moves the later entries of its bank up by one and changes nothing else; neither does overwriting. */
  lemma EntryInsertionChanges(c: Codeplug, bank: nat, pos: nat, v: nat, i: nat, j: nat)
    requires bank < |c.banks| && pos <= |c.banks[bank].entries| && i < |c.banks| && j <= |c.banks[bank].entries|
    ensures var c' := WithEntry(c, bank, pos, v);
            && c' == c.(banks := c'.banks) && |c'.banks| == |c.banks| && (i != bank ==> c'.banks[i] == c.banks[i])
            && c'.banks[bank].name == c.banks[bank].name && |c'.banks[bank].entries| == |c.banks[bank].entries| + 1
            && c'.banks[bank].entries[j]
               == if j == pos then v else if j < pos then c.banks[bank].entries[j] else c.banks[bank].entries[j - 1]
    ensures pos < |c.banks[bank].entries| && j < |c.banks[bank].entries| ==>
              var c' := SetEntry(c, bank, pos, v);
              && c' == c.(banks := c'.banks) && |c'.banks| == |c.banks| && (i != bank ==> c'.banks[i] == c.banks[i])
              && c'.banks[bank].name == c.banks[bank].name && |c'.banks[bank].entries| == |c.banks[bank].entries|
              && c'.banks[bank].entries[j] == if j == pos then v else c.banks[bank].entries[j]
  {
  }
}
