/** Codeplugs as lists of contacts, channels and banks, and what inserting into them means. */
module Codeplugs {
  import opened Bytes
  import opened CpsFiles
  import opened CodeplugFormat

  /** A named list of channel numbers. */
  datatype Bank = Bank(name: seq<Byte>, entries: seq<nat>)

  datatype Codeplug = Codeplug(version: nat, meta: seq<Byte>, contacts: seq<seq<Byte>>, channels: seq<seq<Byte>>,
                               banks: seq<Bank>)

  // ---------------------------------------------------------------- the file of a codeplug

  function BankBytes(b: Bank): seq<Byte> {
    EncodeBankHeader(BankHeader(b.name, |b.entries|)) + Flat(Words(b.entries))
  }

  function Blobs(banks: seq<Bank>): (r: seq<seq<Byte>>)
    ensures |r| == |banks|
  {
    seq(|banks|, i requires 0 <= i < |banks| => BankBytes(banks[i]))
  }

  /** The offset of bank i: the size of the banks before it. */
  function BankOffset(banks: seq<Bank>, i: nat): nat
    requires i <= |banks|
  {
    |Flat(Blobs(banks)[..i])|
  }

  function Offsets(banks: seq<Bank>): (r: seq<nat>)
    ensures |r| == |banks|
  {
    seq(|banks|, i requires 0 <= i < |banks| => BankOffset(banks, i))
  }

  function HeaderOf(c: Codeplug): Header {
    Header(CPS_MAGIC, c.version, c.meta, |c.contacts|, |c.channels|, |c.banks|)
  }

  function LayoutOf(c: Codeplug): Layout {
    Layout(HeaderOf(c), c.contacts, c.channels, Offsets(c.banks), Flat(Blobs(c.banks)))
  }

  /** Every offset entry points at its bank: the only bytes a well-formed codeplug can have. */
  function Encode(c: Codeplug): seq<Byte> {
    FileBytes(LayoutOf(c))
  }

  predicate BankFits(b: Bank) {
    |b.name| == 32 && |b.entries| < 0x10000 && forall j | 0 <= j < |b.entries| :: b.entries[j] < 0x1_0000_0000
  }

  /** Records of the right size, counts that fit 16 bits, a file that 32-bit positions can address. */
  ghost predicate WellFormed(c: Codeplug) {
    && c.version <= CPS_VERSION_MINOR && |c.meta| == 72
    && AllOfLength(c.contacts, CONTACT_SIZE) && AllOfLength(c.channels, CHANNEL_SIZE)
    && |c.contacts| < 0x10000 && |c.channels| < 0x10000 && |c.banks| < 0x10000
    && (forall i | 0 <= i < |c.banks| :: BankFits(c.banks[i]))
    && |Encode(c)| < 0x1_0000_0000
  }

  lemma BankBytesLength(b: Bank)
    requires BankFits(b)
    ensures |EncodeBankHeader(BankHeader(b.name, |b.entries|))| == BANK_HEADER_SIZE
    ensures |Flat(Words(b.entries))| == WORD_SIZE * |b.entries|
    ensures |BankBytes(b)| == BANK_HEADER_SIZE + WORD_SIZE * |b.entries|
  {
    BankHeaderReadBack(BankHeader(b.name, |b.entries|));
    WordsAreWords(b.entries);
    FlatLength(Words(b.entries), WORD_SIZE);
    hide Flat, EncodeBankHeader;
  }

  lemma {:induction false} OffsetsInTail(banks: seq<Bank>, i: nat)
    requires i <= |banks|
    ensures BankOffset(banks, i) <= |Flat(Blobs(banks))|
  {
    hide Flat, Blobs;
    FlatSplit(Blobs(banks), i);
  }

  lemma OffsetsFit(c: Codeplug)
    requires |Flat(Blobs(c.banks))| < 0x1_0000_0000
    ensures forall i | 0 <= i < |c.banks| :: Offsets(c.banks)[i] < 0x1_0000_0000
  {
    hide Flat, Blobs;
    forall i | 0 <= i < |c.banks|
      ensures Offsets(c.banks)[i] < 0x1_0000_0000
    {
      OffsetsInTail(c.banks, i);
    }
  }

  lemma LayoutIsFit(c: Codeplug)
    requires WellFormed(c)
    ensures LayoutFits(LayoutOf(c))
  {
    hide Flat, EncodeHeader, Blobs, Offsets, Words;
    SmallPowers256();
    OffsetsFit(c);
  }

  // ---------------------------------------------------------------- banks in the file

  function BeforeBank(banks: seq<Bank>, i: nat): seq<Byte>
    requires i < |banks|
  {
    Flat(Blobs(banks)[..i])
  }

  function AfterBank(banks: seq<Bank>, i: nat): seq<Byte>
    requires i < |banks|
  {
    Flat(Blobs(banks)[i + 1..])
  }

  /** The tail with bank i replaced by b. */
  lemma AroundBank(banks: seq<Bank>, i: nat, b: Bank)
    requires i < |banks|
    ensures |BeforeBank(banks, i)| == BankOffset(banks, i)
    ensures Flat(Blobs(banks[i := b])) == BeforeBank(banks, i) + BankBytes(b) + AfterBank(banks, i)
  {
    hide Flat, BankBytes;
    var rs, t := Blobs(banks), Blobs(banks[i := b]);
    assert t[..i] == rs[..i] && t[i + 1..] == rs[i + 1..];
    FlatAround(t, i);
  }

  /** Where entry j of bank i lies in the tail. */
  function EntryAt(banks: seq<Bank>, i: nat, j: nat): nat
    requires i < |banks|
  {
    BankOffset(banks, i) + BANK_HEADER_SIZE + WORD_SIZE * j
  }

  lemma BankHeaderOfTail(banks: seq<Bank>, i: nat)
    requires i < |banks| && BankFits(banks[i])
    ensures var t, p := Flat(Blobs(banks)), BankOffset(banks, i);
            p + BANK_HEADER_SIZE <= |t|
            && t[p..p + BANK_HEADER_SIZE] == EncodeBankHeader(BankHeader(banks[i].name, |banks[i].entries|))
            && DecodeBankHeader(t[p..p + BANK_HEADER_SIZE]) == BankHeader(banks[i].name, |banks[i].entries|)
  {
    BankHeaderReadBack(BankHeader(banks[i].name, |banks[i].entries|));
    AroundBank(banks, i, banks[i]);
    hide Flat, Blobs, EncodeBankHeader, DecodeBankHeader, BeforeBank, AfterBank;
    assert banks[i := banks[i]] == banks;
  }

  function BeforeEntries(banks: seq<Bank>, i: nat): seq<Byte>
    requires i < |banks|
  {
    BeforeBank(banks, i) + EncodeBankHeader(BankHeader(banks[i].name, |banks[i].entries|))
  }

  /** The tail with the entries of bank i replaced by as many others. */
  lemma AroundEntries(banks: seq<Bank>, i: nat, es: seq<nat>)
    requires i < |banks| && BankFits(banks[i]) && |es| == |banks[i].entries|
    ensures |BeforeEntries(banks, i)| == BankOffset(banks, i) + BANK_HEADER_SIZE
    ensures Flat(Blobs(banks[i := Bank(banks[i].name, es)]))
            == BeforeEntries(banks, i) + Flat(Words(es)) + AfterBank(banks, i)
  {
    var h := EncodeBankHeader(BankHeader(banks[i].name, |es|));
    BankHeaderReadBack(BankHeader(banks[i].name, |es|));
    AroundBank(banks, i, Bank(banks[i].name, es));
    hide Flat, Blobs, EncodeBankHeader, Words, BeforeBank, AfterBank;
    HeadOfBlob(BeforeBank(banks, i), h, Flat(Words(es)), AfterBank(banks, i));
  }

  lemma EntryOfTail(banks: seq<Bank>, i: nat, j: nat)
    requires i < |banks| && BankFits(banks[i]) && j < |banks[i].entries|
    ensures var t, p := Flat(Blobs(banks)), EntryAt(banks, i, j);
            p + WORD_SIZE <= |t| && FromLittleEndian(t[p..p + WORD_SIZE]) == banks[i].entries[j]
  {
    hide *;
    var es := banks[i].entries;
    FitsMeans(banks[i]);
    EntryAtMeans(banks, i, j);
    WordReadBack(es[j]);
    WordsAt(es, j);
    AroundEntries(banks, i, es);
    assert banks[i := Bank(banks[i].name, es)] == banks;
    ReadRecord(BeforeEntries(banks, i), Words(es), AfterBank(banks, i), j);
  }

  lemma WordsAt(es: seq<nat>, j: nat)
    requires j < |es|
    ensures |Flat(Words(es)[..j])| == WORD_SIZE * j
    ensures Words(es)[j] == LittleEndian(es[j], 4) && |Words(es)[j]| == WORD_SIZE
  {
    WordsPrefix(es, j);
    hide Flat, LittleEndian;
  }

  lemma EntryAtMeans(banks: seq<Bank>, i: nat, j: nat)
    requires i < |banks|
    ensures EntryAt(banks, i, j) == BankOffset(banks, i) + BANK_HEADER_SIZE + WORD_SIZE * j
  {
  }

  /** Overwriting an entry in place changes that entry and no offset. */
  lemma EntryWritten(banks: seq<Bank>, i: nat, j: nat, v: nat)
    requires i < |banks| && BankFits(banks[i]) && j < |banks[i].entries|
    ensures var banks' := banks[i := Bank(banks[i].name, banks[i].entries[j := v])];
            && EntryAt(banks, i, j) + WORD_SIZE <= |Flat(Blobs(banks))|
            && Overwritten(Flat(Blobs(banks)), EntryAt(banks, i, j), LittleEndian(v, 4)) == Flat(Blobs(banks'))
  {
    hide *;
    var es := banks[i].entries;
    EntryAtMeans(banks, i, j);
    WordsAt(es, j);
    WordsSet(es, j, v);
    AroundEntries(banks, i, es);
    AroundEntries(banks, i, es[j := v]);
    assert banks[i := Bank(banks[i].name, es)] == banks;
    ReadRecord(BeforeEntries(banks, i), Words(es), AfterBank(banks, i), j);
    WriteRecord(BeforeEntries(banks, i), Words(es), AfterBank(banks, i), j, LittleEndian(v, 4));
  }

  lemma WordsSet(es: seq<nat>, j: nat, v: nat)
    requires j < |es|
    ensures Words(es[j := v]) == Words(es)[j := LittleEndian(v, 4)]
    ensures |LittleEndian(v, 4)| == WORD_SIZE > 0
  {
    hide LittleEndian;
  }

  /** Replacing a bank moves the banks after it by the change of its size. */
  lemma OffsetsReplaced(banks: seq<Bank>, i: nat, b: Bank, k: nat)
    requires i < |banks| && k <= |banks| && BankFits(banks[i]) && BankFits(b)
    ensures BankOffset(banks[i := b], k) ==
            if k <= i then BankOffset(banks, k)
            else BankOffset(banks, k) + WORD_SIZE * |b.entries| - WORD_SIZE * |banks[i].entries|
  {
    var rs, t := Blobs(banks), Blobs(banks[i := b]);
    if k <= i {
      assert t[..k] == rs[..k];
    } else {
      FlatAround(rs[..k], i);
      FlatAround(t[..k], i);
      assert t[..k][..i] == rs[..k][..i] && t[..k][i + 1..] == rs[..k][i + 1..];
      BankBytesLength(banks[i]);
      BankBytesLength(b);
      hide Flat, BankBytes;
    }
  }

  lemma BlobsInserted(banks: seq<Bank>, i: nat, b: Bank)
    requires i <= |banks|
    ensures Blobs(InsertAt(banks, i, b)) == InsertAt(Blobs(banks), i, BankBytes(b))
  {
    hide BankBytes;
  }

  lemma PrefixInserted(rs: seq<seq<Byte>>, i: nat, r: seq<Byte>, k: nat)
    requires i <= |rs| && k <= |rs| + 1
    ensures |Flat(InsertAt(rs, i, r)[..k])| == if k <= i then |Flat(rs[..k])| else |Flat(rs[..k - 1])| + |r|
  {
    var t := InsertAt(rs, i, r);
    hide Flat;
    if k <= i {
      assert t[..k] == rs[..k];
    } else {
      assert t[..k] == InsertAt(rs[..k - 1], i, r);
      hide InsertAt;
      FlatOfInserted(rs[..k - 1], i, r);
    }
  }

  lemma FlatOfInserted(rs: seq<seq<Byte>>, i: nat, r: seq<Byte>)
    requires i <= |rs|
    ensures |Flat(rs[..i])| <= |Flat(rs)|
    ensures Flat(InsertAt(rs, i, r)) == InsertedAt(Flat(rs), |Flat(rs[..i])|, r)
    ensures |Flat(InsertAt(rs, i, r))| == |Flat(rs)| + |r|
  {
    InsertRecord([], rs, [], i, r);
    hide Flat, InsertAt;
    assert [] + Flat(rs) + [] == Flat(rs);
    assert [] + Flat(InsertAt(rs, i, r)) + [] == Flat(InsertAt(rs, i, r));
  }

  lemma OffsetsInserted(banks: seq<Bank>, i: nat, b: Bank, k: nat)
    requires i <= |banks| && k <= |banks| + 1 && BankFits(b)
    ensures BankOffset(InsertAt(banks, i, b), k) ==
            if k <= i then BankOffset(banks, k)
            else BankOffset(banks, k - 1) + BANK_HEADER_SIZE + WORD_SIZE * |b.entries|
  {
    BlobsInserted(banks, i, b);
    PrefixInserted(Blobs(banks), i, BankBytes(b), k);
    BankBytesLength(b);
    hide Flat, Blobs, BankBytes, InsertAt;
  }

  /** Inserting a bank without entries at its offset. */
  lemma BankInserted(banks: seq<Bank>, i: nat, name: seq<Byte>)
    requires i <= |banks|
    ensures BankOffset(banks, i) <= |Flat(Blobs(banks))|
    ensures InsertedAt(Flat(Blobs(banks)), BankOffset(banks, i), EncodeBankHeader(BankHeader(name, 0)))
            == Flat(Blobs(InsertAt(banks, i, Bank(name, []))))
  {
    var b := Bank(name, []);
    assert BankBytes(b) == EncodeBankHeader(BankHeader(name, 0));
    BlobsInserted(banks, i, b);
    hide Flat, Blobs, BankBytes, InsertAt, InsertedAt, EncodeBankHeader;
    FlatOfInserted(Blobs(banks), i, BankBytes(b));
  }

  /** The tail with the entry count of bank i already raised and the new entry put in. */
  lemma EntryInserted(banks: seq<Bank>, i: nat, j: nat, v: nat)
    requires i < |banks| && BankFits(banks[i]) && j <= |banks[i].entries| && |banks[i].entries| + 1 < 0x10000
    ensures var t, p := Flat(Blobs(banks)), BankOffset(banks, i);
            var h := EncodeBankHeader(BankHeader(banks[i].name, |banks[i].entries| + 1));
            var raised, q := Overwritten(t, p, h), p + BANK_HEADER_SIZE + WORD_SIZE * j;
            var banks' := banks[i := Bank(banks[i].name, InsertAt(banks[i].entries, j, v))];
            && p + BANK_HEADER_SIZE <= |t| && |h| == BANK_HEADER_SIZE
            && |raised| == |t| && q <= |raised|
            && InsertedAt(raised, q, LittleEndian(v, 4)) == Flat(Blobs(banks'))
  {
    hide *;
    var es, n := banks[i].entries, |banks[i].entries|;
    FitsMeans(banks[i]);
    var es' := InsertAt(es, j, v);
    var h, h' := EncodeBankHeader(BankHeader(banks[i].name, n)), EncodeBankHeader(BankHeader(banks[i].name, n + 1));
    assert |h| == |h'| == BANK_HEADER_SIZE by {
      BankHeaderReadBack(BankHeader(banks[i].name, n));
      BankHeaderReadBack(BankHeader(banks[i].name, n + 1));
    }
    WordsPrefix(es, j);
    WordsInserted(es, j, v);
    BankParts(banks, i, banks[i]);
    BankParts(banks, i, Bank(banks[i].name, es'));
    assert banks[i := banks[i]] == banks;
    RaiseAndInsert(BeforeBank(banks, i), h, h', Words(es), AfterBank(banks, i), j, LittleEndian(v, 4));
  }

  lemma FitsMeans(b: Bank)
    requires BankFits(b)
    ensures |b.name| == 32 && |b.entries| < 0x10000
    ensures forall j | 0 <= j < |b.entries| :: b.entries[j] < 0x1_0000_0000
  {
  }

  lemma WordsInserted(es: seq<nat>, j: nat, v: nat)
    requires j <= |es|
    ensures Words(InsertAt(es, j, v)) == InsertAt(Words(es), j, LittleEndian(v, 4))
  {
    hide LittleEndian;
  }

  lemma WordsPrefix(es: seq<nat>, j: nat)
    requires j <= |es|
    ensures |Flat(Words(es)[..j])| == WORD_SIZE * j
  {
    WordsAreWords(es);
    PrefixLength(Words(es), WORD_SIZE, j);
  }

  lemma BankParts(banks: seq<Bank>, i: nat, b: Bank)
    requires i < |banks|
    ensures |BeforeBank(banks, i)| == BankOffset(banks, i)
    ensures Flat(Blobs(banks[i := b]))
            == BeforeBank(banks, i)
               + (EncodeBankHeader(BankHeader(b.name, |b.entries|)) + Flat(Words(b.entries))) + AfterBank(banks, i)
  {
    hide Flat, Blobs, EncodeBankHeader, Words, BeforeBank, AfterBank;
    AroundBank(banks, i, b);
  }

  lemma RaiseAndInsert(pre: seq<Byte>, h: seq<Byte>, h': seq<Byte>, es: seq<seq<Byte>>, post: seq<Byte>,
                       j: nat, r: seq<Byte>)
    requires |h| == |h'| == BANK_HEADER_SIZE && j <= |es| && |Flat(es[..j])| == WORD_SIZE * j
    ensures var t := pre + (h + Flat(es)) + post;
            var raised, p := Overwritten(t, |pre|, h'), |pre| + BANK_HEADER_SIZE + WORD_SIZE * j;
            && |pre| + BANK_HEADER_SIZE <= |t| && |raised| == |t| && p <= |raised|
            && InsertedAt(raised, p, r) == pre + (h' + Flat(InsertAt(es, j, r))) + post
  {
    hide Flat, Overwritten, InsertedAt, InsertAt;
    HeadOfBlob(pre, h, Flat(es), post);
    OverwriteMiddle(pre, h, Flat(es) + post, h');
    HeadOfBlob(pre, h', Flat(es), post);
    InsertRecord(pre + h', es, post, j, r);
    HeadOfBlob(pre, h', Flat(InsertAt(es, j, r)), post);
    assert |pre + h'| == |pre| + BANK_HEADER_SIZE;
  }

  lemma HeadOfBlob(pre: seq<Byte>, h: seq<Byte>, es: seq<Byte>, post: seq<Byte>)
    ensures pre + (h + es) + post == pre + h + (es + post) == pre + h + es + post
  {
  }

  // ---------------------------------------------------------------- cross-references

  /** The operating mode of a channel record. */
  function ModeOf(ch: seq<Byte>): nat
    requires |ch| == CHANNEL_SIZE
  {
    ch[0]
  }

  /** Where an M17 and a DMR channel keep the index of their contact. */
  const M17_INDEX_AT: nat := 92
  const DMR_INDEX_AT: nat := 91

  function IndexAt(ch: seq<Byte>, at: nat): nat
    requires |ch| == CHANNEL_SIZE && at + 2 <= CHANNEL_SIZE
  {
    FromLittleEndian(ch[at..at + 2])
  }

  function WithIndex(ch: seq<Byte>, at: nat, v: nat): (r: seq<Byte>)
    requires |ch| == CHANNEL_SIZE && at + 2 <= CHANNEL_SIZE
    ensures |r| == CHANNEL_SIZE
  {
    ch[..at] + LittleEndian(v, 2) + ch[at + 2..]
  }

  /** A channel after a contact has been inserted at pos; the 16-bit index wraps. */
  function BumpChannel(ch: seq<Byte>, pos: nat): (r: seq<Byte>)
    requires |ch| == CHANNEL_SIZE
    ensures |r| == CHANNEL_SIZE
  {
    if ModeOf(ch) == OPMODE_M17 && IndexAt(ch, M17_INDEX_AT) >= pos then
      WithIndex(ch, M17_INDEX_AT, (IndexAt(ch, M17_INDEX_AT) + 1) % 0x10000)
    else if ModeOf(ch) == OPMODE_DMR && IndexAt(ch, DMR_INDEX_AT) >= pos then
      WithIndex(ch, DMR_INDEX_AT, (IndexAt(ch, DMR_INDEX_AT) + 1) % 0x10000)
    else ch
  }

  /** The channels after the first n have been updated for a contact inserted at pos. */
  function BumpChannels(chs: seq<seq<Byte>>, pos: nat, n: nat): (r: seq<seq<Byte>>)
    requires AllOfLength(chs, CHANNEL_SIZE) && n <= |chs|
    ensures |r| == |chs| && AllOfLength(r, CHANNEL_SIZE)
  {
    seq(|chs|, i requires 0 <= i < |chs| => if i < n then BumpChannel(chs[i], pos) else chs[i])
  }

  /**
   Entry j of a bank after a channel has been inserted at pos. Entries of 2^31 and more read as
   negative numbers, and writing back fails for positions beyond the number of banks.
   */
  function BumpEntry(v: nat, j: nat, pos: nat, bankCount: nat): nat {
    if pos <= v < 0x8000_0000 && j <= bankCount then v + 1 else v
  }

  function BumpEntries(es: seq<nat>, pos: nat, bankCount: nat, n: nat): (r: seq<nat>)
    requires n <= |es|
    ensures |r| == |es|
  {
    seq(|es|, j requires 0 <= j < |es| => if j < n then BumpEntry(es[j], j, pos, bankCount) else es[j])
  }

  function BumpBank(b: Bank, pos: nat, bankCount: nat): (r: Bank)
    ensures BankFits(b) ==> BankFits(r)
  {
    Bank(b.name, BumpEntries(b.entries, pos, bankCount, |b.entries|))
  }

  function BumpBanks(banks: seq<Bank>, pos: nat, n: nat): (r: seq<Bank>)
    requires n <= |banks|
    ensures |r| == |banks|
  {
    seq(|banks|, i requires 0 <= i < |banks| => if i < n then BumpBank(banks[i], pos, |banks|) else banks[i])
  }

  // ---------------------------------------------------------------- the edits

  function WithContact(c: Codeplug, pos: nat, r: seq<Byte>): Codeplug
    requires AllOfLength(c.channels, CHANNEL_SIZE) && pos <= |c.contacts|
  {
    c.(contacts := InsertAt(c.contacts, pos, r), channels := BumpChannels(c.channels, pos, |c.channels|))
  }

  function WithChannel(c: Codeplug, pos: nat, r: seq<Byte>): Codeplug
    requires pos <= |c.channels|
  {
    c.(channels := InsertAt(c.channels, pos, r), banks := BumpBanks(c.banks, pos, |c.banks|))
  }

  function WithBank(c: Codeplug, pos: nat, name: seq<Byte>): Codeplug
    requires pos <= |c.banks|
  {
    c.(banks := InsertAt(c.banks, pos, Bank(name, [])))
  }

  function WithEntry(c: Codeplug, bank: nat, pos: nat, v: nat): Codeplug
    requires bank < |c.banks| && pos <= |c.banks[bank].entries|
  {
    c.(banks := c.banks[bank := Bank(c.banks[bank].name, InsertAt(c.banks[bank].entries, pos, v))])
  }

  /** The codeplug with entry j of bank i set to v. */
  function SetEntry(c: Codeplug, i: nat, j: nat, v: nat): Codeplug
    requires i < |c.banks| && j < |c.banks[i].entries|
  {
    c.(banks := c.banks[i := Bank(c.banks[i].name, c.banks[i].entries[j := v])])
  }

  // ---------------------------------------------------------------- the edits as edits of the file

  lemma SameOffsets(banks: seq<Bank>, i: nat, b: Bank)
    requires i < |banks| && BankFits(banks[i]) && BankFits(b) && |b.entries| == |banks[i].entries|
    ensures Offsets(banks[i := b]) == Offsets(banks)
  {
    forall k | 0 <= k < |banks|
      ensures Offsets(banks[i := b])[k] == Offsets(banks)[k]
    {
      OffsetsReplaced(banks, i, b, k);
    }
    hide BankOffset;
  }

  /** The layout of a codeplug whose banks have changed: the table and the tail. */
  lemma LayoutOfBanks(c: Codeplug, banks: seq<Bank>)
    ensures var c' := c.(banks := banks);
            LayoutOf(c').(header := HeaderOf(c)) == LayoutOf(c).(offsets := Offsets(banks), tail := Flat(Blobs(banks)))
            && LayoutOf(c').header == HeaderOf(c') && LayoutOf(c).header == HeaderOf(c)
            && (|banks| == |c.banks| ==> HeaderOf(c') == HeaderOf(c))
  {
    hide Offsets, Flat, Blobs;
  }

  lemma EncodeMeans(c: Codeplug)
    ensures Encode(c) == FileBytes(LayoutOf(c)) && LayoutOf(c).tail == Flat(Blobs(c.banks))
    ensures LayoutOf(c).offsets == Offsets(c.banks)
  {
    hide FileBytes, HeaderOf, Offsets, Flat, Blobs;
  }

  /** Replacing a bank by one that fits keeps a codeplug well-formed if the file stays small enough. */
  lemma BankReplacedFits(c: Codeplug, i: nat, b: Bank)
    requires WellFormed(c) && i < |c.banks| && BankFits(b)
    requires |Encode(c.(banks := c.banks[i := b]))| < 0x1_0000_0000
    ensures WellFormed(c.(banks := c.banks[i := b]))
  {
    hide Encode;
  }

  /** Overwriting an entry's word in the file sets that entry. */
  lemma EntrySet(c: Codeplug, i: nat, j: nat, v: nat)
    requires WellFormed(c) && i < |c.banks| && j < |c.banks[i].entries| && v < 0x1_0000_0000
    ensures WellFormed(SetEntry(c, i, j, v))
    ensures Overwritten(Encode(c), TailAt(LayoutOf(c)) + EntryAt(c.banks, i, j), LittleEndian(v, 4))
            == Encode(SetEntry(c, i, j, v))
  {
    hide *;
    var l, b := LayoutOf(c), Bank(c.banks[i].name, c.banks[i].entries[j := v]);
    WellFormedMeans(c);
    SetMeans(c, i, j, v);
    EncodeMeans(c);
    EncodeMeans(SetEntry(c, i, j, v));
    SameOffsets(c.banks, i, b);
    EntryWritten(c.banks, i, j, v);
    TailWritten(l, EntryAt(c.banks, i, j), LittleEndian(v, 4));
    LayoutOfBanks(c, c.banks[i := b]);
    TailOfFile(l, 0, 0);
    assert |Encode(SetEntry(c, i, j, v))| == |Encode(c)| by {
      AroundTail(l);
      TailOfFile(l, 0, 0);
    }
    BankReplacedFits(c, i, b);
  }

  lemma WellFormedMeans(c: Codeplug)
    requires WellFormed(c)
    ensures |Encode(c)| < 0x1_0000_0000 && LayoutSized(LayoutOf(c))
    ensures forall i | 0 <= i < |c.banks| :: BankFits(c.banks[i])
    ensures WORD_SIZE == 4 && BANK_HEADER_SIZE == 34
  {
    LayoutIsFit(c);
    hide Encode, LayoutOf, BankFits;
  }

  lemma SetMeans(c: Codeplug, i: nat, j: nat, v: nat)
    requires i < |c.banks| && j < |c.banks[i].entries| && BankFits(c.banks[i]) && v < 0x1_0000_0000
    ensures var b := Bank(c.banks[i].name, c.banks[i].entries[j := v]);
            SetEntry(c, i, j, v) == c.(banks := c.banks[i := b]) && BankFits(b)
  {
  }

  /** The offsets from i on raised by amount. */
  function Raised(offsets: seq<nat>, i: nat, amount: nat): (r: seq<nat>)
    ensures |r| == |offsets|
  {
    seq(|offsets|, k requires 0 <= k < |offsets| => if k < i then offsets[k] else offsets[k] + amount)
  }

  lemma OffsetsOfMoreBanks(banks: seq<Bank>, i: nat, name: seq<Byte>)
    requires i <= |banks| && |name| == 32
    ensures Raised(InsertAt(Offsets(banks), i, BankOffset(banks, i)), i + 1, BANK_HEADER_SIZE)
            == Offsets(InsertAt(banks, i, Bank(name, [])))
  {
    var before, after := InsertAt(Offsets(banks), i, BankOffset(banks, i)), Offsets(InsertAt(banks, i, Bank(name, [])));
    forall k | 0 <= k <= |banks|
      ensures Raised(before, i + 1, BANK_HEADER_SIZE)[k] == after[k]
    {
      OffsetsInserted(banks, i, Bank(name, []), k);
      hide BankOffset;
      assert before[k] == if k <= i then BankOffset(banks, k) else BankOffset(banks, k - 1);
    }
  }

  lemma OffsetsOfMoreEntries(banks: seq<Bank>, i: nat, b: Bank)
    requires i < |banks| && BankFits(banks[i]) && BankFits(b) && |b.entries| == |banks[i].entries| + 1
    ensures Raised(Offsets(banks), i + 1, WORD_SIZE) == Offsets(banks[i := b])
  {
    forall k | 0 <= k < |banks|
      ensures Offsets(banks[i := b])[k] ==
              if k <= i then BankOffset(banks, k) else BankOffset(banks, k) + WORD_SIZE
    {
      OffsetsReplaced(banks, i, b, k);
    }
    hide BankOffset;
  }

  /** The layout while a bank is being inserted: the table and the header are done, the bank is not there yet. */
  function Announced(c: Codeplug, i: nat, name: seq<Byte>): Layout
    requires i <= |c.banks|
  {
    LayoutOf(c).(header := HeaderOf(WithBank(c, i, name)),
                 offsets := Raised(InsertAt(Offsets(c.banks), i, BankOffset(c.banks, i)), i + 1, BANK_HEADER_SIZE))
  }

  /** A bank header put in behind the adjusted offset table inserts an empty bank. */
  lemma BankPutIn(c: Codeplug, i: nat, name: seq<Byte>)
    requires WellFormed(c) && i <= |c.banks| && |name| == 32 && |c.banks| + 1 < 0x10000
    ensures var l, p := Announced(c, i, name), TailAt(Announced(c, i, name)) + BankOffset(c.banks, i);
            && p <= |FileBytes(l)|
            && InsertedAt(FileBytes(l), p, EncodeBankHeader(BankHeader(name, 0))) == Encode(WithBank(c, i, name))
  {
    hide *;
    var l, c' := Announced(c, i, name), WithBank(c, i, name);
    AnnouncedSized(c, i, name);
    AnnouncedIs(c, i, name);
    OffsetsOfMoreBanks(c.banks, i, name);
    EncodeMeans(c);
    EncodeMeans(c');
    BankInserted(c.banks, i, name);
    LayoutOfBanks(c, c'.banks);
    TailInserted(l, BankOffset(c.banks, i), EncodeBankHeader(BankHeader(name, 0)));
  }

  /** Whatever number of entries the header announces, it comes to lie where that of the empty bank belongs. */
  lemma HeaderPutIn(c: Codeplug, i: nat, b: BankHeader)
    requires WellFormed(c) && i <= |c.banks| && |b.name| == 32 && b.chCount < 0x10000 && |c.banks| + 1 < 0x10000
    ensures var l, c', h := Announced(c, i, b.name), WithBank(c, i, b.name), EncodeBankHeader(b);
            var p := TailAt(l) + BankOffset(c.banks, i);
            && p == TailAt(LayoutOf(c')) + BankOffset(c'.banks, i) && p <= |FileBytes(l)|
            && InsertedAt(FileBytes(l), p, h) == Overwritten(Encode(c'), p, h)
            && (InsertedAt(FileBytes(l), p, h) == Encode(c') <==> b.chCount == 0)
  {
    hide *;
    var l, c' := Announced(c, i, b.name), WithBank(c, i, b.name);
    BankPutIn(c, i, b.name);
    BankHeaderReadBack(b);
    BankHeaderReadBack(BankHeader(b.name, 0));
    WellFormedMeans(c);
    InsertedDiffers(FileBytes(l), TailAt(l) + BankOffset(c.banks, i), EncodeBankHeader(b), EncodeBankHeader(BankHeader(b.name, 0)));
    AnnouncedIs(c, i, b.name);
    AnnouncedTail(c, i, b.name);
    SameStart(c.banks, i, Bank(b.name, []));
  }

  lemma AnnouncedTail(c: Codeplug, i: nat, name: seq<Byte>)
    requires i <= |c.banks|
    ensures TailAt(Announced(c, i, name)) == TailAt(LayoutOf(WithBank(c, i, name)))
  {
    hide HeaderOf, Flat, Blobs, BankOffset, Raised;
  }

  lemma SameStart(banks: seq<Bank>, i: nat, b: Bank)
    requires i <= |banks|
    ensures BankOffset(InsertAt(banks, i, b), i) == BankOffset(banks, i)
  {
    hide Flat, BankBytes;
    assert Blobs(InsertAt(banks, i, b))[..i] == Blobs(banks)[..i];
  }

  lemma InsertedDiffers(s: seq<Byte>, p: nat, h: seq<Byte>, h': seq<Byte>)
    requires p <= |s| && |h| == |h'| > 0
    ensures InsertedAt(s, p, h) == Overwritten(InsertedAt(s, p, h'), p, h)
    ensures InsertedAt(s, p, h) == InsertedAt(s, p, h') <==> h == h'
  {
    hide Overwritten;
    OverwriteMiddle(s[..p], h', s[p..], h);
    if h != h' {
      MiddlesDiffer(s[..p], h, h', s[p..]);
    }
  }

  lemma MiddlesDiffer(x: seq<Byte>, y: seq<Byte>, y': seq<Byte>, z: seq<Byte>)
    requires |y| == |y'| && y != y'
    ensures x + y + z != x + y' + z
  {
    var k :| 0 <= k < |y| && y[k] != y'[k];
    assert (x + y + z)[|x| + k] != (x + y' + z)[|x| + k];
  }

  lemma AnnouncedIs(c: Codeplug, i: nat, name: seq<Byte>)
    requires i <= |c.banks|
    ensures WithBank(c, i, name) == c.(banks := InsertAt(c.banks, i, Bank(name, [])))
    ensures Announced(c, i, name)
            == LayoutOf(c).(header := HeaderOf(WithBank(c, i, name)),
                            offsets := Raised(InsertAt(Offsets(c.banks), i, BankOffset(c.banks, i)), i + 1, BANK_HEADER_SIZE))
  {
    hide LayoutOf, HeaderOf, Offsets, Raised, BankOffset, InsertAt;
  }

  lemma AnnouncedSized(c: Codeplug, i: nat, name: seq<Byte>)
    requires WellFormed(c) && i <= |c.banks| && |c.banks| + 1 < 0x10000
    ensures LayoutSized(Announced(c, i, name))
  {
    SmallPowers256();
    hide Encode, Offsets, Raised, BankOffset, Flat, Blobs;
  }

  /** The layout while an entry is being inserted into bank i: the later offsets are already raised. */
  function Displaced(c: Codeplug, i: nat): Layout {
    LayoutOf(c).(offsets := Raised(Offsets(c.banks), i + 1, WORD_SIZE))
  }

  lemma DisplacedParts(c: Codeplug, i: nat)
    ensures Displaced(c, i).tail == LayoutOf(c).tail
    ensures Displaced(c, i) == LayoutOf(c).(offsets := Raised(Offsets(c.banks), i + 1, WORD_SIZE))
  {
    hide LayoutOf, Raised, Offsets;
  }

  lemma DisplacedSized(c: Codeplug, i: nat)
    requires WellFormed(c)
    ensures LayoutSized(Displaced(c, i))
  {
    LayoutIsFit(c);
    hide WellFormed, LayoutOf, Raised, Offsets;
  }

  /** Bank i with v put in as entry j. */
  function Lengthened(b: Bank, j: nat, v: nat): Bank
    requires j <= |b.entries|
  {
    Bank(b.name, InsertAt(b.entries, j, v))
  }

  lemma LengthenedFits(b: Bank, j: nat, v: nat)
    requires BankFits(b) && j <= |b.entries| && |b.entries| + 1 < 0x10000 && v < 0x1_0000_0000
    ensures BankFits(Lengthened(b, j, v)) && |Lengthened(b, j, v).entries| == |b.entries| + 1
  {
  }

  /** The bank's header with its count raised. */
  function RaisedHeader(b: Bank): seq<Byte> {
    EncodeBankHeader(BankHeader(b.name, |b.entries| + 1))
  }

  /**
   With the later offsets raised, rewriting the header of bank i and putting the entry in after it
   gives the codeplug with the entry.
   */
  lemma EntryPutIn(c: Codeplug, i: nat, j: nat, v: nat, p: nat, raised: seq<Byte>)
    requires WellFormed(c) && i < |c.banks| && j <= |c.banks[i].entries|
    requires |c.banks[i].entries| + 1 < 0x10000 && v < 0x1_0000_0000
    requires p == TailAt(Displaced(c, i)) + BankOffset(c.banks, i)
    requires raised == Overwritten(FileBytes(Displaced(c, i)), p, RaisedHeader(c.banks[i]))
    ensures var q := p + BANK_HEADER_SIZE + WORD_SIZE * j;
            q <= |raised| && InsertedAt(raised, q, LittleEndian(v, 4)) == Encode(WithEntry(c, i, j, v))
  {
    hide *;
    var l, h, banks := Displaced(c, i), RaisedHeader(c.banks[i]), c.banks[i := Lengthened(c.banks[i], j, v)];
    var o, t := BankOffset(c.banks, i), LayoutOf(c).tail;
    WellFormedMeans(c);
    LengthenedFits(c.banks[i], j, v);
    WithEntryMeans(c, i, j, v);
    EntryInserted(c.banks, i, j, v);
    OffsetsOfMoreEntries(c.banks, i, Lengthened(c.banks[i], j, v));
    EncodeMeans(c);
    EncodeMeans(WithEntry(c, i, j, v));
    LayoutOfBanks(c, banks);
    DisplacedParts(c, i);
    DisplacedSized(c, i);
    TailEdited(l, o, h, o + BANK_HEADER_SIZE + WORD_SIZE * j, LittleEndian(v, 4));
  }

  lemma WithEntryMeans(c: Codeplug, i: nat, j: nat, v: nat)
    requires i < |c.banks| && j <= |c.banks[i].entries|
    ensures WithEntry(c, i, j, v) == c.(banks := c.banks[i := Lengthened(c.banks[i], j, v)])
    ensures Lengthened(c.banks[i], j, v) == Bank(c.banks[i].name, InsertAt(c.banks[i].entries, j, v))
    ensures RaisedHeader(c.banks[i]) == EncodeBankHeader(BankHeader(c.banks[i].name, |c.banks[i].entries| + 1))
  {
  }

  /** Overwriting and then inserting in the tail. */
  lemma TailEdited(l: Layout, o: nat, h: seq<Byte>, q: nat, b: seq<Byte>)
    requires LayoutSized(l) && |h| > 0 && o + |h| <= |l.tail| && q <= |Overwritten(l.tail, o, h)|
    ensures var raised := Overwritten(FileBytes(l), TailAt(l) + o, h);
            && TailAt(l) + q <= |raised|
            && InsertedAt(raised, TailAt(l) + q, b)
               == FileBytes(l.(tail := InsertedAt(Overwritten(l.tail, o, h), q, b)))
  {
    TailWritten(l, o, h);
    hide FileBytes, Overwritten, InsertedAt;
    TailInserted(l.(tail := Overwritten(l.tail, o, h)), q, b);
  }

  // ---------------------------------------------------------------- what a channel or an entry names

  /** The contact a channel names, if it is an M17 or DMR channel with a live index. */
  function NamedContact(c: Codeplug, ch: seq<Byte>): seq<seq<Byte>>
    requires |ch| == CHANNEL_SIZE
  {
    if ModeOf(ch) == OPMODE_M17 && IndexAt(ch, M17_INDEX_AT) < |c.contacts| then [c.contacts[IndexAt(ch, M17_INDEX_AT)]]
    else if ModeOf(ch) == OPMODE_DMR && IndexAt(ch, DMR_INDEX_AT) < |c.contacts| then [c.contacts[IndexAt(ch, DMR_INDEX_AT)]]
    else []
  }

  lemma IndexWritten(ch: seq<Byte>, at: nat, v: nat)
    requires |ch| == CHANNEL_SIZE && 0 < at && at + 2 <= CHANNEL_SIZE && v < 0x10000
    ensures ModeOf(WithIndex(ch, at, v)) == ModeOf(ch) && IndexAt(WithIndex(ch, at, v), at) == v
  {
    SmallPowers256();
    LittleEndianReadBack(v, 2);
    hide LittleEndian, FromLittleEndian;
    assert WithIndex(ch, at, v)[at..at + 2] == LittleEndian(v, 2);
  }

  lemma BumpedChannelNames(c: Codeplug, c': Codeplug, ch: seq<Byte>, pos: nat, r: seq<Byte>, at: nat)
    requires |ch| == CHANNEL_SIZE && pos <= |c.contacts| < 0xFFFF
    requires c'.contacts == InsertAt(c.contacts, pos, r)
    requires (ModeOf(ch) == OPMODE_M17 && at == M17_INDEX_AT) || (ModeOf(ch) == OPMODE_DMR && at == DMR_INDEX_AT)
    requires IndexAt(ch, at) < |c.contacts|
    ensures NamedContact(c', BumpChannel(ch, pos)) == NamedContact(c, ch)
  {
    hide IndexAt, WithIndex;
    if IndexAt(ch, at) >= pos {
      IndexWritten(ch, at, (IndexAt(ch, at) + 1) % 0x10000);
    }
  }

  /** After a contact is inserted, every channel that named a live contact still names that contact. */
  lemma ContactsStayNamed(c: Codeplug, pos: nat, r: seq<Byte>, i: nat)
    requires WellFormed(c) && pos <= |c.contacts| < 0xFFFF && i < |c.channels|
    requires NamedContact(c, c.channels[i]) != []
    ensures var c' := WithContact(c, pos, r);
            NamedContact(c', c'.channels[i]) == NamedContact(c, c.channels[i])
  {
    hide IndexAt, WithIndex, BumpChannel, Encode;
    var ch := c.channels[i];
    BumpedChannelNames(c, WithContact(c, pos, r), ch, pos, r,
                       if ModeOf(ch) == OPMODE_M17 then M17_INDEX_AT else DMR_INDEX_AT);
  }

  /** Where the channel numbered v is after a channel has been inserted at pos. */
  function Renumbered(v: nat, pos: nat): nat {
    if v < pos then v else v + 1
  }

  /**
   After a channel is inserted, entry j of a bank still names the channel it named before
   exactly if the channel did not move or the entry's position does not exceed the number of
   banks, which is what cps_writeBankData compares it with.
   */
  lemma EntryStaysNamed(c: Codeplug, pos: nat, r: seq<Byte>, i: nat, j: nat)
    requires WellFormed(c) && pos <= |c.channels| && i < |c.banks| && j < |c.banks[i].entries|
    requires c.banks[i].entries[j] < |c.channels|
    ensures WithChannel(c, pos, r).banks[i].entries[j] == Renumbered(c.banks[i].entries[j], pos)
            <==> c.banks[i].entries[j] < pos || j <= |c.banks|
    ensures WithChannel(c, pos, r).channels[Renumbered(c.banks[i].entries[j], pos)]
            == c.channels[c.banks[i].entries[j]]
  {
    hide Encode;
  }

  /** A codeplug without contacts, with two channels and one bank, which names the second of them three times. */
  function ThreeTimes(a: seq<Byte>, b: seq<Byte>): Codeplug {
    Codeplug(0, Zeroes(72), [], [a, b], [Bank(Zeroes(32), [1, 1, 1])])
  }

  lemma ThreeTimesFits(a: seq<Byte>, b: seq<Byte>)
    requires |a| == |b| == CHANNEL_SIZE
    ensures WellFormed(ThreeTimes(a, b)) && |Encode(ThreeTimes(a, b))| + CHANNEL_SIZE < 0x1_0000_0000
  {
    hide Zeroes, Flat, EncodeHeader, FileBytes, BankBytes, Offsets;
    var c := ThreeTimes(a, b);
    SmallPowers256();
    BankBytesLength(c.banks[0]);
    TailOfFile(LayoutOf(c), 0, 0);
    LoneBlob(c.banks[0]);
    assert |Encode(c)| == 326;
  }

  lemma LoneBlob(b: Bank)
    ensures Flat(Blobs([b])) == BankBytes(b)
  {
    hide BankBytes;
    assert Blobs([b])[..0] == [];
  }

  /** Its third entry goes astray when a channel is inserted in front: it names the first channel from then on. */
  lemma EntryGoesAstray(a: seq<Byte>, b: seq<Byte>, r: seq<Byte>)
    requires |a| == |b| == |r| == CHANNEL_SIZE
    ensures WellFormed(ThreeTimes(a, b)) && |Encode(ThreeTimes(a, b))| + CHANNEL_SIZE < 0x1_0000_0000
    ensures var c, c' := ThreeTimes(a, b), WithChannel(ThreeTimes(a, b), 0, r);
            && c.banks[0].entries == [1, 1, 1] && c'.banks[0].entries == [2, 2, 1]
            && c'.channels[1] == a && c'.channels[2] == c.channels[1] == b
  {
    ThreeTimesFits(a, b);
    hide WellFormed, Encode;
    var es := WithChannel(ThreeTimes(a, b), 0, r).banks[0].entries;
    assert |es| == 3 && es[0] == 2 && es[1] == 2 && es[2] == 1;
  }
}
