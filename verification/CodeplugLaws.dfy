/** What the codeplug edits leave true: the file says everything, and edits keep it well-formed. */
module CodeplugLaws {
  import opened Bytes
  import opened CodeplugFormat
  import opened Codeplugs
  import opened CodeplugStores

  // ---------------------------------------------------------------- a file determines its codeplug

  lemma SameHeader(c: Codeplug, d: Codeplug)
    requires WellFormed(c) && WellFormed(d) && Encode(c) == Encode(d)
    ensures HeaderOf(c) == HeaderOf(d)
  {
    hide FileBytes, WellFormed, LayoutOf, HeaderOf, DecodeHeader, LayoutFits;
    LayoutStart(c);
    LayoutStart(d);
    HeaderOfFile(LayoutOf(c));
    HeaderOfFile(LayoutOf(d));
  }

  lemma SameContacts(c: Codeplug, d: Codeplug)
    requires WellFormed(c) && WellFormed(d) && Encode(c) == Encode(d) && |c.contacts| == |d.contacts|
    ensures c.contacts == d.contacts
  {
    hide FileBytes, WellFormed, LayoutOf, LayoutFits, LayoutSized;
    LayoutStart(c);
    LayoutStart(d);
    forall i | 0 <= i < |c.contacts|
      ensures c.contacts[i] == d.contacts[i]
    {
      ContactOfFile(LayoutOf(c), i);
      ContactOfFile(LayoutOf(d), i);
    }
  }

  lemma SameChannels(c: Codeplug, d: Codeplug)
    requires WellFormed(c) && WellFormed(d) && Encode(c) == Encode(d)
    requires |c.contacts| == |d.contacts| && |c.channels| == |d.channels|
    ensures c.channels == d.channels
  {
    hide FileBytes, WellFormed, LayoutOf, LayoutFits, LayoutSized, ChannelsAt;
    LayoutStart(c);
    LayoutStart(d);
    forall i | 0 <= i < |c.channels|
      ensures c.channels[i] == d.channels[i]
    {
      ChannelOfFile(LayoutOf(c), i);
      ChannelOfFile(LayoutOf(d), i);
    }
  }

  lemma SameOffset(c: Codeplug, d: Codeplug, i: nat)
    requires WellFormed(c) && WellFormed(d) && Encode(c) == Encode(d) && HeaderOf(c) == HeaderOf(d)
    requires i < |c.banks| == |d.banks|
    ensures TailAt(LayoutOf(c)) == TailAt(LayoutOf(d)) && BankOffset(c.banks, i) == BankOffset(d.banks, i)
  {
    hide Encode, FileBytes, WellFormed, LayoutOf, BankOffset, FromLittleEndian, LittleEndian, DecodeBankHeader,
         LayoutFits, LayoutSized, OffsetsAt, TailAt;
    LayoutStart(c);
    LayoutStart(d);
    BankOfFile(c, i);
    BankOfFile(d, i);
    OffsetBound(c, i);
    OffsetBound(d, i);
    OffsetOfFile(LayoutOf(c), i);
    OffsetOfFile(LayoutOf(d), i);
  }

  lemma OffsetBound(c: Codeplug, i: nat)
    requires WellFormed(c) && i < |c.banks|
    ensures |LayoutOf(c).offsets| == |c.banks| && LayoutOf(c).offsets[i] < 0x1_0000_0000
  {
    LayoutIsFit(c);
    hide WellFormed, Encode, BankOffset;
  }

  lemma SameBank(c: Codeplug, d: Codeplug, i: nat)
    requires WellFormed(c) && WellFormed(d) && Encode(c) == Encode(d) && HeaderOf(c) == HeaderOf(d)
    requires i < |c.banks| == |d.banks|
    ensures c.banks[i] == d.banks[i]
  {
    hide Encode, WellFormed, LayoutOf, BankOffset, DecodeBankHeader, FromLittleEndian, TailAt, HeaderOf;
    SameOffset(c, d, i);
    BankOfFile(c, i);
    BankOfFile(d, i);
    assert |c.banks[i].entries| == |d.banks[i].entries|;
    forall j | 0 <= j < |c.banks[i].entries|
      ensures c.banks[i].entries[j] == d.banks[i].entries[j]
    {
      EntryOfFile(c, i, j);
      EntryOfFile(d, i, j);
    }
  }

  /** No two codeplugs have the same file. */
  lemma EncodingIsInjective(c: Codeplug, d: Codeplug)
    requires WellFormed(c) && WellFormed(d) && Encode(c) == Encode(d)
    ensures c == d
  {
    hide Encode, WellFormed;
    SameHeader(c, d);
    SameContacts(c, d);
    SameChannels(c, d);
    forall i | 0 <= i < |c.banks|
      ensures c.banks[i] == d.banks[i]
    {
      SameBank(c, d, i);
    }
    assert c.banks == d.banks;
  }

  // ---------------------------------------------------------------- edits keep codeplugs well-formed

  lemma EncodedLength(c: Codeplug)
    requires LayoutSized(LayoutOf(c))
    ensures |Encode(c)| == HEADER_SIZE + CONTACT_SIZE * |c.contacts| + CHANNEL_SIZE * |c.channels|
                           + WORD_SIZE * |c.banks| + |Flat(Blobs(c.banks))|
  {
    TailOfFile(LayoutOf(c), 0, 0);
    hide FileBytes, Flat, Blobs, LayoutSized;
  }

  predicate CountsFit(c: Codeplug) {
    |c.contacts| < 0x10000 && |c.channels| < 0x10000 && |c.banks| < 0x10000
  }

  lemma SizedIf(c: Codeplug)
    requires c.version <= CPS_VERSION_MINOR && |c.meta| == 72 && CountsFit(c)
    requires AllOfLength(c.contacts, CONTACT_SIZE) && AllOfLength(c.channels, CHANNEL_SIZE)
    ensures LayoutSized(LayoutOf(c))
  {
    SmallPowers256();
    hide Flat, Blobs, Offsets;
  }

  /** One more contact makes the file longer by one record and keeps it well-formed. */
  lemma ContactKeepsForm(c: Codeplug, pos: nat, r: seq<Byte>)
    requires WellFormed(c) && pos <= |c.contacts| && |r| == CONTACT_SIZE
    requires |c.contacts| + 1 < 0x10000 && |Encode(c)| + CONTACT_SIZE < 0x1_0000_0000
    ensures WellFormed(WithContact(c, pos, r)) && |Encode(WithContact(c, pos, r))| == |Encode(c)| + CONTACT_SIZE
  {
    hide Encode, BumpChannel, LayoutSized, LayoutOf;
    SizedIf(c);
    SizedIf(WithContact(c, pos, r));
    EncodedLength(c);
    EncodedLength(WithContact(c, pos, r));
  }

  lemma {:induction false} SameLengths(rs: seq<seq<Byte>>, ts: seq<seq<Byte>>)
    requires |rs| == |ts| && forall i | 0 <= i < |rs| :: |rs[i]| == |ts[i]|
    ensures |Flat(rs)| == |Flat(ts)|
  {
    if |rs| > 0 {
      SameLengths(rs[..|rs| - 1], ts[..|rs| - 1]);
    }
  }

  lemma BumpedLength(banks: seq<Bank>, pos: nat)
    requires forall i | 0 <= i < |banks| :: BankFits(banks[i])
    ensures |Flat(Blobs(BumpBanks(banks, pos, |banks|)))| == |Flat(Blobs(banks))|
    ensures forall i | 0 <= i < |banks| :: BankFits(BumpBanks(banks, pos, |banks|)[i])
  {
    var banks' := BumpBanks(banks, pos, |banks|);
    hide Flat, BankBytes, BumpEntries, BankFits;
    forall i | 0 <= i < |banks|
      ensures |Blobs(banks)[i]| == |Blobs(banks')[i]| && BankFits(banks'[i])
    {
      BankBytesLength(banks[i]);
      BankBytesLength(banks'[i]);
    }
    SameLengths(Blobs(banks), Blobs(banks'));
  }

  lemma ChannelKeepsForm(c: Codeplug, pos: nat, r: seq<Byte>)
    requires WellFormed(c) && pos <= |c.channels| && |r| == CHANNEL_SIZE
    requires |c.channels| + 1 < 0x10000 && |Encode(c)| + CHANNEL_SIZE < 0x1_0000_0000
    ensures WellFormed(WithChannel(c, pos, r)) && |Encode(WithChannel(c, pos, r))| == |Encode(c)| + CHANNEL_SIZE
  {
    hide Encode, LayoutSized, LayoutOf, BankFits, BumpBanks, Flat, Blobs;
    SizedIf(c);
    SizedIf(WithChannel(c, pos, r));
    BumpedLength(c.banks, pos);
    EncodedLength(c);
    EncodedLength(WithChannel(c, pos, r));
  }

  lemma AllBefore(banks: seq<Bank>)
    ensures BankOffset(banks, |banks|) == |Flat(Blobs(banks))|
  {
    hide Flat, Blobs;
    assert Blobs(banks)[..|banks|] == Blobs(banks);
  }

  lemma BankKeepsForm(c: Codeplug, pos: nat, name: seq<Byte>)
    requires WellFormed(c) && pos <= |c.banks| && |name| == 32
    requires |c.banks| + 1 < 0x10000 && |Encode(c)| + WORD_SIZE + BANK_HEADER_SIZE < 0x1_0000_0000
    ensures WellFormed(WithBank(c, pos, name))
    ensures |Encode(WithBank(c, pos, name))| == |Encode(c)| + WORD_SIZE + BANK_HEADER_SIZE
  {
    hide Encode, LayoutSized, LayoutOf, Flat, Blobs, BankOffset;
    SizedIf(c);
    SizedIf(WithBank(c, pos, name));
    AllBefore(c.banks);
    AllBefore(WithBank(c, pos, name).banks);
    OffsetsInserted(c.banks, pos, Bank(name, []), |c.banks| + 1);
    EncodedLength(c);
    EncodedLength(WithBank(c, pos, name));
  }

  lemma EntryKeepsForm(c: Codeplug, i: nat, j: nat, v: nat)
    requires WellFormed(c) && i < |c.banks| && j <= |c.banks[i].entries| && v < 0x1_0000_0000
    requires |c.banks[i].entries| + 1 < 0x10000 && |Encode(c)| + WORD_SIZE < 0x1_0000_0000
    ensures WellFormed(WithEntry(c, i, j, v)) && |Encode(WithEntry(c, i, j, v))| == |Encode(c)| + WORD_SIZE
  {
    hide Encode, LayoutSized, LayoutOf, Flat, Blobs, BankOffset, InsertAt, BankFits;
    var c' := WithEntry(c, i, j, v);
    LengthenedFits(c.banks[i], j, v);
    SizedIf(c);
    SizedIf(c');
    AllBefore(c.banks);
    AllBefore(c'.banks);
    OffsetsReplaced(c.banks, i, Lengthened(c.banks[i], j, v), |c.banks|);
    EncodedLength(c);
    EncodedLength(c');
  }

  // ---------------------------------------------------------------- the refused entry

  /**
   An entry refused for its position leaves the file as it was exactly if it was meant for the
   last bank: for any other bank the offsets of the banks after it no longer point at them.
   */
  lemma RefusedEntryHarms(c: Codeplug, i: nat)
    requires WellFormed(c) && i < |c.banks| && |Encode(c)| + WORD_SIZE < 0x1_0000_0000
    ensures FileBytes(Displaced(c, i)) == Encode(c) <==> i + 1 == |c.banks|
  {
    hide FileBytes, WellFormed, Offsets, FromLittleEndian, LittleEndian, Flat, Blobs;
    EncodeMeans(c);
    OffsetsInFile(c, i);
    if i + 1 == |c.banks| {
      assert Raised(Offsets(c.banks), i + 1, WORD_SIZE) == Offsets(c.banks);
    } else {
      WellFormedMeans(c);
      DisplacedSized(c, i);
      OffsetOfFile(LayoutOf(c), i + 1);
      OffsetOfFile(Displaced(c, i), i + 1);
    }
  }
}
