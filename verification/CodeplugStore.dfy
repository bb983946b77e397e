/** The codeplug functions of the firmware, each proved to perform its edit on the whole file. */
module CodeplugStores {
  import opened Bytes
  import opened CpsFiles
  import opened CodeplugFormat
  import opened Codeplugs

  /** Pushing down and then filling the hole inserts the bytes. */
  lemma PushedAndFilled(was: seq<Byte>, pushed: seq<Byte>, p: nat, b: seq<Byte>)
    requires p <= |was| && |b| > 0
    requires if p == |was| then pushed == was else Pushed(was, pushed, p, |b|)
    ensures Overwritten(pushed, p, b) == InsertedAt(was, p, b)
  {
    if p < |was| {
      assert pushed == pushed[..p] + pushed[p..p + |b|] + pushed[p + |b|..];
    }
  }

  /** cps_readBankData returns the 32-bit entry as a signed number. */
  function Signed32(v: nat): (r: int)
    ensures v < 0x1_0000_0000 ==> -0x8000_0000 <= r < 0x8000_0000 && (r == v || r == v - 0x1_0000_0000)
  {
    if v < 0x8000_0000 then v else v - 0x1_0000_0000
  }

  class CodeplugStore {
    const file: CpsFile

    constructor (file: CpsFile)
      ensures this.file == file
    {
      this.file := file;
    }

    // ------------------------------------------------------------ header

    method ReadHeader(ghost l: Layout) returns (ok: bool, header: Header)
      requires file.data == FileBytes(l) && LayoutSized(l)
      modifies file`pos
      ensures (ok <==> Accepted(l.header)) && header == l.header && file.pos == HEADER_SIZE
    {
      HeaderOfFile(l);
      hide FileBytes, DecodeHeader;
      file.Seek(0);
      var b := file.Read(HEADER_SIZE);
      header := DecodeHeader(b);
      ok := Accepted(header);
    }

    method WriteHeader(header: Header, ghost l: Layout)
      requires file.data == FileBytes(l) && LayoutSized(l) && HeaderFits(header)
      modifies file
      ensures file.data == FileBytes(l.(header := header))
    {
      HeaderWritten(l, header);
      hide FileBytes, EncodeHeader;
      file.Seek(0);
      file.Write(EncodeHeader(header));
    }

    /** _pushDown followed by fwrite. */
    method Insert(p: nat, b: seq<Byte>)
      requires p <= |file.data| && |b| > 0
      modifies file
      ensures file.data == InsertedAt(old(file.data), p, b) && file.pos == p + |b|
    {
      ghost var was := file.data;
      file.PushDown(p, |b|);
      PushedAndFilled(was, file.data, p, b);
      file.Write(b);
    }

    // ------------------------------------------------------------ contacts and channels

    method ReadContact(pos: nat, ghost l: Layout) returns (r: int, contact: seq<Byte>)
      requires file.data == FileBytes(l) && LayoutFits(l)
      modifies file`pos
      ensures if pos < |l.contacts| then r == 0 && contact == l.contacts[pos] else r == -1
    {
      hide FileBytes, Flat;
      contact := [];
      var ok, header := ReadHeader(l);
      if !ok || pos >= header.ctCount {
        return -1, [];
      }
      ContactOfFile(l, pos);
      file.Seek(file.pos + pos * CONTACT_SIZE);
      contact := file.Read(CONTACT_SIZE);
      r := 0;
    }

    method ReadChannel(pos: nat, ghost l: Layout) returns (r: int, channel: seq<Byte>)
      requires file.data == FileBytes(l) && LayoutFits(l)
      modifies file`pos
      ensures if pos < |l.channels| then r == 0 && channel == l.channels[pos] else r == -1
    {
      hide FileBytes, Flat;
      channel := [];
      var ok, header := ReadHeader(l);
      if !ok || pos >= header.chCount {
        return -1, [];
      }
      ChannelOfFile(l, pos);
      file.Seek(file.pos + header.ctCount * CONTACT_SIZE + pos * CHANNEL_SIZE);
      channel := file.Read(CHANNEL_SIZE);
      r := 0;
    }

    method WriteContact(contact: seq<Byte>, pos: nat, ghost l: Layout) returns (r: int)
      requires file.data == FileBytes(l) && LayoutFits(l) && |contact| == CONTACT_SIZE
      modifies file
      ensures if pos < |l.contacts|
              then r == 0 && file.data == FileBytes(l.(contacts := l.contacts[pos := contact]))
              else r == -1 && file.data == old(file.data)
    {
      hide FileBytes, Flat;
      var ok, header := ReadHeader(l);
      if !ok || pos >= header.ctCount {
        return -1;
      }
      ContactWritten(l, pos, contact);
      file.Seek(file.pos + pos * CONTACT_SIZE);
      file.Write(contact);
      r := 0;
    }

    method WriteChannel(channel: seq<Byte>, pos: nat, ghost l: Layout) returns (r: int)
      requires file.data == FileBytes(l) && LayoutFits(l) && |channel| == CHANNEL_SIZE
      modifies file
      ensures if pos < |l.channels|
              then r == 0 && file.data == FileBytes(l.(channels := l.channels[pos := channel]))
              else r == -1 && file.data == old(file.data)
    {
      hide FileBytes, Flat;
      var ok, header := ReadHeader(l);
      if !ok || pos >= header.chCount {
        return -1;
      }
      ChannelWritten(l, pos, channel);
      file.Seek(file.pos + header.ctCount * CONTACT_SIZE + pos * CHANNEL_SIZE);
      file.Write(channel);
      r := 0;
    }

    /** Every channel whose contact index is at or after pos gets it raised by one. */
    method UpdateCtNumbering(pos: nat, ghost l: Layout) returns (r: int)
      requires file.data == FileBytes(l) && LayoutFits(l)
      modifies file
      ensures r == 0 && file.data == FileBytes(l.(channels := BumpChannels(l.channels, pos, |l.channels|)))
    {
      hide FileBytes, Flat, IndexAt, WithIndex;
      var ok, header := ReadHeader(l);
      if !ok {
        return -1;
      }
      assert BumpChannels(l.channels, pos, 0) == l.channels;
      for i := 0 to header.chCount
        invariant file.data == FileBytes(l.(channels := BumpChannels(l.channels, pos, i)))
      {
        ghost var now := l.(channels := BumpChannels(l.channels, pos, i));
        ghost var next := BumpChannels(l.channels, pos, i + 1);
        assert next == now.channels[i := BumpChannel(l.channels[i], pos)];
        var _, c := ReadChannel(i, now);
        if ModeOf(c) == OPMODE_M17 && IndexAt(c, M17_INDEX_AT) >= pos {
          c := WithIndex(c, M17_INDEX_AT, (IndexAt(c, M17_INDEX_AT) + 1) % 0x10000);
          var _ := WriteChannel(c, i, now);
        } else if ModeOf(c) == OPMODE_DMR && IndexAt(c, DMR_INDEX_AT) >= pos {
          c := WithIndex(c, DMR_INDEX_AT, (IndexAt(c, DMR_INDEX_AT) + 1) % 0x10000);
          var _ := WriteChannel(c, i, now);
        } else {
          assert next == now.channels;
        }
      }
      r := 0;
    }

    /** The codeplug with the contact inserted and all channels renumbered, while the count fits 16 bits. */
    method InsertContact(contact: seq<Byte>, pos: nat, ghost c: Codeplug) returns (r: int)
      requires file.data == Encode(c) && WellFormed(c) && |contact| == CONTACT_SIZE
      requires |c.contacts| + 1 < 0x10000 && |Encode(c)| + CONTACT_SIZE < 0x1_0000_0000
      modifies file
      ensures if pos <= |c.contacts| then r == 0 && file.data == Encode(WithContact(c, pos, contact))
              else r == -1 && file.data == old(file.data)
    {
      hide FileBytes, Flat, InsertedAt, Blobs, Offsets;
      ghost var l := LayoutOf(c);
      LayoutIsFit(c);
      var ok, header := ReadHeader(l);
      if !ok || pos >= header.ctCount + 1 {
        return -1;
      }
      var ctPos := file.pos + pos * CONTACT_SIZE;
      ContactInserted(l, pos, contact);
      Insert(ctPos, contact);
      ghost var inserted := l.(contacts := InsertAt(l.contacts, pos, contact));
      header := header.(ctCount := header.ctCount + 1);
      WriteHeader(header, inserted);
      r := UpdateCtNumbering(pos, inserted.(header := header));
    }

    // ------------------------------------------------------------ banks

    /**
     From behind the header to the data of a bank, by way of its offset entry. The position is not
     checked: behind the last bank, bytes of the banks are taken for an offset.
     */
    method SeekBank(header: Header, pos: nat, ghost l: Layout)
      requires file.data == FileBytes(l) && LayoutFits(l) && header == l.header
      requires file.pos == HEADER_SIZE
      modifies file`pos
      ensures file.pos == SoughtAt(l, pos)
    {
      hide FileBytes, FromLittleEndian, LittleEndian, LayoutFits, OffsetsAt, TailAt, WordFor;
      PositionsOf(l);
      if pos < |l.offsets| {
        OffsetOfFile(l, pos);
      } else {
        WordBehindOffsets(l, pos);
      }
      file.Seek(file.pos + header.ctCount * CONTACT_SIZE + header.chCount * CHANNEL_SIZE + pos * WORD_SIZE);
      var b := file.Read(WORD_SIZE);
      file.SeekBy((header.bCount - pos - 1) * WORD_SIZE + FromLittleEndian(b));
    }

    /** SeekBank and the reading of the bank header that follows, into a structure of zeros. */
    method ReadSoughtBank(header: Header, pos: nat, ghost c: Codeplug) returns (b: BankHeader)
      requires file.data == Encode(c) && WellFormed(c) && header == HeaderOf(c)
      requires file.pos == HEADER_SIZE
      modifies file`pos
      ensures var p := SoughtAt(LayoutOf(c), pos);
              b == HeaderSeen(Encode(c), p) && file.pos == p + |HeaderBytes(Encode(c), p)|
      ensures pos < |c.banks| ==>
                b == BankHeader(c.banks[pos].name, |c.banks[pos].entries|)
                && file.pos == TailAt(LayoutOf(c)) + BankOffset(c.banks, pos) + BANK_HEADER_SIZE
    {
      hide Encode, WellFormed, LayoutFits, LayoutOf, HeaderOf, BankOffset, DecodeBankHeader, TailAt, SoughtAt, Zeroes;
      LayoutIsFit(c);
      if pos < |c.banks| {
        BankSought(c, pos, pos);
      }
      EncodeMeans(c);
      LayoutOfBanks(c, c.banks);
      SeekBank(header, pos, LayoutOf(c));
      var bytes := file.Read(BANK_HEADER_SIZE);
      b := DecodeBankHeader(bytes + Zeroes(BANK_HEADER_SIZE - |bytes|));
    }

    method ReadHeaderOf(ghost c: Codeplug) returns (ok: bool, header: Header)
      requires file.data == Encode(c) && WellFormed(c)
      modifies file`pos
      ensures ok && header == HeaderOf(c) && file.pos == HEADER_SIZE
    {
      LayoutIsFit(c);
      hide FileBytes, LayoutFits;
      ok, header := ReadHeader(LayoutOf(c));
    }

    method ReadBankHeader(pos: nat, ghost c: Codeplug) returns (r: int, b: BankHeader)
      requires file.data == Encode(c) && WellFormed(c)
      modifies file`pos
      ensures if pos < |c.banks|
              then r == 0 && b == BankHeader(c.banks[pos].name, |c.banks[pos].entries|)
                   && file.pos == TailAt(LayoutOf(c)) + BankOffset(c.banks, pos) + BANK_HEADER_SIZE
              else r == -1
    {
      hide Encode, WellFormed, LayoutOf, BankOffset, TailAt;
      b := BankHeader([], 0);
      var ok, header := ReadHeaderOf(c);
      if !ok || pos >= header.bCount {
        return -1, b;
      }
      b := ReadSoughtBank(header, pos, c);
      r := 0;
    }

    /** The entry, which the function returns as a signed 32-bit number. */
    method ReadBankData(bankPos: nat, pos: nat, ghost c: Codeplug) returns (r: int)
      requires file.data == Encode(c) && WellFormed(c)
      modifies file`pos
      ensures r == if bankPos < |c.banks| && pos < |c.banks[bankPos].entries|
                   then Signed32(c.banks[bankPos].entries[pos]) else -1
    {
      hide Encode, BankOffset, LayoutOf, TailAt, FromLittleEndian;
      var r', b := ReadBankHeader(bankPos, c);
      if r' != 0 || pos >= b.chCount {
        return -1;
      }
      EntryOfFile(c, bankPos, pos);
      file.Seek(file.pos + pos * WORD_SIZE);
      var bytes := file.Read(WORD_SIZE);
      r := Signed32(FromLittleEndian(bytes));
    }

    /**
     Besides a position behind the last entry, the function refuses one beyond the number of banks.
     It does not check bankPos: what it finds where it looks for a missing bank decides whether it
     refuses, and which four bytes it overwrites if not.
     */
    method WriteBankData(ch: nat, bankPos: nat, pos: nat, ghost c: Codeplug) returns (r: int)
      requires file.data == Encode(c) && WellFormed(c) && ch < 0x1_0000_0000
      modifies file
      ensures bankPos < |c.banks| ==>
                if pos <= |c.banks| && pos < |c.banks[bankPos].entries|
                then r == 0 && file.data == Encode(SetEntry(c, bankPos, pos, ch)) && WellFormed(SetEntry(c, bankPos, pos, ch))
                else r == -1 && file.data == old(file.data)
      ensures bankPos >= |c.banks| ==>
                var p := SoughtAt(LayoutOf(c), bankPos);
                if pos <= |c.banks| && pos < HeaderSeen(Encode(c), p).chCount
                then r == 0 && file.data == Overwritten(Encode(c), WordAfter(Encode(c), p, pos), LittleEndian(ch, 4))
                else r == -1 && file.data == old(file.data)
    {
      hide Encode, WellFormed, LayoutOf, BankOffset, TailAt, LittleEndian, Overwritten, SetEntry, SoughtAt, HeaderSeen;
      var ok, header := ReadHeaderOf(c);
      if !ok || pos >= header.bCount + 1 {
        return -1;
      }
      var b := ReadSoughtBank(header, bankPos, c);
      if pos >= b.chCount {
        return -1;
      }
      if bankPos < |c.banks| {
        EntrySet(c, bankPos, pos, ch);
      }
      file.Seek(file.pos + pos * WORD_SIZE);
      file.Write(LittleEndian(ch, 4));
      r := 0;
    }

    /** Where bank pos begins, and for pos behind the last bank where a new one would. */
    method GetBankDataOffset(pos: nat, ghost l: Layout, ghost c: Codeplug) returns (r: int)
      requires file.data == FileBytes(l) && LayoutFits(l)
      requires pos == |l.offsets| ==> l == LayoutOf(c) && WellFormed(c)
      modifies file`pos
      ensures r == if pos > |l.offsets| then -1
                   else if pos < |l.offsets| then TailAt(l) + l.offsets[pos]
                   else if pos == 0 then TailAt(l) + WORD_SIZE
                   else TailAt(l) + BankOffset(c.banks, pos)
    {
      hide FileBytes, Flat, Blobs, FromLittleEndian, LittleEndian;
      var ok, header := ReadHeader(l);
      if !ok || pos >= header.bCount + 1 {
        return -1;
      }
      if pos == header.bCount {
        if header.bCount == 0 {
          return file.pos + header.ctCount * CONTACT_SIZE + header.chCount * CHANNEL_SIZE + WORD_SIZE;
        }
        OffsetOfFile(l, pos - 1);
        LastBankEnds(c.banks);
        file.Seek(file.pos + header.ctCount * CONTACT_SIZE + header.chCount * CHANNEL_SIZE
                  + (header.bCount - 1) * WORD_SIZE);
        var b := file.Read(WORD_SIZE);
        var dataPos := file.pos;
        var _, last := ReadBankHeader(header.bCount - 1, c);
        return dataPos + FromLittleEndian(b) + BANK_HEADER_SIZE + last.chCount * WORD_SIZE;
      }
      OffsetOfFile(l, pos);
      file.Seek(file.pos + header.ctCount * CONTACT_SIZE + header.chCount * CHANNEL_SIZE + pos * WORD_SIZE);
      var b := file.Read(WORD_SIZE);
      r := file.pos + (header.bCount - pos - 1) * WORD_SIZE + FromLittleEndian(b);
    }

    /** The loop over the offset table: the n entries from the cursor on, up to its end, are raised. */
    method RaiseOffsets(n: nat, amount: nat, ghost l: Layout, ghost lo: nat)
      requires file.data == FileBytes(l) && LayoutSized(l) && lo + n == |l.offsets|
      requires file.pos == OffsetsAt(l) + WORD_SIZE * lo
      requires forall k | 0 <= k < |l.offsets| :: l.offsets[k] + amount < 0x1_0000_0000
      modifies file
      ensures file.data == FileBytes(l.(offsets := Raised(l.offsets, lo, amount))) && file.pos == TailAt(l)
    {
      hide FileBytes, FromLittleEndian, LittleEndian, Overwritten;
      assert RaisedUpTo(l.offsets, lo, lo, amount) == l.offsets;
      for i := 0 to n
        invariant file.pos == OffsetsAt(l) + WORD_SIZE * (lo + i)
        invariant file.data == FileBytes(l.(offsets := RaisedUpTo(l.offsets, lo, lo + i, amount)))
      {
        ghost var now := l.(offsets := RaisedUpTo(l.offsets, lo, lo + i, amount));
        OffsetOfFile(now, lo + i);
        OffsetWritten(now, lo + i, now.offsets[lo + i] + amount);
        assert now.offsets[lo + i := now.offsets[lo + i] + amount] == RaisedUpTo(l.offsets, lo, lo + i + 1, amount);
        var p := file.pos;
        var b := file.Read(WORD_SIZE);
        file.Seek(p);
        file.Write(LittleEndian((FromLittleEndian(b) + amount) % 0x1_0000_0000, 4));
      }
      assert RaisedUpTo(l.offsets, lo, lo + n, amount) == Raised(l.offsets, lo, amount);
    }

    /** Every entry naming a channel at or after pos gets raised by one where the write goes through. */
    method UpdateChNumbering(pos: nat, ghost c: Codeplug) returns (r: int)
      requires file.data == Encode(c) && WellFormed(c)
      modifies file
      ensures r == 0 && file.data == Encode(c.(banks := BumpBanks(c.banks, pos, |c.banks|)))
      ensures WellFormed(c.(banks := BumpBanks(c.banks, pos, |c.banks|)))
    {
      hide Encode, WellFormed, BankOffset, TailAt, LayoutOf, BumpBanks, BumpEntries, SetEntry;
      var ok, header := ReadHeaderOf(c);
      if !ok {
        return -1;
      }
      NumberingBegins(c, pos);
      for i := 0 to header.bCount
        invariant WellFormed(Numbering(c, pos, i, 0)) && file.data == Encode(Numbering(c, pos, i, 0))
      {
        NumberingKeeps(c, pos, i, 0);
        var _, b := ReadBankHeader(i, Numbering(c, pos, i, 0));
        for j := 0 to b.chCount
          invariant WellFormed(Numbering(c, pos, i, j)) && file.data == Encode(Numbering(c, pos, i, j))
        {
          ghost var now := Numbering(c, pos, i, j);
          NumberingKeeps(c, pos, i, j);
          NumberingStep(c, pos, i, j);
          WellFormedMeans(now);
          var ch := ReadBankData(i, j, now);
          if ch >= pos {
            ch := ch + 1;
            var _ := WriteBankData(ch, i, j, now);
          }
        }
        NumberingTurns(c, pos, i);
      }
      NumberingEnds(c, pos);
      r := 0;
    }

    /** The codeplug with the channel inserted and the banks' entries renumbered. */
    method InsertChannel(channel: seq<Byte>, pos: nat, ghost c: Codeplug) returns (r: int)
      requires file.data == Encode(c) && WellFormed(c) && |channel| == CHANNEL_SIZE
      requires |c.channels| + 1 < 0x10000 && |Encode(c)| + CHANNEL_SIZE < 0x1_0000_0000
      modifies file
      ensures if pos <= |c.channels| then r == 0 && file.data == Encode(WithChannel(c, pos, channel))
              else r == -1 && file.data == old(file.data)
    {
      hide FileBytes, InsertedAt, Encode, WellFormed, LayoutOf, LayoutFits, LayoutSized, HeaderFits, WithChannel,
           ChannelsAt, BumpBanks, InsertAt;
      var ok, header := ReadHeaderOf(c);
      if !ok || pos >= header.chCount + 1 {
        return -1;
      }
      ghost var l, c' := LayoutOf(c), c.(channels := InsertAt(c.channels, pos, channel));
      var chPos := file.pos + header.ctCount * CONTACT_SIZE + pos * CHANNEL_SIZE;
      EncodeMeans(c);
      LayoutStart(c);
      ChannelInserted(l, pos, channel);
      Insert(chPos, channel);
      header := header.(chCount := header.chCount + 1);
      ChannelSized(c, pos, channel);
      WriteHeader(header, l.(channels := c'.channels));
      ChannelPutIn(c, pos, channel);
      var _ := UpdateChNumbering(pos, c');
      r := 0;
    }

    /**
     The codeplug with an empty bank inserted, except that the bank's header is the given one: the
     file is that of the codeplug with the bank exactly if the header announces no entries.
     */
    method InsertBankHeader(b: BankHeader, pos: nat, ghost c: Codeplug) returns (r: int)
      requires file.data == Encode(c) && WellFormed(c) && |b.name| == 32 && b.chCount < 0x10000
      requires |c.banks| + 1 < 0x10000 && |Encode(c)| + WORD_SIZE + BANK_HEADER_SIZE < 0x1_0000_0000
      modifies file
      ensures pos <= |c.banks| ==>
                var c' := WithBank(c, pos, b.name);
                && r == 0 && (file.data == Encode(c') <==> b.chCount == 0)
                && file.data == Overwritten(Encode(c'), TailAt(LayoutOf(c')) + BankOffset(c'.banks, pos), EncodeBankHeader(b))
      ensures pos > |c.banks| ==> r == -1 && file.data == old(file.data)
    {
      hide FileBytes, InsertedAt, InsertAt, Offsets, BankOffset, Encode, WellFormed, LayoutOf, LayoutFits, LayoutSized,
           HeaderFits, LittleEndian, Raised, EncodeBankHeader, TailAt, OffsetsAt, ChannelsAt, WithBank, Announced,
           DecodeBankHeader, Overwritten;
      LayoutStart(c);
      EncodeMeans(c);
      OffsetsInFile(c, 0);
      var ok, header := ReadHeaderOf(c);
      if !ok || pos >= header.bCount + 1 {
        return -1;
      }
      OffsetsInFile(c, pos);
      AnnouncedFits(c, pos, b.name);
      ghost var l, n := LayoutOf(c), Announced(c, pos, b.name);
      ghost var m := l.(offsets := InsertAt(l.offsets, pos, BankOffset(c.banks, pos)));
      file.Seek(file.pos + header.ctCount * CONTACT_SIZE + header.chCount * CHANNEL_SIZE + pos * WORD_SIZE);
      var bOffsetPos := file.pos;
      var here := GetBankDataOffset(pos, l, c);
      var first := GetBankDataOffset(0, l, c);
      var bOffset := (here - first) % 0x1_0000_0000;
      OffsetInserted(l, pos, bOffset);
      Insert(bOffsetPos, LittleEndian(bOffset, 4));
      RaiseOffsets(header.bCount - pos, BANK_HEADER_SIZE, m, pos + 1);
      header := header.(bCount := header.bCount + 1);
      WriteHeader(header, n.(header := l.header));
      var bankPos := GetBankDataOffset(pos, n, c);
      HeaderPutIn(c, pos, b);
      BankHeaderReadBack(b);
      Insert(bankPos, EncodeBankHeader(b));
      r := 0;
    }

    /**
     The codeplug with an entry put into a bank. For a position behind the end of the bank the
     function returns -1, but the offsets of the banks after it have been raised by then.
     */
    method InsertBankData(ch: nat, bankPos: nat, pos: nat, ghost c: Codeplug) returns (r: int)
      requires file.data == Encode(c) && WellFormed(c) && ch < 0x1_0000_0000
      requires bankPos < |c.banks| ==> |c.banks[bankPos].entries| + 1 < 0x10000
      requires |Encode(c)| + WORD_SIZE < 0x1_0000_0000
      modifies file
      ensures if bankPos >= |c.banks| then r == -1 && file.data == old(file.data)
              else if pos <= |c.banks[bankPos].entries| then r == 0 && file.data == Encode(WithEntry(c, bankPos, pos, ch))
              else r == -1 && file.data == FileBytes(Displaced(c, bankPos))
    {
      hide FileBytes, InsertedAt, Offsets, BankOffset, Encode, WellFormed, LayoutOf, LayoutFits, LayoutSized, HeaderFits,
           LittleEndian, FromLittleEndian, Raised, EncodeBankHeader, DecodeBankHeader, TailAt, OffsetsAt, ChannelsAt,
           Displaced, Overwritten, WithEntry, RaisedHeader;
      LayoutStart(c);
      EncodeMeans(c);
      var ok, header := ReadHeaderOf(c);
      if !ok || bankPos >= header.bCount {
        return -1;
      }
      ghost var l := LayoutOf(c);
      OffsetsInFile(c, bankPos);
      OffsetOfFile(l, bankPos);
      file.Seek(file.pos + header.ctCount * CONTACT_SIZE + header.chCount * CHANNEL_SIZE + bankPos * WORD_SIZE);
      var bytes := file.Read(WORD_SIZE);
      var offset := FromLittleEndian(bytes);
      RaiseOffsets(header.bCount - bankPos - 1, WORD_SIZE, l, bankPos + 1);
      DisplacedParts(c, bankPos);
      r := AddEntry(ch, pos, offset, bankPos, c);
    }

    /** The second half of InsertBankData: the bank header is rewritten and the entry put in. */
    method AddEntry(ch: nat, pos: nat, offset: nat, ghost bankPos: nat, ghost c: Codeplug) returns (r: int)
      requires WellFormed(c) && ch < 0x1_0000_0000 && bankPos < |c.banks| && |c.banks[bankPos].entries| + 1 < 0x10000
      requires file.data == FileBytes(Displaced(c, bankPos)) && file.pos == TailAt(LayoutOf(c))
      requires offset == BankOffset(c.banks, bankPos)
      modifies file
      ensures if pos <= |c.banks[bankPos].entries| then r == 0 && file.data == Encode(WithEntry(c, bankPos, pos, ch))
              else r == -1 && file.data == old(file.data)
    {
      hide FileBytes, InsertedAt, BankOffset, Encode, WellFormed, LayoutOf, LittleEndian, EncodeBankHeader,
           DecodeBankHeader, TailAt, Displaced, Overwritten, WithEntry, RaisedHeader;
      BankOfDisplaced(c, bankPos);
      file.Seek(file.pos + offset);
      var hPos := file.pos;
      var bytes := file.Read(BANK_HEADER_SIZE);
      var b := DecodeBankHeader(bytes);
      if pos >= b.chCount + 1 {
        return -1;
      }
      b := b.(chCount := b.chCount + 1);
      file.Seek(hPos);
      file.Write(EncodeBankHeader(b));
      EntryPutIn(c, bankPos, pos, ch, hPos, file.data);
      Insert(file.pos + pos * WORD_SIZE, LittleEndian(ch, 4));
      r := 0;
    }
  }

  function RaisedUpTo(offsets: seq<nat>, lo: nat, hi: nat, amount: nat): (r: seq<nat>)
    ensures |r| == |offsets|
  {
    seq(|offsets|, k requires 0 <= k < |offsets| => if lo <= k < hi then offsets[k] + amount else offsets[k])
  }

  lemma PositionsOf(l: Layout)
    requires LayoutFits(l)
    ensures OffsetsAt(l) == HEADER_SIZE + CONTACT_SIZE * l.header.ctCount + CHANNEL_SIZE * l.header.chCount
    ensures TailAt(l) == OffsetsAt(l) + WORD_SIZE * l.header.bCount
    ensures LayoutSized(l) && |l.offsets| == l.header.bCount
    ensures forall i | 0 <= i < |l.offsets| :: l.offsets[i] < 0x1_0000_0000
  {
  }

  // ------------------------------------------------------------ looking for banks that do not exist

  /** The bytes that are taken for the offset of a missing bank: four, unless the file ends before. */
  function WordFor(l: Layout, i: nat): (w: seq<Byte>)
    requires i >= |l.offsets|
    ensures |w| <= WORD_SIZE
  {
    var at := WORD_SIZE * (i - |l.offsets|);
    l.tail[Least(at, |l.tail|)..Least(at + WORD_SIZE, |l.tail|)]
  }

  /** Where the header of bank i is looked for, whether there is such a bank or not. */
  function SoughtAt(l: Layout, i: nat): nat {
    if i < |l.offsets| then TailAt(l) + l.offsets[i]
    else TailAt(l) + FromLittleEndian(WordFor(l, i)) + |WordFor(l, i)| - WORD_SIZE
  }

  /** The bytes of a bank header at p: fewer if the file ends before. */
  function HeaderBytes(s: seq<Byte>, p: nat): (b: seq<Byte>)
    ensures |b| <= BANK_HEADER_SIZE
  {
    s[Least(p, |s|)..Least(p + BANK_HEADER_SIZE, |s|)]
  }

  /** The bank header read there into a structure of zeros. */
  function HeaderSeen(s: seq<Byte>, p: nat): BankHeader {
    DecodeBankHeader(HeaderBytes(s, p) + Zeroes(BANK_HEADER_SIZE - |HeaderBytes(s, p)|))
  }

  /** The position of entry j behind that header. */
  function WordAfter(s: seq<Byte>, p: nat, j: nat): nat {
    p + |HeaderBytes(s, p)| + WORD_SIZE * j
  }

  lemma SliceOfSuffix(x: seq<Byte>, t: seq<Byte>, a: nat, b: nat)
    requires a <= b
    ensures var s := x + t;
            s[Least(|x| + a, |s|)..Least(|x| + b, |s|)] == t[Least(a, |t|)..Least(b, |t|)]
  {
  }

  lemma WordBehindOffsets(l: Layout, i: nat)
    requires LayoutSized(l) && i >= |l.offsets|
    ensures var s, p := FileBytes(l), TailAt(l) + WORD_SIZE * (i - |l.offsets|);
            && s[Least(p, |s|)..Least(p + WORD_SIZE, |s|)] == WordFor(l, i)
            && TailAt(l) <= |s| && (WordFor(l, i) != [] ==> p + |WordFor(l, i)| <= |s|)
  {
    AroundTail(l);
    var at := WORD_SIZE * (i - |l.offsets|);
    SliceOfSuffix(Front(l), l.tail, at, at + WORD_SIZE);
    hide FileBytes, TailAt, LayoutSized, Front;
  }

  /** Looking for bank i, which may not exist, ends at bank j, which does. */
  predicate Misled(c: Codeplug, i: nat, j: nat) {
    j < |c.banks| && SoughtAt(LayoutOf(c), i) == TailAt(LayoutOf(c)) + BankOffset(c.banks, j)
  }

  /** Then the header found is that of bank j. */
  lemma BankSought(c: Codeplug, i: nat, j: nat)
    requires WellFormed(c) && j < |c.banks| && (i == j || Misled(c, i, j))
    ensures var p := SoughtAt(LayoutOf(c), i);
            && p == TailAt(LayoutOf(c)) + BankOffset(c.banks, j)
            && |HeaderBytes(Encode(c), p)| == BANK_HEADER_SIZE
            && HeaderSeen(Encode(c), p) == BankHeader(c.banks[j].name, |c.banks[j].entries|)
  {
    hide Encode, WellFormed, LayoutOf, BankOffset, TailAt, DecodeBankHeader, Zeroes, WordFor;
    BankOfFile(c, j);
    var s, p := Encode(c), SoughtAt(LayoutOf(c), i);
    assert HeaderBytes(s, p) == s[p..p + BANK_HEADER_SIZE];
    assert HeaderBytes(s, p) + Zeroes(0) == HeaderBytes(s, p);
  }

  /** And what is written for the missing bank is written into bank j. */
  lemma MisledWrite(c: Codeplug, i: nat, j: nat, pos: nat, ch: nat)
    requires WellFormed(c) && i >= |c.banks| && Misled(c, i, j) && pos < |c.banks[j].entries| && ch < 0x1_0000_0000
    ensures Overwritten(Encode(c), WordAfter(Encode(c), SoughtAt(LayoutOf(c), i), pos), LittleEndian(ch, 4))
            == Encode(SetEntry(c, j, pos, ch))
  {
    hide Encode, WellFormed, LayoutOf, BankOffset, TailAt, LittleEndian, Overwritten, SetEntry, SoughtAt, HeaderSeen, HeaderBytes;
    BankSought(c, i, j);
    EntrySet(c, j, pos, ch);
  }

  /** Wherever the word found is the offset of a bank; zeros, with which an empty name begins, lead to the first. */
  lemma MisledExactlyIf(c: Codeplug, i: nat, j: nat)
    requires WellFormed(c) && i >= |c.banks| && j < |c.banks|
    ensures var w := WordFor(LayoutOf(c), i);
            Misled(c, i, j) <==> FromLittleEndian(w) + |w| == BankOffset(c.banks, j) + WORD_SIZE
    ensures i == |c.banks| ==> WordFor(LayoutOf(c), i) == c.banks[0].name[..WORD_SIZE]
    ensures BankOffset(c.banks, 0) == 0 && FromLittleEndian(Zeroes(WORD_SIZE)) == 0
  {
    hide WellFormed, LayoutOf, Flat, Blobs, Zeroes, EncodeBankHeader, DecodeBankHeader, FromLittleEndian;
    WellFormedMeans(c);
    EncodeMeans(c);
    LayoutIsFit(c);
    BankOfFile(c, j);
    ZeroesAreZero(WORD_SIZE);
    FirstOffset(c.banks);
    BankHeaderOfTail(c.banks, 0);
    NameBegins(BankHeader(c.banks[0].name, |c.banks[0].entries|));
  }

  lemma FirstOffset(banks: seq<Bank>)
    ensures BankOffset(banks, 0) == 0
  {
  }

  lemma NameBegins(b: BankHeader)
    ensures b.name <= EncodeBankHeader(b)
  {
  }

  lemma {:induction false} ZeroesAreZero(n: nat)
    ensures FromLittleEndian(Zeroes(n)) == 0
  {
    if n > 0 {
      ZeroesAreZero(n - 1);
      assert Zeroes(n)[1..] == Zeroes(n - 1);
    }
  }

  lemma BankOfFile(c: Codeplug, i: nat)
    requires WellFormed(c) && i < |c.banks|
    ensures var p := TailAt(LayoutOf(c)) + BankOffset(c.banks, i);
            p + BANK_HEADER_SIZE <= |Encode(c)|
            && DecodeBankHeader(Encode(c)[p..p + BANK_HEADER_SIZE]) == BankHeader(c.banks[i].name, |c.banks[i].entries|)
    ensures |LayoutOf(c).offsets| == |c.banks| && LayoutOf(c).offsets[i] == BankOffset(c.banks, i)
    ensures LayoutOf(c).header == HeaderOf(c) && Encode(c) == FileBytes(LayoutOf(c))
  {
    hide *;
    BankOfLayout(c, i);
    WellFormedMeans(c);
    EncodeMeans(c);
    BankHeaderOfTail(c.banks, i);
    TailOfFile(LayoutOf(c), BankOffset(c.banks, i), BANK_HEADER_SIZE);
  }

  lemma BankOfLayout(c: Codeplug, i: nat)
    requires i < |c.banks|
    ensures |LayoutOf(c).offsets| == |c.banks| && LayoutOf(c).offsets[i] == BankOffset(c.banks, i)
    ensures LayoutOf(c).header == HeaderOf(c)
  {
    hide HeaderOf, BankOffset, Flat, Blobs;
  }

  /** What the bank insertions need to know of the offsets. */
  lemma OffsetsInFile(c: Codeplug, i: nat)
    requires WellFormed(c) && i <= |c.banks|
    ensures LayoutOf(c).offsets == Offsets(c.banks) && |Offsets(c.banks)| == |c.banks|
    ensures i < |c.banks| ==> Offsets(c.banks)[i] == BankOffset(c.banks, i)
    ensures |c.banks| > 0 ==> Offsets(c.banks)[0] == 0
    ensures BankOffset(c.banks, 0) == 0 && BankOffset(c.banks, i) <= |Encode(c)|
    ensures forall k | 0 <= k < |c.banks| :: Offsets(c.banks)[k] <= |Encode(c)|
  {
    LayoutIsFit(c);
    TailOfFile(LayoutOf(c), 0, 0);
    OffsetsInTail(c.banks, i);
    forall k | 0 <= k < |c.banks|
      ensures Offsets(c.banks)[k] <= |Encode(c)|
    {
      OffsetsInTail(c.banks, k);
    }
    assert Blobs(c.banks)[..0] == [];
    hide FileBytes, Blobs, WellFormed, LayoutFits;
  }

  /** The layouts on the way to one more bank: the offset put in, the later ones raised, the header rewritten. */
  lemma AnnouncedFits(c: Codeplug, i: nat, name: seq<Byte>)
    requires WellFormed(c) && i <= |c.banks| && |name| == 32 && |c.banks| + 1 < 0x10000
    requires |Encode(c)| + WORD_SIZE + BANK_HEADER_SIZE < 0x1_0000_0000
    ensures var l, n := LayoutOf(c), Announced(c, i, name);
            var m := l.(offsets := InsertAt(Offsets(c.banks), i, BankOffset(c.banks, i)));
            && LayoutFits(n) && LayoutSized(m) && LayoutSized(n.(header := l.header))
            && OffsetsAt(m) == OffsetsAt(l) && |n.offsets| == |c.banks| + 1 && n.offsets[i] == BankOffset(c.banks, i)
            && m.(offsets := Raised(m.offsets, i + 1, BANK_HEADER_SIZE)) == n.(header := l.header)
            && n.header == l.header.(bCount := |c.banks| + 1) && HeaderFits(n.header)
            && |m.offsets| == |c.banks| + 1
            && forall k | 0 <= k < |m.offsets| :: m.offsets[k] + BANK_HEADER_SIZE < 0x1_0000_0000
  {
    hide Encode, FileBytes, WellFormed, LayoutOf, Announced, Offsets, BankOffset, HeaderOf, AllOfLength, BankFits;
    OffsetsInFile(c, i);
    AnnouncedParts(c, i, name);
    AnnouncedSized(c, i, name);
    LayoutStart(c);
  }

  lemma AnnouncedParts(c: Codeplug, i: nat, name: seq<Byte>)
    requires i <= |c.banks|
    ensures Announced(c, i, name)
            == LayoutOf(c).(header := HeaderOf(c).(bCount := |c.banks| + 1),
                            offsets := Raised(InsertAt(Offsets(c.banks), i, BankOffset(c.banks, i)), i + 1, BANK_HEADER_SIZE))
  {
    hide Offsets, BankOffset, Raised, Flat, Blobs;
  }

  lemma BankOfDisplaced(c: Codeplug, i: nat)
    requires WellFormed(c) && i < |c.banks| && |c.banks[i].entries| + 1 < 0x10000
    ensures TailAt(Displaced(c, i)) == TailAt(LayoutOf(c))
    ensures var p := TailAt(Displaced(c, i)) + BankOffset(c.banks, i);
            p + BANK_HEADER_SIZE <= |FileBytes(Displaced(c, i))|
            && DecodeBankHeader(FileBytes(Displaced(c, i))[p..p + BANK_HEADER_SIZE])
               == BankHeader(c.banks[i].name, |c.banks[i].entries|)
    ensures |RaisedHeader(c.banks[i])| == BANK_HEADER_SIZE
    ensures RaisedHeader(c.banks[i]) == EncodeBankHeader(BankHeader(c.banks[i].name, |c.banks[i].entries| + 1))
  {
    hide *;
    WellFormedMeans(c);
    EncodeMeans(c);
    DisplacedParts(c, i);
    DisplacedSized(c, i);
    BankHeaderOfTail(c.banks, i);
    TailOfFile(Displaced(c, i), BankOffset(c.banks, i), BANK_HEADER_SIZE);
    DisplacedTail(c, i);
    RaisedHeaderMeans(c.banks[i]);
  }

  lemma DisplacedTail(c: Codeplug, i: nat)
    ensures TailAt(Displaced(c, i)) == TailAt(LayoutOf(c))
  {
    hide LayoutOf, Offsets, Raised;
    EncodeMeans(c);
  }

  lemma RaisedHeaderMeans(b: Bank)
    requires BankFits(b) && |b.entries| + 1 < 0x10000
    ensures |RaisedHeader(b)| == BANK_HEADER_SIZE
    ensures RaisedHeader(b) == EncodeBankHeader(BankHeader(b.name, |b.entries| + 1))
  {
    BankHeaderReadBack(BankHeader(b.name, |b.entries| + 1));
  }

  lemma LayoutStart(c: Codeplug)
    requires WellFormed(c)
    ensures LayoutFits(LayoutOf(c)) && LayoutSized(LayoutOf(c)) && LayoutOf(c).header == HeaderOf(c)
    ensures LayoutOf(c).contacts == c.contacts && LayoutOf(c).channels == c.channels
    ensures ChannelsAt(LayoutOf(c)) == HEADER_SIZE + CONTACT_SIZE * |c.contacts|
    ensures OffsetsAt(LayoutOf(c)) == ChannelsAt(LayoutOf(c)) + CHANNEL_SIZE * |c.channels|
    ensures TailAt(LayoutOf(c)) == OffsetsAt(LayoutOf(c)) + WORD_SIZE * |c.banks|
  {
    LayoutIsFit(c);
    hide WellFormed, Offsets, Flat, Blobs;
  }

  lemma ChannelSized(c: Codeplug, pos: nat, r: seq<Byte>)
    requires WellFormed(c) && pos <= |c.channels| && |r| == CHANNEL_SIZE && |c.channels| + 1 < 0x10000
    ensures LayoutSized(LayoutOf(c).(channels := InsertAt(c.channels, pos, r)))
    ensures HeaderFits(HeaderOf(c).(chCount := |c.channels| + 1))
  {
    LayoutIsFit(c);
    hide WellFormed, Offsets, Flat, Blobs;
  }

  lemma ChannelLayout(c: Codeplug, pos: nat, r: seq<Byte>)
    requires pos <= |c.channels|
    ensures var c' := c.(channels := InsertAt(c.channels, pos, r));
            && LayoutOf(c') == LayoutOf(c).(channels := c'.channels, header := HeaderOf(c).(chCount := |c.channels| + 1))
            && WithChannel(c, pos, r) == c'.(banks := BumpBanks(c'.banks, pos, |c'.banks|))
  {
    hide Offsets, Flat, Blobs, BumpBanks;
  }

  lemma ChannelFits(c: Codeplug, pos: nat, r: seq<Byte>)
    requires WellFormed(c) && pos <= |c.channels| && |r| == CHANNEL_SIZE && |c.channels| + 1 < 0x10000
    requires |Encode(c.(channels := InsertAt(c.channels, pos, r)))| < 0x1_0000_0000
    ensures WellFormed(c.(channels := InsertAt(c.channels, pos, r)))
  {
    hide Encode, BankFits;
  }

  lemma HeaderSizeKept(l: Layout, h: Header)
    requires LayoutSized(l) && HeaderFits(h)
    ensures |FileBytes(l.(header := h))| == |FileBytes(l)|
  {
    HeaderReadBack(l.header);
    HeaderReadBack(h);
    hide EncodeHeader, Flat, Words;
  }

  /** A channel put into the file, with the header's count raised, before renumbering. */
  lemma ChannelPutIn(c: Codeplug, pos: nat, r: seq<Byte>)
    requires WellFormed(c) && pos <= |c.channels| && |r| == CHANNEL_SIZE
    requires |c.channels| + 1 < 0x10000 && |Encode(c)| + CHANNEL_SIZE < 0x1_0000_0000
    ensures var c' := c.(channels := InsertAt(c.channels, pos, r));
            && WellFormed(c')
            && Encode(c') == FileBytes(LayoutOf(c).(channels := c'.channels,
                                                    header := HeaderOf(c).(chCount := |c.channels| + 1)))
            && WithChannel(c, pos, r) == c'.(banks := BumpBanks(c'.banks, pos, |c'.banks|))
  {
    hide *;
    var c' := c.(channels := InsertAt(c.channels, pos, r));
    ChannelLayout(c, pos, r);
    EncodeMeans(c);
    EncodeMeans(c');
    LayoutStart(c);
    ChannelSized(c, pos, r);
    ChannelInserted(LayoutOf(c), pos, r);
    HeaderSizeKept(LayoutOf(c).(channels := c'.channels), HeaderOf(c).(chCount := |c.channels| + 1));
    ChannelFits(c, pos, r);
  }

  // ---------------------------------------------------------------- renumbering bank entries

  /** The codeplug when the banks before i and the first j entries of bank i have been renumbered. */
  function Numbering(c: Codeplug, pos: nat, i: nat, j: nat): Codeplug
    requires i <= |c.banks| && (i < |c.banks| ==> j <= |c.banks[i].entries|)
  {
    var n := |c.banks|;
    c.(banks := seq(n, k requires 0 <= k < n =>
         if k < i then BumpBank(c.banks[k], pos, n)
         else if k == i then Bank(c.banks[k].name, BumpEntries(c.banks[k].entries, pos, n, j))
         else c.banks[k]))
  }

  lemma NumberingBegins(c: Codeplug, pos: nat)
    ensures Numbering(c, pos, 0, 0) == c
  {
    var banks := Numbering(c, pos, 0, 0).banks;
    if |banks| > 0 {
      assert BumpEntries(c.banks[0].entries, pos, |c.banks|, 0) == c.banks[0].entries;
    }
    assert banks == c.banks;
  }

  lemma NumberingKeeps(c: Codeplug, pos: nat, i: nat, j: nat)
    requires i < |c.banks| && j <= |c.banks[i].entries|
    ensures var banks := Numbering(c, pos, i, j).banks;
            |banks| == |c.banks| && |banks[i].entries| == |c.banks[i].entries|
            && (j < |c.banks[i].entries| ==> banks[i].entries[j] == c.banks[i].entries[j])
  {
  }

  lemma NumberingStep(c: Codeplug, pos: nat, i: nat, j: nat)
    requires i < |c.banks| && j < |c.banks[i].entries|
    ensures var banks, v := Numbering(c, pos, i, j).banks, c.banks[i].entries[j];
            && |banks| == |c.banks| && |banks[i].entries| == |c.banks[i].entries|
            && Numbering(c, pos, i, j + 1)
               == if pos <= v < 0x8000_0000 && j <= |c.banks| then SetEntry(Numbering(c, pos, i, j), i, j, v + 1)
                  else Numbering(c, pos, i, j)
  {
    var banks, banks', v := Numbering(c, pos, i, j).banks, Numbering(c, pos, i, j + 1).banks, c.banks[i].entries[j];
    if pos <= v < 0x8000_0000 && j <= |c.banks| {
      assert banks'[i].entries == banks[i].entries[j := v + 1];
      assert banks' == banks[i := Bank(banks[i].name, banks[i].entries[j := v + 1])];
    } else {
      assert banks'[i].entries == banks[i].entries;
      assert banks' == banks;
    }
  }

  lemma NumberingTurns(c: Codeplug, pos: nat, i: nat)
    requires i < |c.banks|
    ensures Numbering(c, pos, i, |c.banks[i].entries|) == Numbering(c, pos, i + 1, 0)
  {
    var n := |c.banks|;
    if i + 1 < n {
      assert BumpEntries(c.banks[i + 1].entries, pos, n, 0) == c.banks[i + 1].entries;
    }
    assert Numbering(c, pos, i, |c.banks[i].entries|).banks == Numbering(c, pos, i + 1, 0).banks;
  }

  lemma NumberingEnds(c: Codeplug, pos: nat)
    ensures Numbering(c, pos, |c.banks|, 0) == c.(banks := BumpBanks(c.banks, pos, |c.banks|))
  {
    assert Numbering(c, pos, |c.banks|, 0).banks == BumpBanks(c.banks, pos, |c.banks|);
  }

  lemma EntryOfFile(c: Codeplug, i: nat, j: nat)
    requires WellFormed(c) && i < |c.banks| && j < |c.banks[i].entries|
    ensures var p := TailAt(LayoutOf(c)) + EntryAt(c.banks, i, j);
            p + WORD_SIZE <= |Encode(c)| && FromLittleEndian(Encode(c)[p..p + WORD_SIZE]) == c.banks[i].entries[j]
  {
    hide *;
    WellFormedMeans(c);
    EncodeMeans(c);
    EntryOfTail(c.banks, i, j);
    TailOfFile(LayoutOf(c), EntryAt(c.banks, i, j), WORD_SIZE);
  }

  /** The tail ends where the last bank does. */
  lemma LastBankEnds(banks: seq<Bank>)
    requires |banks| > 0 && BankFits(banks[|banks| - 1])
    ensures BankOffset(banks, |banks|)
            == BankOffset(banks, |banks| - 1) + BANK_HEADER_SIZE + WORD_SIZE * |banks[|banks| - 1].entries|
  {
    BankBytesLength(banks[|banks| - 1]);
    hide BankBytes;
    assert Blobs(banks)[..|banks|][..|banks| - 1] == Blobs(banks)[..|banks| - 1];
  }
}
