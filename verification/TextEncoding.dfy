/**
 The data bits of a QR symbol: mode, length and payload of a text, the terminator and the
 padding, together with a reader that gets the text back.
 */
module TextEncoding {
  import opened BitBuckets
  import opened Bytes

  datatype Option<+T> = None | Some(value: T)

  const MODE_NUMERIC: nat := 0
  const MODE_ALPHANUMERIC: nat := 1
  const MODE_BYTE: nat := 2

  // ---------------------------------------------------------------- character classes

  function GetAlphanumeric(c: Byte): int {
    if '0' as int <= c <= '9' as int then c - '0' as int
    else if 'A' as int <= c <= 'Z' as int then c - 'A' as int + 10
    else if c == ' ' as int then 36
    else if c == '$' as int then 37
    else if c == '%' as int then 38
    else if c == '*' as int then 39
    else if c == '+' as int then 40
    else if c == '-' as int then 41
    else if c == '.' as int then 42
    else if c == '/' as int then 43
    else if c == ':' as int then 44
    else -1
  }

  /** The character with an alphanumeric value, for the reader. */
  function AlphanumericChar(v: nat): Byte
    requires v < 45
  {
    if v < 10 then '0' as int + v
    else if v < 36 then 'A' as int + v - 10
    else if v == 36 then ' ' as int
    else if v == 37 then '$' as int
    else if v == 38 then '%' as int
    else if v == 39 then '*' as int
    else if v == 40 then '+' as int
    else if v == 41 then '-' as int
    else if v == 42 then '.' as int
    else if v == 43 then '/' as int
    else ':' as int
  }

  predicate IsDigit(c: Byte) {
    '0' as int <= c <= '9' as int
  }

  predicate AllDigits(text: seq<Byte>) {
    forall i | 0 <= i < |text| :: IsDigit(text[i])
  }

  predicate AllAlphanumeric(text: seq<Byte>) {
    forall i | 0 <= i < |text| :: GetAlphanumeric(text[i]) != -1
  }

  /** The value and the character of the alphanumeric set determine each other. */
  lemma AlphanumericReadBack(c: Byte)
    requires GetAlphanumeric(c) != -1
    ensures 0 <= GetAlphanumeric(c) < 45 && AlphanumericChar(GetAlphanumeric(c)) == c
  {
  }

  lemma AlphanumericValue(v: nat)
    requires v < 45
    ensures GetAlphanumeric(AlphanumericChar(v)) == v
  {
  }

  /** The characters that have a value are digits, capital letters, and nine others. */
  lemma AlphanumericExactlyIf(c: Byte)
    ensures GetAlphanumeric(c) != -1 <==> exists v: nat | v < 45 :: AlphanumericChar(v) == c
    ensures GetAlphanumeric(c) != -1
            <==> 48 <= c <= 57 || 65 <= c <= 90 || c as int in {0x20, 0x24, 0x25, 0x2A, 0x2B, 0x2D, 0x2E, 0x2F, 0x3A}
  {
    if GetAlphanumeric(c) != -1 {
      AlphanumericReadBack(c);
    }
    forall v: nat | v < 45 && AlphanumericChar(v) == c
      ensures GetAlphanumeric(c) != -1
    {
      AlphanumericValue(v);
    }
  }

  /** Digits go in numeric mode, other texts of those characters in alphanumeric mode, all others byte by byte. */
  lemma ModeIs(text: seq<Byte>)
    ensures ModeOf(text) == 0 <==> forall i | 0 <= i < |text| :: 48 <= text[i] <= 57
    ensures ModeOf(text) == 2 <==> exists i | 0 <= i < |text| :: GetAlphanumeric(text[i]) == -1
  {
    if AllDigits(text) {
      forall i | 0 <= i < |text|
        ensures GetAlphanumeric(text[i]) != -1
      {
        assert IsDigit(text[i]);
      }
    }
  }

  method IsAlphanumeric(text: seq<Byte>) returns (r: bool)
    ensures r <==> AllAlphanumeric(text)
  {
    var length := |text|;
    while length != 0
      invariant 0 <= length <= |text|
      invariant forall i | length <= i < |text| :: GetAlphanumeric(text[i]) != -1
    {
      length := length - 1;
      if GetAlphanumeric(text[length]) == -1 {
        return false;
      }
    }
    return true;
  }

  method IsNumeric(text: seq<Byte>) returns (r: bool)
    ensures r <==> AllDigits(text)
  {
    var length := |text|;
    while length != 0
      invariant 0 <= length <= |text|
      invariant forall i | length <= i < |text| :: IsDigit(text[i])
    {
      length := length - 1;
      var c := text[length];
      if c < '0' as int || c > '9' as int {
        return false;
      }
    }
    return true;
  }

  // ---------------------------------------------------------------- the length field

  /** The width of the length field, unpacked from three bits per mode. */
  function GetModeBits(version: nat, mode: nat): nat
    requires mode < 3
  {
    var all := 0x7bbb80a;
    var from10 := if version > 9 then all / 512 else all;
    var from27 := if version > 26 then from10 / 512 else from10;
    var width := 8 + (if mode == 0 then from27 else if mode == 1 then from27 / 8 else from27 / 64) % 8;
    if width == 15 then 16 else width
  }

  /** Table 3 of ISO/IEC 18004:2015, the widths of the length fields. */
  lemma ModeBitsAreStandard(version: nat)
    ensures version <= 9 ==>
              GetModeBits(version, 0) == 10 && GetModeBits(version, 1) == 9 && GetModeBits(version, 2) == 8
    ensures 9 < version <= 26 ==>
              GetModeBits(version, 0) == 12 && GetModeBits(version, 1) == 11 && GetModeBits(version, 2) == 16
    ensures 26 < version ==>
              GetModeBits(version, 0) == 14 && GetModeBits(version, 1) == 13 && GetModeBits(version, 2) == 16
  {
    assert 0x7bbb80a / 512 == 0x3dddc && 0x3dddc / 512 == 0x1ee;
    if version <= 9 {
    } else if version <= 26 {
    } else {
    }
  }

  // ---------------------------------------------------------------- payloads

  function Digit(c: Byte): nat
    requires IsDigit(c)
  {
    c - '0' as int
  }

  function DigitsValue(text: seq<Byte>): nat
    requires AllDigits(text)
  {
    if |text| == 0 then 0 else 10 * DigitsValue(text[..|text| - 1]) + Digit(text[|text| - 1])
  }

  function NumericBits(text: seq<Byte>): seq<bool>
    requires AllDigits(text)
  {
    if |text| == 0 then []
    else if |text| < 3 then ValueBits(DigitsValue(text), 3 * |text| + 1)
    else ValueBits(DigitsValue(text[..3]), 10) + NumericBits(text[3..])
  }

  function Alpha45(c: Byte): nat
    requires GetAlphanumeric(c) != -1
  {
    GetAlphanumeric(c)
  }

  function AlphanumericBits(text: seq<Byte>): seq<bool>
    requires AllAlphanumeric(text)
  {
    if |text| == 0 then []
    else if |text| == 1 then ValueBits(Alpha45(text[0]), 6)
    else ValueBits(45 * Alpha45(text[0]) + Alpha45(text[1]), 11) + AlphanumericBits(text[2..])
  }

  function ByteBits(text: seq<Byte>): seq<bool> {
    if |text| == 0 then [] else ValueBits(text[0], 8) + ByteBits(text[1..])
  }

  function ModeOf(text: seq<Byte>): (mode: nat)
    ensures mode < 3
  {
    if AllDigits(text) then MODE_NUMERIC
    else if AllAlphanumeric(text) then MODE_ALPHANUMERIC
    else MODE_BYTE
  }

  function ModeIndicator(mode: nat): nat
    requires mode < 3
  {
    if mode == 0 then 1 else if mode == 1 then 2 else 4
  }

  function Header(text: seq<Byte>, version: nat): seq<bool> {
    ValueBits(ModeIndicator(ModeOf(text)), 4) + ValueBits(|text|, GetModeBits(version, ModeOf(text)))
  }

  function Payload(text: seq<Byte>): seq<bool> {
    if AllDigits(text) then NumericBits(text)
    else if AllAlphanumeric(text) then AlphanumericBits(text)
    else ByteBits(text)
  }

  /** The bits of a text before the terminator. */
  function TextBits(text: seq<Byte>, version: nat): seq<bool> {
    Header(text, version) + Payload(text)
  }

  // ---------------------------------------------------------------- the reader

  /** n decimal digits of v. */
  function DigitChars(v: nat, n: nat): seq<Byte> {
    if n == 0 then [] else DigitChars(v / 10, n - 1) + [('0' as int + v % 10) as Byte]
  }

  function ReadNumeric(bits: seq<bool>, count: nat): Option<seq<Byte>> {
    if count == 0 then Some([])
    else
      var digits := if count < 3 then count else 3;
      var width := 3 * digits + 1;
      if |bits| < width then None
      else
        match ReadNumeric(bits[width..], count - digits)
        case None => None
        case Some(rest) => Some(DigitChars(BitsValue(bits[..width]), digits) + rest)
  }

  function ReadAlphanumeric(bits: seq<bool>, count: nat): Option<seq<Byte>> {
    if count == 0 then Some([])
    else if count == 1 then
      if |bits| < 6 || BitsValue(bits[..6]) >= 45 then None
      else Some([AlphanumericChar(BitsValue(bits[..6]))])
    else if |bits| < 11 || BitsValue(bits[..11]) >= 2025 then None
    else
      var v := BitsValue(bits[..11]);
      match ReadAlphanumeric(bits[11..], count - 2)
      case None => None
      case Some(rest) => Some([AlphanumericChar(v / 45), AlphanumericChar(v % 45)] + rest)
  }

  function ReadBytes(bits: seq<bool>, count: nat): Option<seq<Byte>> {
    if count == 0 then Some([])
    else if |bits| < 8 || BitsValue(bits[..8]) >= 256 then None
    else
      match ReadBytes(bits[8..], count - 1)
      case None => None
      case Some(rest) => Some([BitsValue(bits[..8]) as Byte] + rest)
  }

  /** A reader of one segment: mode indicator, length, payload; what follows is ignored. */
  function ReadText(bits: seq<bool>, version: nat): Option<seq<Byte>> {
    if |bits| < 4 then None
    else
      var indicator := BitsValue(bits[..4]);
      if indicator != 1 && indicator != 2 && indicator != 4 then None
      else
        var mode := if indicator == 1 then 0 else if indicator == 2 then 1 else 2;
        var width := GetModeBits(version, mode);
        if |bits| < 4 + width then None
        else
          var count, rest := BitsValue(bits[4..4 + width]), bits[4 + width..];
          if mode == 0 then ReadNumeric(rest, count)
          else if mode == 1 then ReadAlphanumeric(rest, count)
          else ReadBytes(rest, count)
  }

  // ---------------------------------------------------------------- reading undoes writing

  lemma {:induction false} DigitsReadBack(text: seq<Byte>)
    requires AllDigits(text)
    ensures DigitChars(DigitsValue(text), |text|) == text
  {
    if |text| > 0 {
      var n := |text| - 1;
      DigitsReadBack(text[..n]);
      assert text == text[..n] + [text[n]];
      LastDigit(DigitsValue(text[..n]), Digit(text[n]));
    }
  }

  lemma LastDigit(a: nat, d: nat)
    requires d < 10
    ensures (10 * a + d) / 10 == a && (10 * a + d) % 10 == d
  {
  }

  lemma DigitsRange(text: seq<Byte>)
    requires AllDigits(text) && |text| <= 3
    ensures |text| == 1 ==> DigitsValue(text) < 10
    ensures |text| == 2 ==> DigitsValue(text) < 100
    ensures |text| == 3 ==> DigitsValue(text) < 1000
  {
    if |text| == 3 {
      DigitsRange(text[..2]);
    } else if |text| == 2 {
      DigitsRange(text[..1]);
    }
  }

  lemma SmallPowers()
    ensures Pow2(4) == 16 && Pow2(6) == 64 && Pow2(7) == 128 && Pow2(8) == 256
    ensures Pow2(10) == 1024 && Pow2(11) == 2048
  {
    assert Pow2(1) == 2;
    assert Pow2(3) == 8;
    assert Pow2(5) == 32;
    assert Pow2(7) == 128;
    assert Pow2(9) == 512;
  }

  lemma {:induction false} NumericReadBack(text: seq<Byte>, tail: seq<bool>)
    requires AllDigits(text)
    ensures ReadNumeric(NumericBits(text) + tail, |text|) == Some(text)
  {
    hide DigitsValue, DigitChars, ValueBits, BitsValue;
    if |text| > 0 {
      var digits := if |text| < 3 then |text| else 3;
      var width := 3 * digits + 1;
      var group, rest := text[..digits], text[digits..];
      var bits := NumericBits(text) + tail;
      if |text| < 3 {
        assert group == text && rest == [];
      }
      assert bits == ValueBits(DigitsValue(group), width) + (NumericBits(rest) + tail);
      assert bits[..width] == ValueBits(DigitsValue(group), width);
      assert bits[width..] == NumericBits(rest) + tail;
      NumericReadBack(rest, tail);
      DigitsReadBack(group);
      DigitsRange(group);
      SmallPowers();
      ValueBitsReadBack(DigitsValue(group), width);
      assert text == group + rest;
    }
  }

  lemma {:induction false} AlphanumericTextReadBack(text: seq<Byte>, tail: seq<bool>)
    requires AllAlphanumeric(text)
    ensures ReadAlphanumeric(AlphanumericBits(text) + tail, |text|) == Some(text)
  {
    hide ValueBits, BitsValue, GetAlphanumeric, AlphanumericChar;
    SmallPowers();
    if |text| == 1 {
      AlphanumericReadBack(text[0]);
      ValueBitsReadBack(Alpha45(text[0]), 6);
      assert (AlphanumericBits(text) + tail)[..6] == ValueBits(Alpha45(text[0]), 6);
      assert text == [text[0]];
    } else if |text| > 1 {
      AlphanumericReadBack(text[0]);
      AlphanumericReadBack(text[1]);
      var a, b := Alpha45(text[0]), Alpha45(text[1]);
      var v := 45 * a + b;
      ValueBitsReadBack(v, 11);
      var bits := AlphanumericBits(text) + tail;
      assert bits == ValueBits(v, 11) + (AlphanumericBits(text[2..]) + tail);
      assert bits[..11] == ValueBits(v, 11);
      assert bits[11..] == AlphanumericBits(text[2..]) + tail;
      AlphanumericTextReadBack(text[2..], tail);
      assert v / 45 == a && v % 45 == b;
      assert text == [text[0], text[1]] + text[2..];
    }
  }

  lemma {:induction false} BytesReadBack(text: seq<Byte>, tail: seq<bool>)
    ensures ReadBytes(ByteBits(text) + tail, |text|) == Some(text)
  {
    hide ValueBits, BitsValue;
    if |text| > 0 {
      SmallPowers();
      ValueBitsReadBack(text[0], 8);
      var bits := ByteBits(text) + tail;
      assert bits == ValueBits(text[0], 8) + (ByteBits(text[1..]) + tail);
      assert bits[..8] == ValueBits(text[0], 8);
      assert bits[8..] == ByteBits(text[1..]) + tail;
      BytesReadBack(text[1..], tail);
      assert text == [text[0]] + text[1..];
    }
  }

  /** Any text whose length fits its length field is read back, whatever follows it. */
  lemma TextReadBack(text: seq<Byte>, version: nat, tail: seq<bool>)
    requires |text| < Pow2(GetModeBits(version, ModeOf(text)))
    ensures ReadText(TextBits(text, version) + tail, version) == Some(text)
  {
    hide ValueBits, BitsValue, GetModeBits, ReadNumeric, ReadAlphanumeric, ReadBytes, AllDigits, AllAlphanumeric;
    var mode := ModeOf(text);
    var width := GetModeBits(version, mode);
    var bits := TextBits(text, version) + tail;
    var m, n := ValueBits(ModeIndicator(mode), 4), ValueBits(|text|, width);
    assert bits == m + n + (Payload(text) + tail);
    assert bits[..4] == m && bits[4..4 + width] == n && bits[4 + width..] == Payload(text) + tail;
    SmallPowers();
    ValueBitsReadBack(ModeIndicator(mode), 4);
    ValueBitsReadBack(|text|, width);
    if AllDigits(text) {
      NumericReadBack(text, tail);
    } else if AllAlphanumeric(text) {
      AlphanumericTextReadBack(text, tail);
    } else {
      BytesReadBack(text, tail);
    }
  }

  // ---------------------------------------------------------------- the firmware's encoder

  lemma {:induction false} NumericBitsAppend(p: seq<Byte>, q: seq<Byte>)
    requires AllDigits(p) && AllDigits(q) && |p| % 3 == 0
    ensures AllDigits(p + q) && NumericBits(p + q) == NumericBits(p) + NumericBits(q)
  {
    hide DigitsValue, ValueBits;
    if |p| == 0 {
      assert p + q == q;
    } else {
      NumericBitsAppend(p[3..], q);
      assert (p + q)[..3] == p[..3] && (p + q)[3..] == p[3..] + q;
    }
  }

  lemma {:induction false} AlphanumericBitsAppend(p: seq<Byte>, q: seq<Byte>)
    requires AllAlphanumeric(p) && AllAlphanumeric(q) && |p| % 2 == 0
    ensures AllAlphanumeric(p + q) && AlphanumericBits(p + q) == AlphanumericBits(p) + AlphanumericBits(q)
  {
    hide GetAlphanumeric, ValueBits;
    if |p| == 0 {
      assert p + q == q;
    } else {
      AlphanumericBitsAppend(p[2..], q);
      assert (p + q)[2..] == p[2..] + q;
    }
  }

  lemma SumsAssociate(a: seq<bool>, b: seq<bool>, c: seq<bool>)
    ensures a + (b + c) == (a + b) + c
  {
  }

  lemma {:induction false} ByteBitsAppend(p: seq<Byte>, q: seq<Byte>)
    ensures ByteBits(p + q) == ByteBits(p) + ByteBits(q)
  {
    hide ValueBits;
    if |p| == 0 {
      assert p + q == q;
    } else {
      ByteBitsAppend(p[1..], q);
      assert (p + q)[1..] == p[1..] + q && (p + q)[0] == p[0];
      SumsAssociate(ValueBits(p[0], 8), ByteBits(p[1..]), ByteBits(q));
    }
  }

  /** The bits of the first i digits, and the value of the n digits from i on. */
  function NumericPrefix(text: seq<Byte>, i: nat): seq<bool>
    requires AllDigits(text) && i <= |text|
  {
    NumericBits(text[..i])
  }

  function GroupValue(text: seq<Byte>, i: nat, n: nat): nat
    requires AllDigits(text) && i + n <= |text|
  {
    DigitsValue(text[i..i + n])
  }

  /** The digits of text in groups of three; the last group may have one or two. */
  method EncodeDigits(dataCodewords: BitBucket, text: seq<Byte>)
    requires AllDigits(text) && dataCodewords.IsStream()
    requires dataCodewords.bitOffsetOrWidth + |NumericBits(text)| <= 8 * dataCodewords.data.Length
    modifies dataCodewords`bitOffsetOrWidth, dataCodewords.data
    ensures dataCodewords.IsStream()
    ensures dataCodewords.Bits() == old(dataCodewords.Bits()) + NumericBits(text)
  {
    hide ValueBits, AllBits, BitBucket.IsStream, NumericBits, NumericPrefix, GroupValue, DigitsValue;
    ghost var was := dataCodewords.Bits();
    var accumData, accumCount := 0, 0;
    DigitsBegin(text);
    for i := 0 to |text|
      invariant 0 <= accumCount < 3 && accumCount <= i && (i - accumCount) % 3 == 0
      invariant accumData == GroupValue(text, i - accumCount, accumCount)
      invariant dataCodewords.IsStream()
      invariant dataCodewords.Bits() == was + NumericPrefix(text, i - accumCount)
    {
      GroupValueSteps(text, i - accumCount, accumCount);
      accumData := accumData * 10 + (text[i] - '0' as int);
      accumCount := accumCount + 1;
      if accumCount == 3 {
        NumericGroup(text, i - 2, 3);
        BitsLength(dataCodewords);
        dataCodewords.AppendBits(accumData, 10);
        accumData, accumCount := 0, 0;
      }
    }
    if accumCount > 0 {
      NumericGroup(text, |text| - accumCount, accumCount);
      BitsLength(dataCodewords);
      dataCodewords.AppendBits(accumData, accumCount * 3 + 1);
    }
  }

  lemma DigitsBegin(text: seq<Byte>)
    requires AllDigits(text)
    ensures NumericPrefix(text, 0) == [] && NumericPrefix(text, |text|) == NumericBits(text)
    ensures forall i | 0 <= i <= |text| :: GroupValue(text, i, 0) == 0
  {
    assert text[..|text|] == text;
  }

  lemma BitsLength(b: BitBucket)
    requires b.IsStream()
    ensures |b.Bits()| == b.bitOffsetOrWidth
  {
  }

  lemma GroupValueSteps(text: seq<Byte>, i: nat, n: nat)
    requires AllDigits(text) && i + n < |text|
    ensures GroupValue(text, i, n + 1) == 10 * GroupValue(text, i, n) + (text[i + n] - '0' as int)
  {
    assert text[i..i + n + 1][..n] == text[i..i + n];
  }

  /** A group of n digits at position i extends the bits of the digits before it. */
  lemma NumericGroup(text: seq<Byte>, i: nat, n: nat)
    requires AllDigits(text) && i % 3 == 0 && 0 < n && i + n <= |text|
    requires n == 3 || (n < 3 && i + n == |text|)
    ensures NumericPrefix(text, i + n) == NumericPrefix(text, i) + ValueBits(GroupValue(text, i, n), 3 * n + 1)
    ensures |NumericPrefix(text, i + n)| <= |NumericBits(text)|
  {
    hide ValueBits, DigitsValue;
    var group := text[i..i + n];
    NumericBitsAppend(text[..i], group);
    assert text[..i] + group == text[..i + n];
    if n == 3 {
      assert group[..3] == group && group[3..] == [];
      NumericBitsAppend(text[..i + n], text[i + n..]);
      assert text[..i + n] + text[i + n..] == text;
    } else {
      assert text[..i + n] == text;
    }
  }

  method EncodeAlphanumerics(dataCodewords: BitBucket, text: seq<Byte>)
    requires AllAlphanumeric(text) && dataCodewords.IsStream()
    requires dataCodewords.bitOffsetOrWidth + |AlphanumericBits(text)| <= 8 * dataCodewords.data.Length
    modifies dataCodewords`bitOffsetOrWidth, dataCodewords.data
    ensures dataCodewords.IsStream()
    ensures dataCodewords.Bits() == old(dataCodewords.Bits()) + AlphanumericBits(text)
  {
    hide ValueBits, AllBits, BitBucket.IsStream, GetAlphanumeric, AlphanumericBits;
    ghost var was := dataCodewords.Bits();
    NoCharacters(text[..0]);
    var accumData, accumCount := 0, 0;
    for i := 0 to |text|
      invariant 0 <= accumCount < 2 && accumCount <= i && (i - accumCount) % 2 == 0
      invariant accumData == if accumCount == 0 then 0 else Alpha45(text[i - 1])
      invariant dataCodewords.IsStream()
      invariant dataCodewords.Bits() == was + AlphanumericBits(text[..i - accumCount])
    {
      AlphanumericReadBack(text[i]);
      accumData := accumData * 45 + GetAlphanumeric(text[i]);
      accumCount := accumCount + 1;
      if accumCount == 2 {
        AlphanumericGroup(text, i - 1, 2);
        BitsLength(dataCodewords);
        dataCodewords.AppendBits(accumData, 11);
        accumData, accumCount := 0, 0;
      }
    }
    if accumCount > 0 {
      AlphanumericGroup(text, |text| - 1, 1);
      BitsLength(dataCodewords);
      dataCodewords.AppendBits(accumData, 6);
    }
    assert text[..|text|] == text;
  }

  lemma NoCharacters(text: seq<Byte>)
    requires text == []
    ensures AlphanumericBits(text) == []
  {
  }

  lemma AlphanumericGroup(text: seq<Byte>, i: nat, n: nat)
    requires AllAlphanumeric(text) && i % 2 == 0 && i + n <= |text|
    requires n == 2 || (n == 1 && i + n == |text|)
    ensures AlphanumericBits(text[..i + n]) == AlphanumericBits(text[..i]) +
              (if n == 2 then ValueBits(45 * Alpha45(text[i]) + Alpha45(text[i + 1]), 11)
               else ValueBits(Alpha45(text[i]), 6))
    ensures |AlphanumericBits(text[..i + n])| <= |AlphanumericBits(text)|
  {
    hide ValueBits, GetAlphanumeric;
    var group := text[i..i + n];
    AlphanumericBitsAppend(text[..i], group);
    assert text[..i] + group == text[..i + n];
    if n == 2 {
      assert group[2..] == [];
      AlphanumericBitsAppend(text[..i + n], text[i + n..]);
      assert text[..i + n] + text[i + n..] == text;
    } else {
      assert text[..i + n] == text;
    }
  }

  method EncodeBytes(dataCodewords: BitBucket, text: seq<Byte>)
    requires dataCodewords.IsStream()
    requires dataCodewords.bitOffsetOrWidth + |ByteBits(text)| <= 8 * dataCodewords.data.Length
    modifies dataCodewords`bitOffsetOrWidth, dataCodewords.data
    ensures dataCodewords.IsStream()
    ensures dataCodewords.Bits() == old(dataCodewords.Bits()) + ByteBits(text)
  {
    hide ValueBits, AllBits, BitBucket.IsStream;
    ghost var was := dataCodewords.Bits();
    for i := 0 to |text|
      invariant dataCodewords.IsStream()
      invariant dataCodewords.Bits() == was + ByteBits(text[..i])
    {
      ByteGroup(text, i);
      BitsLength(dataCodewords);
      dataCodewords.AppendBits(text[i], 8);
    }
    assert text[..|text|] == text;
  }

  lemma ByteGroup(text: seq<Byte>, i: nat)
    requires i < |text|
    ensures ByteBits(text[..i + 1]) == ByteBits(text[..i]) + ValueBits(text[i], 8)
    ensures |ByteBits(text[..i + 1])| <= |ByteBits(text)|
  {
    hide ValueBits;
    ByteBitsAppend(text[..i], [text[i]]);
    assert text[..i] + [text[i]] == text[..i + 1];
    assert ByteBits([text[i]]) == ValueBits(text[i], 8) + ByteBits([]);
    ByteBitsAppend(text[..i + 1], text[i + 1..]);
    assert text[..i + 1] + text[i + 1..] == text;
  }

  /** The three parts of the bits in the order in which they are appended, in each of the modes. */
  lemma PartsOfText(text: seq<Byte>, version: nat)
    ensures AllDigits(text) ==>
              TextBits(text, version) == ValueBits(1, 4) + ValueBits(|text|, GetModeBits(version, MODE_NUMERIC)) + NumericBits(text)
    ensures !AllDigits(text) && AllAlphanumeric(text) ==>
              TextBits(text, version) == ValueBits(2, 4) + ValueBits(|text|, GetModeBits(version, MODE_ALPHANUMERIC)) + AlphanumericBits(text)
    ensures !AllDigits(text) && !AllAlphanumeric(text) ==>
              TextBits(text, version) == ValueBits(4, 4) + ValueBits(|text|, GetModeBits(version, MODE_BYTE)) + ByteBits(text)
  {
    hide ValueBits, GetModeBits, AllDigits, AllAlphanumeric, NumericBits, AlphanumericBits, ByteBits;
  }

  /** Mode indicator, length field and payload of a text that fits the buffer. */
  method EncodeDataCodewords(dataCodewords: BitBucket, text: seq<Byte>, version: nat) returns (mode: nat)
    requires dataCodewords.IsStream()
    requires dataCodewords.bitOffsetOrWidth + |TextBits(text, version)| <= 8 * dataCodewords.data.Length
    modifies dataCodewords`bitOffsetOrWidth, dataCodewords.data
    ensures mode == ModeOf(text)
    ensures dataCodewords.IsStream()
    ensures dataCodewords.Bits() == old(dataCodewords.Bits()) + TextBits(text, version)
  {
    hide ValueBits, AllBits, BitBucket.IsStream, GetModeBits, AllDigits, AllAlphanumeric,
      NumericBits, AlphanumericBits, ByteBits, TextBits;
    PartsOfText(text, version);
    mode := MODE_BYTE;
    var numeric := IsNumeric(text);
    if numeric {
      mode := MODE_NUMERIC;
      dataCodewords.AppendBits(1, 4);
      dataCodewords.AppendBits(|text|, GetModeBits(version, MODE_NUMERIC));
      EncodeDigits(dataCodewords, text);
    } else {
      var alphanumeric := IsAlphanumeric(text);
      if alphanumeric {
        mode := MODE_ALPHANUMERIC;
        dataCodewords.AppendBits(2, 4);
        dataCodewords.AppendBits(|text|, GetModeBits(version, MODE_ALPHANUMERIC));
        EncodeAlphanumerics(dataCodewords, text);
      } else {
        dataCodewords.AppendBits(4, 4);
        dataCodewords.AppendBits(|text|, GetModeBits(version, MODE_BYTE));
        EncodeBytes(dataCodewords, text);
      }
    }
  }

  // ---------------------------------------------------------------- terminator and padding

  /** n pad bytes, alternating 0xEC and 0x11. */
  function PadBytes(n: nat): seq<bool> {
    if n == 0 then [] else PadBytes(n - 1) + ValueBits(if n % 2 == 1 then 0xEC else 0x11, 8)
  }

  lemma {:induction false} PadBytesLength(n: nat)
    ensures |PadBytes(n)| == 8 * n
  {
    hide ValueBits;
    if n > 0 {
      PadBytesLength(n - 1);
    }
  }

  /** Up to four zero bits, zero bits to the next byte boundary, then pad bytes. */
  function Padding(used: nat, dataCapacity: nat): seq<bool>
    requires used <= 8 * dataCapacity
  {
    var terminator := if 8 * dataCapacity - used > 4 then 4 else 8 * dataCapacity - used;
    var align := (8 - (used + terminator) % 8) % 8;
    ValueBits(0, terminator) + ValueBits(0, align) + PadBytes(dataCapacity - (used + terminator + align) / 8)
  }

  lemma PaddingFills(used: nat, dataCapacity: nat)
    requires used <= 8 * dataCapacity
    ensures used + |Padding(used, dataCapacity)| == 8 * dataCapacity
  {
    hide ValueBits;
    var terminator := if 8 * dataCapacity - used > 4 then 4 else 8 * dataCapacity - used;
    var align := (8 - (used + terminator) % 8) % 8;
    PadBytesLength(dataCapacity - (used + terminator + align) / 8);
  }

  /** The pad bytes are 11101100 and 00010001 in turn (section 7.4.10 of the standard). */
  lemma {:induction false} PadsAlternate(n: nat, k: nat)
    requires k < n
    ensures |PadBytes(n)| == 8 * n
    ensures PadBytes(n)[8 * k..8 * k + 8] == if k % 2 == 0 then [true, true, true, false, true, true, false, false]
                                             else [false, false, false, true, false, false, false, true]
  {
    hide ValueBits;
    PadsAre();
    PadBytesLength(n);
    PadBytesLength(n - 1);
    if k < n - 1 {
      PadsAlternate(n - 1, k);
      assert PadBytes(n)[8 * k..8 * k + 8] == PadBytes(n - 1)[8 * k..8 * k + 8];
    }
  }

  lemma BitsStep(v: nat, n: nat)
    requires n > 0
    ensures ValueBits(v, n) == ValueBits(v / 2, n - 1) + [v % 2 == 1]
  {
  }

  lemma PadsAre()
    ensures ValueBits(0xEC, 8) == [true, true, true, false, true, true, false, false]
    ensures ValueBits(0x11, 8) == [false, false, false, true, false, false, false, true]
  {
    hide ValueBits;
    BitsStep(236, 8);
    BitsStep(118, 7);
    BitsStep(59, 6);
    BitsStep(29, 5);
    BitsStep(14, 4);
    BitsStep(7, 3);
    BitsStep(3, 2);
    BitsStep(1, 1);
    BitsStep(17, 8);
    BitsStep(8, 7);
    BitsStep(4, 6);
    BitsStep(2, 5);
    BitsStep(1, 4);
    BitsStep(0, 3);
    BitsStep(0, 2);
    BitsStep(0, 1);
  }

  lemma {:induction false} ZeroBits(n: nat)
    ensures forall i | 0 <= i < n :: !ValueBits(0, n)[i]
  {
    if n > 0 {
      ZeroBits(n - 1);
    }
  }

  /** Before them, up to four zero bits and then zero bits to the next byte boundary. */
  lemma PaddingBegins(used: nat, dataCapacity: nat)
    requires used <= 8 * dataCapacity
    ensures var left, p := 8 * dataCapacity - used, Padding(used, dataCapacity);
            exists z: nat | (if left < 4 then left else 4) <= z < 12 && z <= left && (used + z) % 8 == 0 ::
              |p| == left && (forall i | 0 <= i < z :: !p[i]) && p[z..] == PadBytes((left - z) / 8)
  {
    hide ValueBits, PadBytes;
    var left := 8 * dataCapacity - used;
    var terminator := if left > 4 then 4 else left;
    var align := (8 - (used + terminator) % 8) % 8;
    ZeroBits(terminator);
    ZeroBits(align);
    PaddingFills(used, dataCapacity);
    ToByte(used, terminator, align, dataCapacity);
    var p, z := Padding(used, dataCapacity), terminator + align;
    ThreeParts(ValueBits(0, terminator), ValueBits(0, align), PadBytes((left - z) / 8));
  }

  lemma ThreeParts(a: seq<bool>, b: seq<bool>, c: seq<bool>)
    requires forall i | 0 <= i < |a| :: !a[i]
    requires forall i | 0 <= i < |b| :: !b[i]
    ensures var p, z := a + b + c, |a| + |b|; p[z..] == c && forall i | 0 <= i < z :: !p[i]
  {
  }

  lemma ToByte(used: nat, terminator: nat, align: nat, dataCapacity: nat)
    requires used + terminator <= 8 * dataCapacity && align == (8 - (used + terminator) % 8) % 8
    ensures (used + terminator + align) % 8 == 0 && align < 8 && used + terminator + align <= 8 * dataCapacity
    ensures (8 * dataCapacity - used - (terminator + align)) / 8 == dataCapacity - (used + terminator + align) / 8
  {
    var n := used + terminator;
    assert n == 8 * (n / 8) + n % 8;
  }

  /** The loop that fills up with pad bytes from a byte boundary. */
  method AppendPadBytes(codewords: BitBucket, dataCapacity: nat)
    requires codewords.IsStream() && codewords.bitOffsetOrWidth % 8 == 0
    requires codewords.bitOffsetOrWidth <= 8 * dataCapacity <= 8 * codewords.data.Length
    modifies codewords`bitOffsetOrWidth, codewords.data
    ensures codewords.IsStream() && codewords.bitOffsetOrWidth == 8 * dataCapacity
    ensures codewords.Bits() == old(codewords.Bits()) + PadBytes(dataCapacity - old(codewords.bitOffsetOrWidth) / 8)
  {
    hide ValueBits, AllBits, BitBucket.IsStream;
    ghost var was, first := codewords.Bits(), codewords.bitOffsetOrWidth / 8;
    ghost var n := 0;
    var padByte := 0xEC;
    while codewords.bitOffsetOrWidth < dataCapacity * 8
      invariant codewords.IsStream()
      invariant codewords.bitOffsetOrWidth == 8 * (first + n) <= 8 * dataCapacity
      invariant padByte == if n % 2 == 0 then 0xEC else 0x11
      invariant codewords.Bits() == was + PadBytes(n)
      decreases dataCapacity * 8 - codewords.bitOffsetOrWidth
    {
      codewords.AppendBits(padByte, 8);
      padByte := if padByte == 0xEC then 0x11 else 0xEC;
      n := n + 1;
    }
  }

  method PadCodewords(codewords: BitBucket, dataCapacity: nat)
    requires codewords.IsStream()
    requires codewords.bitOffsetOrWidth <= 8 * dataCapacity <= 8 * codewords.data.Length
    modifies codewords`bitOffsetOrWidth, codewords.data
    ensures codewords.IsStream() && codewords.bitOffsetOrWidth == 8 * dataCapacity
    ensures codewords.Bits() == old(codewords.Bits()) + Padding(old(codewords.bitOffsetOrWidth), dataCapacity)
  {
    hide ValueBits, AllBits, BitBucket.IsStream, PadBytes, Padding;
    ghost var used, was := codewords.bitOffsetOrWidth, codewords.Bits();
    var padding := dataCapacity * 8 - codewords.bitOffsetOrWidth;
    if padding > 4 {
      padding := 4;
    }
    codewords.AppendBits(0, padding);
    var align := (8 - codewords.bitOffsetOrWidth % 8) % 8;
    PaddingParts(used, dataCapacity, padding, align, was);
    codewords.AppendBits(0, align);
    AppendPadBytes(codewords, dataCapacity);
  }

  lemma PaddingSizes(used: nat, dataCapacity: nat, terminator: nat, align: nat)
    requires used <= 8 * dataCapacity
    requires terminator == if 8 * dataCapacity - used > 4 then 4 else 8 * dataCapacity - used
    requires align == (8 - (used + terminator) % 8) % 8
    ensures (used + terminator + align) % 8 == 0 && used + terminator + align <= 8 * dataCapacity && align < 8
  {
  }

  lemma PaddingParts(used: nat, dataCapacity: nat, terminator: nat, align: nat, was: seq<bool>)
    requires used <= 8 * dataCapacity
    requires terminator == if 8 * dataCapacity - used > 4 then 4 else 8 * dataCapacity - used
    requires align == (8 - (used + terminator) % 8) % 8
    ensures (used + terminator + align) % 8 == 0 && used + terminator + align <= 8 * dataCapacity && align < 8
    ensures was + ValueBits(0, terminator) + ValueBits(0, align) + PadBytes(dataCapacity - (used + terminator + align) / 8)
            == was + Padding(used, dataCapacity)
  {
    hide ValueBits, PadBytes;
    PaddingSizes(used, dataCapacity, terminator, align);
    var n := dataCapacity - (used + terminator + align) / 8;
    assert Padding(used, dataCapacity) == ValueBits(0, terminator) + ValueBits(0, align) + PadBytes(n);
    Regrouped(was, ValueBits(0, terminator), ValueBits(0, align), PadBytes(n));
  }

  lemma Regrouped(a: seq<bool>, b: seq<bool>, c: seq<bool>, d: seq<bool>)
    ensures a + b + c + d == a + (b + c + d)
  {
  }
}
