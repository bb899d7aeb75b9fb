/** The bytes of every record at literal positions, as sections 4.3.7, 4.3.9, 4.3.12 and 4.3.14 to 4.3.16 of
    PKWARE's APPNOTE.TXT lay them out. */
module ZipLayout {
  import opened Bytes
  import opened Zip
  import opened ZipReader
  import opened ZipEntries

  // ---------------------------------------------------------------- numbers in bytes

  function U16(b: seq<Byte>, p: nat): nat
    requires p + 2 <= |b|
  {
    var low: nat, high: nat := b[p], b[p + 1];
    low + 0x100 * high
  }

  function U32(b: seq<Byte>, p: nat): nat
    requires p + 4 <= |b|
  {
    U16(b, p) + 0x1_0000 * U16(b, p + 2)
  }

  function U64(b: seq<Byte>, p: nat): nat
    requires p + 8 <= |b|
  {
    U32(b, p) + 0x1_0000_0000 * U32(b, p + 4)
  }

  ghost predicate Reads(b: seq<Byte>, p: nat, n: nat, width: nat) {
    p + width <= |b| && b[p..p + width] == LittleEndian(n, width) && n < Bound(width)
  }

  lemma OneByte(b: seq<Byte>, p: nat, n: nat)
    requires Reads(b, p, n, 1)
    ensures b[p] == n
  {
    Bounds();
    assert b[p..p + 1][0] == b[p];
  }

  lemma TwoBytes(b: seq<Byte>, p: nat, n: nat)
    requires Reads(b, p, n, 2)
    ensures U16(b, p) == n
  {
    Bounds();
    var piece := b[p..p + 2];
    assert piece[0] == b[p] && piece[1] == b[p + 1];
    assert LittleEndian(n, 2)[1..] == LittleEndian(n / 256, 1);
    assert piece[1] == LittleEndian(n / 256, 1)[0];
  }

  /** The first two bytes and the rest. */
  lemma Halves(n: nat, k: nat)
    requires k >= 2
    ensures LittleEndian(n, k) == LittleEndian(n % 0x1_0000, 2) + LittleEndian(n / 0x1_0000, k - 2)
  {
    assert LittleEndian(n, k) == [n % 256] + ([n / 256 % 256] + LittleEndian(n / 256 / 256, k - 2));
    assert n / 256 / 256 == n / 0x1_0000;
    var low := n % 0x1_0000;
    assert low % 256 == n % 256 && low / 256 == n / 256 % 256;
    assert LittleEndian(low / 256, 1) == [low / 256 % 256];
    assert LittleEndian(low, 2) == [low % 256, low / 256 % 256];
  }

  lemma FourBytes(b: seq<Byte>, p: nat, n: nat)
    requires Reads(b, p, n, 4)
    ensures U32(b, p) == n
  {
    hide LittleEndian;
    Bounds();
    Halves(n, 4);
    var piece := b[p..p + 4];
    assert piece[..2] == b[p..p + 2] && piece[2..] == b[p + 2..p + 4];
    TwoBytes(b, p, n % 0x1_0000);
    TwoBytes(b, p + 2, n / 0x1_0000);
  }

  lemma EightBytes(b: seq<Byte>, p: nat, n: nat)
    requires Reads(b, p, n, 8)
    ensures U64(b, p) == n
  {
    hide LittleEndian, Bound;
    Bounds();
    var n1 := n / 0x1_0000;
    var n2 := n1 / 0x1_0000;
    var n3 := n2 / 0x1_0000;
    Halves(n, 8);
    Halves(n1, 6);
    Halves(n2, 4);
    var piece := b[p..p + 8];
    assert piece[..2] == b[p..p + 2] && piece[2..][..2] == b[p + 2..p + 4];
    assert piece[2..][2..][..2] == b[p + 4..p + 6] && piece[2..][2..][2..] == b[p + 6..p + 8];
    TwoBytes(b, p, n % 0x1_0000);
    TwoBytes(b, p + 2, n1 % 0x1_0000);
    TwoBytes(b, p + 4, n2 % 0x1_0000);
    TwoBytes(b, p + 6, n3);
  }

  // ---------------------------------------------------------------- fields of a record

  lemma {:induction false} SizeNext(format: Format, i: nat)
    requires i < |format|
    ensures Size(format[..i + 1]) == Size(format[..i]) + format[i]
    decreases i
  {
    if i == 0 {
      assert format[..1][1..] == [];
    } else {
      assert format[..i + 1][1..] == format[1..][..i] && format[..i][1..] == format[1..][..i - 1];
      SizeNext(format[1..], i - 1);
    }
  }

  lemma {:induction false} FieldAt(b: seq<Byte>, p: nat, values: seq<nat>, format: Format, i: nat)
    requires Fits(values, format) && At(b, p, Pack(values, format)) && i < |format|
    ensures Reads(b, p + Size(format[..i]), values[i], format[i])
    decreases i
  {
    AtSplits(b, p, LittleEndian(values[0], format[0]), Pack(values[1..], format[1..]));
    if i > 0 {
      assert format[..i][1..] == format[1..][..i - 1];
      FieldAt(b, p + format[0], values[1..], format[1..], i - 1);
    } else {
      assert format[..0] == [];
    }
  }

  /** One field of a record, at a known distance from its start. */
  lemma Field(b: seq<Byte>, p: nat, values: seq<nat>, format: Format, i: nat, at: nat)
    requires Fits(values, format) && At(b, p, Pack(values, format)) && i < |format| && Size(format[..i]) == at
    ensures p + at + format[i] <= |b| && Size(format[..i + 1]) == at + format[i]
    ensures format[i] == 1 ==> b[p + at] == values[i]
    ensures format[i] == 2 ==> U16(b, p + at) == values[i]
    ensures format[i] == 4 ==> U32(b, p + at) == values[i]
    ensures format[i] == 8 ==> U64(b, p + at) == values[i]
  {
    hide Size, Pack, At, U16, U32, U64;
    SizeNext(format, i);
    FieldAt(b, p, values, format, i);
    if format[i] == 1 {
      OneByte(b, p + at, values[i]);
    } else if format[i] == 2 {
      TwoBytes(b, p + at, values[i]);
    } else if format[i] == 4 {
      FourBytes(b, p + at, values[i]);
    } else if format[i] == 8 {
      EightBytes(b, p + at, values[i]);
    }
  }

  // ---------------------------------------------------------------- local headers

  /** A flag word: bit 3 for a descriptor, bit 11 for UTF-8, nothing else. */
  function FlagWord(info: Info): nat {
    match (info.streamed, info.utf8)
    case (false, false) => 0
    case (true, false) => 0x0008
    case (false, true) => 0x0800
    case (true, true) => 0x0808
  }

  predicate Huge(size: nat) { size >= 0x8000_0000 }

  function HeaderSize(info: Info): nat {
    30 + |info.name| + if !info.streamed && (Huge(info.fileSize) || Huge(info.compressSize)) then 20 else 0
  }

  /** A local header, byte by byte. */
  ghost predicate LocalLaidOut(b: seq<Byte>, p: nat, info: Info) {
    var n := |info.name|;
    var wide := !info.streamed && (Huge(info.fileSize) || Huge(info.compressSize));
    && p + 30 + n + (if wide then 20 else 0) <= |b|
    && U32(b, p) == 0x0403_4b50
    && b[p + 4] == (if wide then 45 else 20) && b[p + 5] == 0
    && U16(b, p + 6) == FlagWord(info)
    && U16(b, p + 8) == 8
    && U16(b, p + 10) == info.time && U16(b, p + 12) == info.date
    && U32(b, p + 14) == (if info.streamed then 0 else info.crc)
    && U32(b, p + 18) == (if info.streamed then 0 else if wide then 0xffff_ffff else info.compressSize)
    && U32(b, p + 22) == (if info.streamed then 0 else if wide then 0xffff_ffff else info.fileSize)
    && U16(b, p + 26) == n && U16(b, p + 28) == (if wide then 20 else 0)
    && b[p + 30..p + 30 + n] == info.name
    && (wide ==>
          && U16(b, p + 30 + n) == 1 && U16(b, p + 32 + n) == 16
          && U64(b, p + 34 + n) == info.fileSize && U64(b, p + 42 + n) == info.compressSize)
  }

  lemma LocalFixed(b: seq<Byte>, p: nat, info: Info)
    requires Storable(info) && At(b, p, Pack(LocalValues(info), LOCAL))
    ensures p + 30 <= |b|
    ensures var v := LocalValues(info);
      && U32(b, p) == v[0] && b[p + 4] == v[1] && b[p + 5] == v[2] && U16(b, p + 6) == v[3] && U16(b, p + 8) == v[4]
      && U16(b, p + 10) == v[5] && U16(b, p + 12) == v[6] && U32(b, p + 14) == v[7] && U32(b, p + 18) == v[8]
      && U32(b, p + 22) == v[9] && U16(b, p + 26) == v[10] && U16(b, p + 28) == v[11]
  {
    hide Size, Pack, Fits, At, U16, U32, U64, LocalExtra, Flags;
    var v := LocalValues(info);
    LocalFits(info);
    assert Size(LOCAL[..0]) == 0 by { assert LOCAL[..0] == []; SmallSizes(); }
    Field(b, p, v, LOCAL, 0, 0);
    Field(b, p, v, LOCAL, 1, 4);
    Field(b, p, v, LOCAL, 2, 5);
    Field(b, p, v, LOCAL, 3, 6);
    Field(b, p, v, LOCAL, 4, 8);
    Field(b, p, v, LOCAL, 5, 10);
    Field(b, p, v, LOCAL, 6, 12);
    Field(b, p, v, LOCAL, 7, 14);
    Field(b, p, v, LOCAL, 8, 18);
    Field(b, p, v, LOCAL, 9, 22);
    Field(b, p, v, LOCAL, 10, 26);
    Field(b, p, v, LOCAL, 11, 28);
  }

  lemma LocalExtraLaidOut(b: seq<Byte>, p: nat, info: Info)
    requires Storable(info) && At(b, p, LocalExtra(info)) && LocalExtra(info) != []
    ensures |LocalExtra(info)| == 20 && p + 20 <= |b|
    ensures U16(b, p) == 1 && U16(b, p + 2) == 16 && U64(b, p + 4) == info.fileSize && U64(b, p + 12) == info.compressSize
  {
    hide Size, Pack, At, U16, U32, U64, Bound;
    var v, f := [1, 16, info.fileSize, info.compressSize], [2, 2, 8, 8];
    Bounds();
    assert Fits(v, f);
    assert Size(f[..0]) == 0 by { assert f[..0] == []; SmallSizes(); }
    Field(b, p, v, f, 0, 0);
    Field(b, p, v, f, 1, 2);
    Field(b, p, v, f, 2, 4);
    Field(b, p, v, f, 3, 12);
    assert f[..4] == f;
  }

  lemma LocalBytesLaidOut(b: seq<Byte>, p: nat, info: Info)
    requires Storable(info) && At(b, p, LocalHeader(info))
    ensures LocalLaidOut(b, p, info) && |LocalHeader(info)| == HeaderSize(info)
  {
    hide Size, Pack, U16, U32, U64, LocalExtra;
    FormatSizes();
    var fixed, name, extra := Pack(LocalValues(info), LOCAL), info.name, LocalExtra(info);
    AtSplits(b, p, fixed + name, extra);
    AtSplits(b, p, fixed, name);
    LocalFixed(b, p, info);
    LocalWide(info);
    if extra != [] {
      LocalExtraLaidOut(b, p + 30 + |name|, info);
    }
  }

  lemma LocalWide(info: Info)
    ensures LocalExtra(info) != [] <==> !info.streamed && (Huge(info.fileSize) || Huge(info.compressSize))
    ensures LargeSizes(info) <==> Huge(info.fileSize) || Huge(info.compressSize)
    ensures Flags(info) == FlagWord(info)
  {
    hide Pack;
    assert [2, 2, 8, 8][4..] == [];
    SizeOfFour([2, 2, 8, 8]);
  }

  // ---------------------------------------------------------------- data descriptors

  ghost predicate DescriptorLaidOut(b: seq<Byte>, p: nat, info: Info, wide: bool) {
    && p + (if wide then 24 else 16) <= |b|
    && U32(b, p) == 0x0807_4b50 && U32(b, p + 4) == info.crc
    && (wide ==> U64(b, p + 8) == info.compressSize && U64(b, p + 16) == info.fileSize)
    && (!wide ==> U32(b, p + 8) == info.compressSize && U32(b, p + 12) == info.fileSize)
  }

  lemma DescriptorBytesLaidOut(b: seq<Byte>, p: nat, info: Info, wide: bool)
    requires Storable(info) && info.streamed && Describable(info, wide) && At(b, p, Descriptor(info, wide))
    ensures DescriptorLaidOut(b, p, info, wide)
  {
    hide Size, Pack, At, U16, U32, U64, Bound;
    var v, f := [DESCRIPTOR_SIGNATURE, info.crc, info.compressSize, info.fileSize], DescriptorFormat(wide);
    Bounds();
    assert Fits(v, f);
    assert Size(f[..0]) == 0 by { assert f[..0] == []; SmallSizes(); }
    Field(b, p, v, f, 0, 0);
    Field(b, p, v, f, 1, 4);
    Field(b, p, v, f, 2, 8);
    Field(b, p, v, f, 3, if wide then 16 else 12);
  }

  // ---------------------------------------------------------------- directory entries

  /** The number of 8-byte values a directory entry carries in its extra field. */
  function Wides(info: Info): nat {
    (if Huge(info.fileSize) || Huge(info.compressSize) then 2 else 0) + (if Huge(info.headerOffset) then 1 else 0)
  }

  /** A directory entry, byte by byte. */
  ghost predicate CentralLaidOut(b: seq<Byte>, p: nat, info: Info) {
    var n, k := |info.name|, Wides(info);
    var sizes := Huge(info.fileSize) || Huge(info.compressSize);
    && p + 46 + n + (if k == 0 then 0 else 4 + 8 * k) <= |b|
    && U32(b, p) == 0x0201_4b50
    && b[p + 4] == (if k == 0 then 20 else 45) && b[p + 5] == 3 && b[p + 6] == (if k == 0 then 20 else 45) && b[p + 7] == 0
    && U16(b, p + 8) == FlagWord(info)
    && U16(b, p + 10) == 8
    && U16(b, p + 12) == info.time && U16(b, p + 14) == info.date && U32(b, p + 16) == info.crc
    && U32(b, p + 20) == (if sizes then 0xffff_ffff else info.compressSize)
    && U32(b, p + 24) == (if sizes then 0xffff_ffff else info.fileSize)
    && U16(b, p + 28) == n && U16(b, p + 30) == (if k == 0 then 0 else 4 + 8 * k)
    && U16(b, p + 32) == 0 && U16(b, p + 34) == 0 && U16(b, p + 36) == 0
    && U32(b, p + 38) == info.externalAttr
    && U32(b, p + 42) == (if Huge(info.headerOffset) then 0xffff_ffff else info.headerOffset)
    && b[p + 46..p + 46 + n] == info.name
    && (k != 0 ==> U16(b, p + 46 + n) == 1 && U16(b, p + 48 + n) == 8 * k)
    && (sizes ==> U64(b, p + 50 + n) == info.fileSize && U64(b, p + 58 + n) == info.compressSize)
    && (Huge(info.headerOffset) ==> U64(b, p + 42 + 8 * k + n) == info.headerOffset)
  }

  lemma CentralFixed(b: seq<Byte>, p: nat, info: Info)
    requires Storable(info) && At(b, p, Pack(CentralValues(info), CENTRAL))
    ensures p + 46 <= |b|
    ensures var v := CentralValues(info);
      && U32(b, p) == v[0] && b[p + 4] == v[1] && b[p + 5] == v[2] && b[p + 6] == v[3] && b[p + 7] == v[4]
      && U16(b, p + 8) == v[5] && U16(b, p + 10) == v[6] && U16(b, p + 12) == v[7] && U16(b, p + 14) == v[8]
      && U32(b, p + 16) == v[9] && U32(b, p + 20) == v[10] && U32(b, p + 24) == v[11]
      && U16(b, p + 28) == v[12] && U16(b, p + 30) == v[13] && U16(b, p + 32) == v[14] && U16(b, p + 34) == v[15]
      && U16(b, p + 36) == v[16] && U32(b, p + 38) == v[17] && U32(b, p + 42) == v[18]
  {
    hide Size, Pack, Fits, At, U16, U32, U64, CentralExtra, Flags, CentralLarge;
    var v := CentralValues(info);
    CentralFits(info);
    assert Size(CENTRAL[..0]) == 0 by { assert CENTRAL[..0] == []; SmallSizes(); }
    Field(b, p, v, CENTRAL, 0, 0);
    Field(b, p, v, CENTRAL, 1, 4);
    Field(b, p, v, CENTRAL, 2, 5);
    Field(b, p, v, CENTRAL, 3, 6);
    Field(b, p, v, CENTRAL, 4, 7);
    Field(b, p, v, CENTRAL, 5, 8);
    Field(b, p, v, CENTRAL, 6, 10);
    Field(b, p, v, CENTRAL, 7, 12);
    Field(b, p, v, CENTRAL, 8, 14);
    Field(b, p, v, CENTRAL, 9, 16);
    Field(b, p, v, CENTRAL, 10, 20);
    Field(b, p, v, CENTRAL, 11, 24);
    Field(b, p, v, CENTRAL, 12, 28);
    Field(b, p, v, CENTRAL, 13, 30);
    Field(b, p, v, CENTRAL, 14, 32);
    Field(b, p, v, CENTRAL, 15, 34);
    Field(b, p, v, CENTRAL, 16, 36);
    Field(b, p, v, CENTRAL, 17, 38);
    Field(b, p, v, CENTRAL, 18, 42);
  }

  /** The extra field: a tag, a length and up to three 8-byte values. */
  lemma CentralExtraLaidOut(b: seq<Byte>, p: nat, info: Info)
    requires Storable(info) && At(b, p, CentralExtra(info)) && CentralLarge(info) != []
    ensures var large := CentralLarge(info);
      && |CentralExtra(info)| == 4 + 8 * |large| && p + 4 + 8 * |large| <= |b|
      && U16(b, p) == 1 && U16(b, p + 2) == 8 * |large|
      && U64(b, p + 4) == large[0]
      && (|large| > 1 ==> U64(b, p + 12) == large[1])
      && (|large| > 2 ==> U64(b, p + 20) == large[2])
  {
    hide Size, Pack, At, U16, U32, U64, Bound, Eights;
    var large := CentralLarge(info);
    var v, f := [1, 8 * |large|] + large, [2, 2] + Eights(|large|);
    EightsSize(|large|);
    Bounds();
    assert Fits(v, f);
    assert Size(f[..0]) == 0 by { assert f[..0] == []; SmallSizes(); }
    Field(b, p, v, f, 0, 0);
    Field(b, p, v, f, 1, 2);
    Field(b, p, v, f, 2, 4);
    if |large| > 1 { Field(b, p, v, f, 3, 12); }
    if |large| > 2 { Field(b, p, v, f, 4, 20); }
    assert f[..|f|] == f;
  }

  lemma CentralWide(info: Info)
    ensures |CentralLarge(info)| == Wides(info) && (CentralExtra(info) == [] <==> Wides(info) == 0)
    ensures var sizes := Huge(info.fileSize) || Huge(info.compressSize);
      && (sizes ==> CentralLarge(info)[0] == info.fileSize && CentralLarge(info)[1] == info.compressSize)
      && (Huge(info.headerOffset) ==> CentralLarge(info)[Wides(info) - 1] == info.headerOffset)
  {
    hide Pack, Eights;
    EightsSize(|CentralLarge(info)|);
  }

  lemma CentralBytesLaidOut(b: seq<Byte>, p: nat, info: Info)
    requires Storable(info) && At(b, p, CentralBytes(info))
    ensures CentralLaidOut(b, p, info) && |CentralBytes(info)| == 46 + |info.name| + if Wides(info) == 0 then 0 else 4 + 8 * Wides(info)
  {
    hide Size, Pack, U16, U32, U64, CentralExtra, CentralLarge, Flags;
    FormatSizes();
    var fixed, name, extra := Pack(CentralValues(info), CENTRAL), info.name, CentralExtra(info);
    AtSplits(b, p, fixed + name, extra);
    AtSplits(b, p, fixed, name);
    CentralFixed(b, p, info);
    LocalWide(info);
    CentralWide(info);
    if Wides(info) != 0 {
      CentralExtraLaidOut(b, p + 46 + |name|, info);
    }
  }

  // ---------------------------------------------------------------- end records

  predicate Overflows(count: nat, offset: nat, size: nat) {
    count >= 0x1_0000 || offset >= 0x8000_0000 || size >= 0x8000_0000
  }

  function Clipped(n: nat, limit: nat): nat { if n > limit then limit else n }

  /** The end of the archive from the directory's end on: the two ZIP64 records if needed, and the end record. */
  ghost predicate EndLaidOut(b: seq<Byte>, p: nat, count: nat, offset: nat, size: nat) {
    var wide := Overflows(count, offset, size);
    var e := p + if wide then 76 else 0;
    && |b| == e + 22
    && U32(b, e) == 0x0605_4b50 && U16(b, e + 4) == 0 && U16(b, e + 6) == 0
    && U16(b, e + 8) == U16(b, e + 10) == (if wide then Clipped(count, 0xffff) else count)
    && U32(b, e + 12) == (if wide then Clipped(size, 0xffff_ffff) else size)
    && U32(b, e + 16) == (if wide then Clipped(offset, 0xffff_ffff) else offset)
    && U16(b, e + 20) == 0
    && (wide ==> Records64LaidOut(b, p, count, offset, size))
  }

  ghost predicate Records64LaidOut(b: seq<Byte>, p: nat, count: nat, offset: nat, size: nat) {
    && p + 76 <= |b|
    && U32(b, p) == 0x0606_4b50 && U64(b, p + 4) == 44 && U16(b, p + 12) == 45 && U16(b, p + 14) == 45
    && U32(b, p + 16) == 0 && U32(b, p + 20) == 0
    && U64(b, p + 24) == count && U64(b, p + 32) == count && U64(b, p + 40) == size && U64(b, p + 48) == offset
    && U32(b, p + 56) == 0x0706_4b50 && U32(b, p + 60) == 0 && U64(b, p + 64) == offset + size && U32(b, p + 72) == 1
  }

  lemma EndFixed(b: seq<Byte>, p: nat, count: nat, offset: nat, size: nat)
    requires At(b, p, EndRecord(count, offset, size)) && p + 22 == |b|
    ensures var v := EndValues(count, offset, size);
      && U32(b, p) == v[0] && U16(b, p + 4) == v[1] && U16(b, p + 6) == v[2] && U16(b, p + 8) == v[3] && U16(b, p + 10) == v[4]
      && U32(b, p + 12) == v[5] && U32(b, p + 16) == v[6] && U16(b, p + 20) == v[7]
  {
    hide Size, Pack, At, U16, U32, U64, Bound;
    var v := EndValues(count, offset, size);
    Bounds();
    assert EndRecord(count, offset, size) == Pack(v, END);
    assert Fits(v, END);
    assert Size(END[..0]) == 0 by { assert END[..0] == []; SmallSizes(); }
    Field(b, p, v, END, 0, 0);
    Field(b, p, v, END, 1, 4);
    Field(b, p, v, END, 2, 6);
    Field(b, p, v, END, 3, 8);
    Field(b, p, v, END, 4, 10);
    Field(b, p, v, END, 5, 12);
    Field(b, p, v, END, 6, 16);
    Field(b, p, v, END, 7, 20);
  }

  lemma End64Fixed(b: seq<Byte>, p: nat, count: nat, offset: nat, size: nat)
    requires At(b, p, Pack(End64Values(count, offset, size), END64))
    requires count < 0x1_0000_0000_0000_0000 && offset + size < 0x1_0000_0000_0000_0000
    ensures p + 56 <= |b|
    ensures U32(b, p) == 0x0606_4b50 && U64(b, p + 4) == 44 && U16(b, p + 12) == 45 && U16(b, p + 14) == 45
    ensures U32(b, p + 16) == 0 && U32(b, p + 20) == 0
    ensures U64(b, p + 24) == count && U64(b, p + 32) == count && U64(b, p + 40) == size && U64(b, p + 48) == offset
  {
    hide Size, Pack, At, U16, U32, U64, Bound;
    var v := End64Values(count, offset, size);
    Bounds();
    assert Fits(v, END64);
    hide Fits;
    assert Size(END64[..0]) == 0 by { assert END64[..0] == []; SmallSizes(); }
    Field(b, p, v, END64, 0, 0);
    Field(b, p, v, END64, 1, 4);
    Field(b, p, v, END64, 2, 12);
    Field(b, p, v, END64, 3, 14);
    Field(b, p, v, END64, 4, 16);
    Field(b, p, v, END64, 5, 20);
    Field(b, p, v, END64, 6, 24);
    Field(b, p, v, END64, 7, 32);
    Field(b, p, v, END64, 8, 40);
    Field(b, p, v, END64, 9, 48);
  }

  lemma LocatorFixed(b: seq<Byte>, p: nat, at: nat)
    requires At(b, p, Pack(LocatorValues(at), LOCATOR)) && at < 0x1_0000_0000_0000_0000
    ensures p + 20 <= |b|
    ensures U32(b, p) == 0x0706_4b50 && U32(b, p + 4) == 0 && U64(b, p + 8) == at && U32(b, p + 16) == 1
  {
    hide Size, Pack, At, U16, U32, U64, Bound;
    var v := LocatorValues(at);
    Bounds();
    assert Fits(v, LOCATOR);
    assert Size(LOCATOR[..0]) == 0 by { assert LOCATOR[..0] == []; SmallSizes(); }
    Field(b, p, v, LOCATOR, 0, 0);
    Field(b, p, v, LOCATOR, 1, 4);
    Field(b, p, v, LOCATOR, 2, 8);
    Field(b, p, v, LOCATOR, 3, 16);
  }

  lemma ClosingLaidOut(b: seq<Byte>, locals: seq<Byte>, infos: seq<Info>)
    requires Tiled(b, locals, infos) && Addressable(infos, |locals|)
    ensures EndLaidOut(b, |locals| + |Directory(infos)|, |infos|, |locals|, |Directory(infos)|)
  {
    hide U16, U32, U64, EndRecord, EndRecord64, Directory, Tiled, At, Storable, Records64LaidOut;
    var count, offset, size := |infos|, |locals|, |Directory(infos)|;
    Layout(b, locals, infos);
    EndSizes(count, offset, size);
    EndFixed(b, |b| - 22, count, offset, size);
    if Escapes(count, offset, size) {
      Records64BytesLaidOut(b, offset + size, count, offset, size);
    }
  }

  lemma Records64BytesLaidOut(b: seq<Byte>, p: nat, count: nat, offset: nat, size: nat)
    requires At(b, p, EndRecord64(count, offset, size))
    requires count < 0x1_0000_0000_0000_0000 && offset + size < 0x1_0000_0000_0000_0000
    ensures Records64LaidOut(b, p, count, offset, size)
  {
    hide Size, Pack, At, U16, U32, U64;
    FormatSizes();
    AtSplits(b, p, Pack(End64Values(count, offset, size), END64), Pack(LocatorValues(offset + size), LOCATOR));
    hide End64Values, LocatorValues;
    End64Fixed(b, p, count, offset, size);
    LocatorFixed(b, p + 56, offset + size);
  }

  // ---------------------------------------------------------------- the whole archive

  lemma {:induction false} DirectoryAt(infos: seq<Info>, i: nat)
    requires i < |infos|
    ensures At(Directory(infos), |Directory(infos[..i])|, CentralBytes(infos[i]))
    ensures |Directory(infos[..i + 1])| == |Directory(infos[..i])| + |CentralBytes(infos[i])| <= |Directory(infos)|
    decreases |infos|
  {
    hide CentralBytes;
    var init, last := infos[..|infos| - 1], infos[|infos| - 1];
    assert infos == init + [last];
    DirectoryGrows(init, last);
    if i < |init| {
      DirectoryAt(init, i);
      assert init[..i] == infos[..i] && init[..i + 1] == infos[..i + 1];
      var from, piece := |Directory(infos[..i])|, CentralBytes(infos[i]);
      assert Directory(infos)[..|Directory(init)|] == Directory(init);
      assert Directory(init)[from..from + |piece|] == Directory(infos)[from..from + |piece|];
    } else {
      assert infos[..i] == init && infos[..i + 1] == infos;
      assert Directory(infos)[|Directory(init)|..] == CentralBytes(last);
    }
  }

  /** An entry where its header offset says: header, data, and a descriptor if it is streamed. */
  ghost predicate EntryLaidOut(b: seq<Byte>, l: Local) {
    var data := l.info.headerOffset + HeaderSize(l.info);
    && LocalLaidOut(b, l.info.headerOffset, l.info)
    && At(b, data, l.payload) && |l.payload| == l.info.compressSize
    && (l.info.streamed ==> DescriptorLaidOut(b, data + |l.payload|, l.info, l.wide))
  }

  lemma EntryBytesLaidOut(b: seq<Byte>, l: Local)
    requires Proper(l) && At(b, l.info.headerOffset, LocalBytes(l))
    ensures EntryLaidOut(b, l)
  {
    hide LocalLaidOut, DescriptorLaidOut, LocalHeader, Descriptor, LocalBytes, Storable, HeaderSize;
    var start := l.info.headerOffset;
    EntryParts(b, start, l);
    LocalBytesLaidOut(b, start, l.info);
    if l.info.streamed {
      DescriptorBytesLaidOut(b, start + |LocalHeader(l.info)| + |l.payload|, l.info, l.wide);
    }
  }

  /** A closed archive is, byte by byte, what the format asks for: every entry has a local header where its
      directory entry says, followed by its data and, if it is streamed, a descriptor; the directory entries follow
      in the same order without gaps; and the end records close the archive. */
  lemma ArchiveLaidOut(ls: seq<Local>, infos: seq<Info>, i: nat)
    requires Consistent(ls, infos) && Addressable(infos, |AllLocals(ls)|) && i < |infos|
    ensures |ls| == |infos| && ls[i].info == infos[i]
    ensures EntryLaidOut(Archive(ls, infos), ls[i])
    ensures CentralLaidOut(Archive(ls, infos), |AllLocals(ls)| + |Directory(infos[..i])|, infos[i])
    ensures EndLaidOut(Archive(ls, infos), |AllLocals(ls)| + |Directory(infos)|, |infos|, |AllLocals(ls)|, |Directory(infos)|)
  {
    hide EntryLaidOut, CentralLaidOut, EndLaidOut, Closing, AllLocals, Directory, Consistent, LocalBytes, CentralBytes, Proper, Storable, Escapes, At;
    var locals, b := AllLocals(ls), Archive(ls, infos);
    ConsistentAt(ls, infos, i);
    LocalAt(ls, i);
    DirectoryAt(infos, i);
    Layout(b, locals, infos);
    AtWithin(b, 0, locals, infos[i].headerOffset, LocalBytes(ls[i]));
    AtWithin(b, |locals|, Directory(infos), |Directory(infos[..i])|, CentralBytes(infos[i]));
    EntryBytesLaidOut(b, ls[i]);
    CentralBytesLaidOut(b, |locals| + |Directory(infos[..i])|, infos[i]);
    ClosingLaidOut(b, locals, infos);
  }

  lemma AtWithin(b: seq<Byte>, p: nat, whole: seq<Byte>, q: nat, piece: seq<Byte>)
    requires At(b, p, whole) && At(whole, q, piece)
    ensures At(b, p + q, piece)
  {
    assert whole[q..q + |piece|] == piece;
    forall i | 0 <= i < |piece| ensures b[p + q + i] == piece[i] {
      assert whole[q + i] == piece[i] && b[p..p + |whole|][q + i] == b[p + q + i];
    }
  }
}
