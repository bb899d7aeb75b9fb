/** A reader written from the format alone: it starts from the last 22 bytes and follows offsets. */
module ZipReader {
  import opened Options
  import opened Bytes
  import opened Zip

  /** What the directory says of an entry. Method 8 is deflation. */
  datatype Found = Found(
    name: seq<Byte>, streamed: bool, utf8: bool, compression: nat, time: nat, date: nat,
    crc: nat, compressSize: nat, fileSize: nat, externalAttr: nat, headerOffset: nat)

  const DEFLATED := 8

  function PowerOfTwo(k: nat): (n: nat)
    ensures n > 0
  {
    if k == 0 then 1 else 2 * PowerOfTwo(k - 1)
  }

  /** Bit k of a flag word. */
  predicate Bit(flags: nat, k: nat) {
    flags / PowerOfTwo(k) % 2 == 1
  }

  /** A value from its fixed field, or from the ZIP64 extra field when the fixed one is saturated. */
  function Widened(field: nat, large: seq<nat>, i: nat): Option<nat> {
    if field != MAX32 then Some(field) else if i < |large| then Some(large[i]) else None
  }

  /** The 8-byte values of the ZIP64 extra field at the start of the extra data. */
  function LargeValues(bytes: seq<Byte>, pos: nat, length: nat): Option<seq<nat>>
    requires pos + length <= |bytes|
  {
    if length < 4 then Some([])
    else
      assert [2, 2][1..] == [2] && [2][1..] == [];
      var head := Unpack(bytes, pos, [2, 2]);
      if head[0] != 1 || head[1] % 8 != 0 || 4 + head[1] > length then None
      else
        EightsSize(head[1] / 8);
        Some(Unpack(bytes, pos + 4, Eights(head[1] / 8)))
  }

  /** A central directory entry from its fixed fields and the data after them. */
  function Decode(bytes: seq<Byte>, pos: nat, f: seq<nat>): Option<(Found, nat)>
    requires |f| == 19
  {
    var namePos := pos + 46;
    var extraPos := namePos + f[12];
    var next := extraPos + f[13] + f[14];
    if f[0] != CENTRAL_SIGNATURE || next > |bytes| then None
    else match LargeValues(bytes, extraPos, f[13])
      case None => None
      case Some(large) =>
        var i := if f[11] == MAX32 then 1 else 0;
        var j := i + if f[10] == MAX32 then 1 else 0;
        match (Widened(f[11], large, 0), Widened(f[10], large, i), Widened(f[18], large, j))
        case (Some(fileSize), Some(compressSize), Some(offset)) =>
          var found := Found(
            bytes[namePos..extraPos], Bit(f[5], 3), Bit(f[5], 11), f[6], f[7], f[8], f[9], compressSize, fileSize, f[17], offset);
          Some((found, next))
        case _ => None
  }

  /** One central directory entry and the position after it. */
  function ReadEntry(bytes: seq<Byte>, pos: nat): Option<(Found, nat)> {
    FormatSizes();
    hide Size, Unpack, Decode;
    if pos + 46 > |bytes| then None else Decode(bytes, pos, Unpack(bytes, pos, CENTRAL))
  }

  function ReadEntries(bytes: seq<Byte>, pos: nat, count: nat): Option<(seq<Found>, nat)>
    decreases count
  {
    hide ReadEntry;
    if count == 0 then Some(([], pos))
    else match ReadEntry(bytes, pos)
      case None => None
      case Some((entry, next)) =>
        match ReadEntries(bytes, next, count - 1)
        case None => None
        case Some((rest, end)) => Some(([entry] + rest, end))
  }

  /** A saturated field of the end record sends the reader to the ZIP64 records. */
  predicate Saturated(count: nat, size: nat, offset: nat) {
    count == 0xffff || size == MAX32 || offset == MAX32
  }

  /** Number of entries, size and offset of the directory. */
  function ReadEnd(bytes: seq<Byte>): Option<(nat, nat, nat)> {
    FormatSizes();
    if |bytes| < 22 then None
    else
      var end := Unpack(bytes, |bytes| - 22, END);
      if end[0] != END_SIGNATURE then None
      else if !Saturated(end[4], end[5], end[6]) then Some((end[4], end[5], end[6]))
      else if |bytes| < 42 then None
      else
        var locator := Unpack(bytes, |bytes| - 42, LOCATOR);
        if locator[0] != LOCATOR_SIGNATURE || locator[2] + 56 > |bytes| then None
        else
          var end64 := Unpack(bytes, locator[2], END64);
          if end64[0] != END64_SIGNATURE then None else Some((end64[7], end64[8], end64[9]))
  }

  /** The whole directory, which must fill exactly the announced bytes. */
  function Read(bytes: seq<Byte>): Option<seq<Found>> {
    match ReadEnd(bytes)
    case None => None
    case Some((count, size, offset)) =>
      match ReadEntries(bytes, offset, count)
      case None => None
      case Some((entries, end)) => if end == offset + size then Some(entries) else None
  }

  // ---------------------------------------------------------------- reading what was written

  function AsFound(info: Info): Found {
    Found(info.name, info.streamed, info.utf8, DEFLATED, info.time, info.date,
          info.crc, info.compressSize, info.fileSize, info.externalAttr, info.headerOffset)
  }

  function AllFound(infos: seq<Info>): seq<Found> {
    if infos == [] then [] else [AsFound(infos[0])] + AllFound(infos[1..])
  }

  lemma ExtraSize(info: Info)
    ensures |CentralExtra(info)| <= 28
  {
    hide Pack, Eights;
    EightsSize(|CentralLarge(info)|);
    var eights := Eights(|CentralLarge(info)|);
    var format := [2, 2] + eights;
    assert format[1..] == [2] + eights && ([2] + eights)[1..] == eights;
    assert Size(format) == 4 + Size(eights);
  }

  lemma CentralFits(info: Info)
    requires Storable(info)
    ensures Fits(CentralValues(info), CENTRAL)
  {
    hide Pack, Bound, Eights, Size;
    Bounds();
    ExtraSize(info);
    hide CentralExtra;
  }

  lemma LargeReadBack(bytes: seq<Byte>, pos: nat, large: seq<nat>)
    requires 0 < |large| <= 3 && (forall i | 0 <= i < |large| :: large[i] < 0x1_0000_0000_0000_0000)
    requires |Eights(|large|)| == |large| && At(bytes, pos, Pack([1, 8 * |large|] + large, [2, 2] + Eights(|large|)))
    ensures pos + 4 + 8 * |large| <= |bytes| && LargeValues(bytes, pos, 4 + 8 * |large|) == Some(large)
    ensures |Pack([1, 8 * |large|] + large, [2, 2] + Eights(|large|))| == 4 + 8 * |large|
  {
    hide Pack, Unpack, Bound, Eights;
    var n := |large|;
    EightsSize(n);
    Bounds();
    var head := [1, 8 * n];
    assert [2, 2][1..] == [2] && [2][1..] == [];
    assert Size([2, 2]) == 4;
    PackConcat(head, [2, 2], large, Eights(n));
    AtSplits(bytes, pos, Pack(head, [2, 2]), Pack(large, Eights(n)));
    RecordRoundTrip(bytes, pos, head, [2, 2]);
    RecordRoundTrip(bytes, pos + 4, large, Eights(n));
  }

  lemma ExtraReadBack(bytes: seq<Byte>, pos: nat, info: Info)
    requires Storable(info) && At(bytes, pos, CentralExtra(info))
    ensures LargeValues(bytes, pos, |CentralExtra(info)|) == Some(CentralLarge(info))
  {
    hide Pack, Unpack, LargeValues, Eights;
    var large := CentralLarge(info);
    EightsSize(|large|);
    if large != [] {
      LargeReadBack(bytes, pos, large);
    } else {
      NoLargeValues(bytes, pos);
    }
  }

  lemma NoLargeValues(bytes: seq<Byte>, pos: nat)
    requires pos <= |bytes|
    ensures LargeValues(bytes, pos, 0) == Some([])
  {}

  lemma EntryReadBack(bytes: seq<Byte>, pos: nat, info: Info)
    requires Storable(info) && At(bytes, pos, CentralBytes(info))
    ensures ReadEntry(bytes, pos) == Some((AsFound(info), pos + |CentralBytes(info)|))
  {
    hide Pack, Unpack, LargeValues, CentralExtra, Size;
    FormatSizes();
    var fixed := Pack(CentralValues(info), CENTRAL);
    AtSplits(bytes, pos, fixed + info.name, CentralExtra(info));
    AtSplits(bytes, pos, fixed, info.name);
    CentralFits(info);
    RecordRoundTrip(bytes, pos, CentralValues(info), CENTRAL);
    ExtraReadBack(bytes, pos + 46 + |info.name|, info);
    DecodeBack(bytes, pos, info);
  }

  /** Bit 3 announces a data descriptor, bit 11 a name in UTF-8. */
  lemma FlagBits(info: Info)
    ensures Bit(Flags(info), 3) <==> info.streamed
    ensures Bit(Flags(info), 11) <==> info.utf8
  {
    assert PowerOfTwo(2) == 4 && PowerOfTwo(3) == 8 && PowerOfTwo(4) == 16 && PowerOfTwo(5) == 32;
    assert PowerOfTwo(6) == 64 && PowerOfTwo(7) == 128 && PowerOfTwo(8) == 256 && PowerOfTwo(9) == 512;
    assert PowerOfTwo(10) == 1024 && PowerOfTwo(11) == 2048;
  }

  lemma DecodeBack(bytes: seq<Byte>, pos: nat, info: Info)
    requires Storable(info) && At(bytes, pos + 46, info.name)
    requires pos + 46 + |info.name| + |CentralExtra(info)| <= |bytes|
    requires LargeValues(bytes, pos + 46 + |info.name|, |CentralExtra(info)|) == Some(CentralLarge(info))
    ensures Decode(bytes, pos, CentralValues(info)) ==
      Some((AsFound(info), pos + 46 + |info.name| + |CentralExtra(info)|))
  {
    hide LargeValues, CentralExtra, Bit, Flags;
    FlagBits(info);
  }

  lemma {:induction false} DirectoryReadBack(bytes: seq<Byte>, pos: nat, infos: seq<Info>)
    requires (forall info | info in infos :: Storable(info)) && At(bytes, pos, Directory(infos))
    ensures ReadEntries(bytes, pos, |infos|) == Some((AllFound(infos), pos + |Directory(infos)|))
    decreases |infos|
  {
    hide ReadEntry, CentralBytes, Storable;
    if infos != [] {
      assert infos[0] in infos;
      assert forall info | info in infos[1..] :: info in infos;
      AtSplits(bytes, pos, CentralBytes(infos[0]), Directory(infos[1..]));
      EntryReadBack(bytes, pos, infos[0]);
      DirectoryReadBack(bytes, pos + |CentralBytes(infos[0])|, infos[1..]);
    }
  }

  // ---------------------------------------------------------------- the end of the archive

  /** What the fixed end record announces: count, size and offset, clipped when the writer escapes. */
  function Announced(count: nat, offset: nat, size: nat): (nat, nat, nat) {
    if Escapes(count, offset, size) then (Min(count, 0xffff), Min(size, MAX32), Min(offset, MAX32)) else (count, size, offset)
  }

  /** The one number of entries the format cannot tell from an escape. */
  predicate Ambiguous(count: nat, offset: nat, size: nat) {
    count == 0xffff && !Escapes(count, offset, size)
  }

  /** The reader follows the record the writer filled, if and only if the archive is not ambiguous; and
      when it stays with the fixed record, nothing there was clipped. */
  lemma EscapeAgrees(count: nat, offset: nat, size: nat)
    ensures var a := Announced(count, offset, size);
      && ((Saturated(a.0, a.1, a.2) ==> Escapes(count, offset, size)) <==> !Ambiguous(count, offset, size))
      && (!Saturated(a.0, a.1, a.2) ==> a == (count, size, offset))
  {}

  function EndValues(count: nat, offset: nat, size: nat): seq<nat> {
    var a := Announced(count, offset, size);
    [END_SIGNATURE, 0, 0, a.0, a.0, a.1, a.2, 0]
  }

  lemma EndFields(bytes: seq<Byte>, count: nat, offset: nat, size: nat)
    requires |bytes| >= 22 && At(bytes, |bytes| - 22, EndRecord(count, offset, size))
    ensures Size(END) == 22 && Unpack(bytes, |bytes| - 22, END) == EndValues(count, offset, size)
  {
    hide Pack, Unpack, Size, Bound;
    FormatSizes();
    Bounds();
    var v := EndValues(count, offset, size);
    assert EndRecord(count, offset, size) == Pack(v, END);
    assert Fits(v, END);
    RecordRoundTrip(bytes, |bytes| - 22, v, END);
  }

  lemma End64Fields(bytes: seq<Byte>, pos: nat, count: nat, offset: nat, size: nat)
    requires At(bytes, pos, EndRecord64(count, offset, size))
    requires count < 0x1_0000_0000_0000_0000 && offset + size < 0x1_0000_0000_0000_0000
    ensures Size(END64) == 56 && Size(LOCATOR) == 20 && pos + 76 <= |bytes|
    ensures Unpack(bytes, pos, END64) == End64Values(count, offset, size)
    ensures Unpack(bytes, pos + 56, LOCATOR) == LocatorValues(offset + size)
  {
    hide Pack, Unpack, Size, Bound;
    FormatSizes();
    Bounds();
    var v, w := End64Values(count, offset, size), LocatorValues(offset + size);
    AtSplits(bytes, pos, Pack(v, END64), Pack(w, LOCATOR));
    assert Fits(v, END64) && Fits(w, LOCATOR);
    RecordRoundTrip(bytes, pos, v, END64);
    RecordRoundTrip(bytes, pos + 56, w, LOCATOR);
  }

  /** The archive: local entries, directory, end records, one after another with nothing between. */
  ghost predicate Tiled(bytes: seq<Byte>, locals: seq<Byte>, infos: seq<Info>) {
    bytes == locals + Closing(infos, |locals|)
  }

  lemma Layout(bytes: seq<Byte>, locals: seq<Byte>, infos: seq<Info>)
    requires Tiled(bytes, locals, infos)
    ensures var offset, size := |locals|, |Directory(infos)|;
      var escape := if Escapes(|infos|, offset, size) then EndRecord64(|infos|, offset, size) else [];
      && At(bytes, 0, locals)
      && At(bytes, offset, Directory(infos))
      && At(bytes, offset + size, escape)
      && At(bytes, offset + size + |escape|, EndRecord(|infos|, offset, size))
      && |bytes| == offset + size + |escape| + |EndRecord(|infos|, offset, size)|
  {
    hide EndRecord, EndRecord64, Directory;
    var offset, size := |locals|, |Directory(infos)|;
    var escape := if Escapes(|infos|, offset, size) then EndRecord64(|infos|, offset, size) else [];
    var end := EndRecord(|infos|, offset, size);
    assert At(bytes, 0, locals + (Directory(infos) + escape + end));
    AtSplits(bytes, 0, locals, Directory(infos) + escape + end);
    AtSplits(bytes, offset, Directory(infos) + escape, end);
    AtSplits(bytes, offset, Directory(infos), escape);
  }

  lemma EndSizes(count: nat, offset: nat, size: nat)
    ensures |EndRecord(count, offset, size)| == 22 && |EndRecord64(count, offset, size)| == 76
  {
    hide Pack, Size;
    FormatSizes();
  }

  ghost predicate Addressable(infos: seq<Info>, offset: nat) {
    && (forall info | info in infos :: Storable(info))
    && |infos| < 0x1_0000_0000_0000_0000 && offset + |Directory(infos)| < 0x1_0000_0000_0000_0000
  }

  lemma EndReadBack(bytes: seq<Byte>, locals: seq<Byte>, infos: seq<Info>)
    requires Tiled(bytes, locals, infos) && Addressable(infos, |locals|)
    requires !Ambiguous(|infos|, |locals|, |Directory(infos)|)
    ensures ReadEnd(bytes) == Some((|infos|, |Directory(infos)|, |locals|))
  {
    hide EndRecord, EndRecord64, Directory, Storable, Unpack, Size, Tiled, At;
    FormatSizes();
    Layout(bytes, locals, infos);
    var count, offset, size := |infos|, |locals|, |Directory(infos)|;
    EndSizes(count, offset, size);
    EndFields(bytes, count, offset, size);
    EscapeAgrees(count, offset, size);
    if Escapes(count, offset, size) {
      End64Fields(bytes, offset + size, count, offset, size);
    }
  }

  /** Round trip: from the last 22 bytes on, the reader recovers name, flags, method, time, date, checksum,
      both sizes, attributes and header offset of every entry, in order. */
  lemma ArchiveReadBack(bytes: seq<Byte>, locals: seq<Byte>, infos: seq<Info>)
    requires Tiled(bytes, locals, infos) && Addressable(infos, |locals|)
    requires !Ambiguous(|infos|, |locals|, |Directory(infos)|)
    ensures Read(bytes) == Some(AllFound(infos))
  {
    hide EndRecord, EndRecord64, Directory, Storable, ReadEnd, ReadEntries, Tiled, At;
    EndReadBack(bytes, locals, infos);
    Layout(bytes, locals, infos);
    DirectoryReadBack(bytes, |locals|, infos);
  }

  /** The ambiguous archive: the reader looks for a locator that was never written, and fails unless
      the bytes of the directory happen to look like one. */
  lemma AmbiguousFails(bytes: seq<Byte>, locals: seq<Byte>, infos: seq<Info>)
    requires Tiled(bytes, locals, infos) && Ambiguous(|infos|, |locals|, |Directory(infos)|)
    requires |bytes| >= 42 && Size(LOCATOR) == 20 && Unpack(bytes, |bytes| - 42, LOCATOR)[0] != LOCATOR_SIGNATURE
    ensures Read(bytes).None?
  {
    hide EndRecord, EndRecord64, Directory, Unpack, Size, Tiled, At, ReadEntries;
    FormatSizes();
    Layout(bytes, locals, infos);
    EndSizes(|infos|, |locals|, |Directory(infos)|);
    EndFields(bytes, |infos|, |locals|, |Directory(infos)|);
  }

  lemma {:induction false} FoundAt(infos: seq<Info>, i: nat)
    requires i < |infos|
    ensures |AllFound(infos)| == |infos| && AllFound(infos)[i] == AsFound(infos[i])
  {
    if i > 0 {
      FoundAt(infos[1..], i - 1);
    } else if |infos| > 1 {
      FoundAt(infos[1..], 0);
    }
  }
}
