/** The streaming ZIP writer: local entries with data descriptors, the central directory and the end
    records, with the ZIP64 escapes of sections 4.3.14, 4.3.15 and 4.5.3 of PKWARE's APPNOTE.TXT.
    Compressed data, checksums and times are opaque values of known size. */
module Zip {
  import opened Bytes

  const LIMIT32 := 0x7fff_ffff
  const MAX32 := 0xffff_ffff
  const COUNT_LIMIT := 0xffff

  const LOCAL: Format := [4, 1, 1, 2, 2, 2, 2, 4, 4, 4, 2, 2]
  const CENTRAL: Format := [4, 1, 1, 1, 1, 2, 2, 2, 2, 4, 4, 4, 2, 2, 2, 2, 2, 4, 4]
  const END: Format := [4, 2, 2, 2, 2, 4, 4, 2]
  const END64: Format := [4, 8, 2, 2, 4, 4, 8, 8, 8, 8]
  const LOCATOR: Format := [4, 4, 8, 4]

  lemma FormatSizes()
    ensures Size(LOCAL) == 30 && Size(CENTRAL) == 46 && Size(END) == 22 && Size(END64) == 56 && Size(LOCATOR) == 20
  {
    hide Size;
    SizeOfFour(LOCAL);
    SizeOfFour(LOCAL[4..]);
    SizeOfFour(LOCAL[8..]);
    assert LOCAL[4..][4..] == LOCAL[8..] && LOCAL[8..][4..] == [];
    SizeOfFour(CENTRAL);
    SizeOfFour(CENTRAL[4..]);
    SizeOfFour(CENTRAL[8..]);
    SizeOfFour(CENTRAL[12..]);
    assert CENTRAL[4..][4..] == CENTRAL[8..] && CENTRAL[8..][4..] == CENTRAL[12..] && CENTRAL[12..][4..] == [2, 4, 4];
    SizeOfFour(END);
    SizeOfFour(END[4..]);
    assert END[4..][4..] == [];
    SizeOfFour(END64);
    SizeOfFour(END64[4..]);
    assert END64[4..][4..] == [8, 8];
    SizeOfFour(LOCATOR);
    assert LOCATOR[4..] == [];
    SmallSizes();
  }

  lemma SmallSizes()
    ensures Size([]) == 0 && Size([8, 8]) == 16 && Size([2, 4, 4]) == 10
  {
    assert [8, 8][1..] == [8] && [8][1..] == [];
    assert [2, 4, 4][1..] == [4, 4] && [4, 4][1..] == [4] && [4][1..] == [];
  }

  const LOCAL_SIGNATURE := 0x0403_4b50
  const DESCRIPTOR_SIGNATURE := 0x0807_4b50
  const CENTRAL_SIGNATURE := 0x0201_4b50
  const END_SIGNATURE := 0x0605_4b50
  const END64_SIGNATURE := 0x0606_4b50
  const LOCATOR_SIGNATURE := 0x0706_4b50

  /** What the writer remembers of an entry. A streamed entry carries its sizes in a descriptor. */
  datatype Info = Info(
    name: seq<Byte>, utf8: bool, streamed: bool, time: nat, date: nat,
    crc: nat, compressSize: nat, fileSize: nat, headerOffset: nat, externalAttr: nat)

  /** The fields a ZIP archive has room for. */
  ghost predicate Storable(info: Info) {
    && |info.name| < 0x1_0000 && info.time < 0x1_0000 && info.date < 0x1_0000
    && info.crc < 0x1_0000_0000 && info.externalAttr < 0x1_0000_0000
    && info.compressSize < 0x1_0000_0000_0000_0000 && info.fileSize < 0x1_0000_0000_0000_0000
    && info.headerOffset < 0x1_0000_0000_0000_0000
  }

  function Flags(info: Info): nat {
    (if info.streamed then 0x08 else 0) + (if info.utf8 then 0x800 else 0)
  }

  predicate LargeSizes(info: Info) {
    info.fileSize > LIMIT32 || info.compressSize > LIMIT32
  }

  // ---------------------------------------------------------------- local entries

  function LocalExtra(info: Info): seq<Byte> {
    if !info.streamed && LargeSizes(info) then Pack([1, 16, info.fileSize, info.compressSize], [2, 2, 8, 8]) else []
  }

  function LocalValues(info: Info): seq<nat> {
    var wide := !info.streamed && LargeSizes(info);
    [LOCAL_SIGNATURE, if wide then 45 else 20, 0, Flags(info), 8, info.time, info.date,
     if info.streamed then 0 else info.crc,
     if info.streamed then 0 else if wide then MAX32 else info.compressSize,
     if info.streamed then 0 else if wide then MAX32 else info.fileSize,
     |info.name|, |LocalExtra(info)|]
  }

  function LocalHeader(info: Info): seq<Byte> {
    Pack(LocalValues(info), LOCAL) + info.name + LocalExtra(info)
  }

  function Descriptor(info: Info, wide: bool): seq<Byte> {
    Pack([DESCRIPTOR_SIGNATURE, info.crc, info.compressSize, info.fileSize], if wide then [4, 4, 8, 8] else [4, 4, 4, 4])
  }

  /** An entry as it lies in the output. */
  datatype Local = Local(info: Info, payload: seq<Byte>, wide: bool)

  function LocalBytes(l: Local): seq<Byte> {
    LocalHeader(l.info) + l.payload + if l.info.streamed then Descriptor(l.info, l.wide) else []
  }

  function AllLocals(ls: seq<Local>): seq<Byte> {
    if ls == [] then [] else AllLocals(ls[..|ls| - 1]) + LocalBytes(ls[|ls| - 1])
  }

  // ---------------------------------------------------------------- central directory

  function CentralLarge(info: Info): seq<nat> {
    (if LargeSizes(info) then [info.fileSize, info.compressSize] else []) +
    (if info.headerOffset > LIMIT32 then [info.headerOffset] else [])
  }

  function Eights(n: nat): Format {
    if n == 0 then [] else [8] + Eights(n - 1)
  }

  lemma {:induction false} EightsSize(n: nat)
    ensures |Eights(n)| == n && Size(Eights(n)) == 8 * n && forall i | 0 <= i < n :: Eights(n)[i] == 8
  {
    if n > 0 {
      EightsSize(n - 1);
      assert Eights(n)[1..] == Eights(n - 1);
    }
  }

  function CentralExtra(info: Info): seq<Byte> {
    var large := CentralLarge(info);
    EightsSize(|large|);
    if large == [] then [] else Pack([1, 8 * |large|] + large, [2, 2] + Eights(|large|))
  }

  function CentralValues(info: Info): seq<nat> {
    var version := if CentralLarge(info) == [] then 20 else 45;
    [CENTRAL_SIGNATURE, version, 3, version, 0, Flags(info), 8, info.time, info.date, info.crc,
     if LargeSizes(info) then MAX32 else info.compressSize,
     if LargeSizes(info) then MAX32 else info.fileSize,
     |info.name|, |CentralExtra(info)|, 0, 0, 0, info.externalAttr,
     if info.headerOffset > LIMIT32 then MAX32 else info.headerOffset]
  }

  function CentralBytes(info: Info): seq<Byte> {
    Pack(CentralValues(info), CENTRAL) + info.name + CentralExtra(info)
  }

  function Directory(infos: seq<Info>): seq<Byte> {
    if infos == [] then [] else CentralBytes(infos[0]) + Directory(infos[1..])
  }

  lemma {:induction false} DirectoryGrows(infos: seq<Info>, info: Info)
    ensures Directory(infos + [info]) == Directory(infos) + CentralBytes(info)
  {
    hide CentralBytes;
    if infos == [] {
      assert [info][1..] == [];
      assert infos + [info] == [info];
    } else {
      assert (infos + [info])[0] == infos[0] && (infos + [info])[1..] == infos[1..] + [info];
      DirectoryGrows(infos[1..], info);
    }
  }

  // ---------------------------------------------------------------- end of the archive

  predicate Escapes(count: nat, offset: nat, size: nat) {
    count > COUNT_LIMIT || offset > LIMIT32 || size > LIMIT32
  }

  function Min(a: nat, b: nat): nat { if a < b then a else b }

  function End64Values(count: nat, offset: nat, size: nat): seq<nat> {
    [END64_SIGNATURE, 44, 45, 45, 0, 0, count, count, size, offset]
  }

  function LocatorValues(at: nat): seq<nat> {
    [LOCATOR_SIGNATURE, 0, at, 1]
  }

  function EndRecord64(count: nat, offset: nat, size: nat): seq<Byte> {
    Pack(End64Values(count, offset, size), END64) + Pack(LocatorValues(offset + size), LOCATOR)
  }

  function EndRecord(count: nat, offset: nat, size: nat): seq<Byte> {
    if Escapes(count, offset, size) then
      Pack([END_SIGNATURE, 0, 0, Min(count, 0xffff), Min(count, 0xffff), Min(size, MAX32), Min(offset, MAX32), 0], END)
    else
      Pack([END_SIGNATURE, 0, 0, count, count, size, offset, 0], END)
  }

  function Closing(infos: seq<Info>, offset: nat): seq<Byte> {
    var size := |Directory(infos)|;
    Directory(infos) +
    (if Escapes(|infos|, offset, size) then EndRecord64(|infos|, offset, size) else []) +
    EndRecord(|infos|, offset, size)
  }

  // ---------------------------------------------------------------- the stream

  /** A chunk of input with what the compressor returned for it. */
  datatype Chunk = Chunk(raw: seq<Byte>, packed: seq<Byte>)

  function RawSize(chunks: seq<Chunk>): nat {
    if chunks == [] then 0 else RawSize(chunks[..|chunks| - 1]) + |chunks[|chunks| - 1].raw|
  }

  function Packed(chunks: seq<Chunk>): seq<Byte> {
    if chunks == [] then []
    else Packed(chunks[..|chunks| - 1]) + if chunks[|chunks| - 1].raw == [] then [] else chunks[|chunks| - 1].packed
  }

  function Checksum(chunks: seq<Chunk>, crc32: (seq<Byte>, nat) -> nat): nat {
    if chunks == [] then 0
    else if chunks[|chunks| - 1].raw == [] then Checksum(chunks[..|chunks| - 1], crc32)
    else crc32(chunks[|chunks| - 1].raw, Checksum(chunks[..|chunks| - 1], crc32)) % 0x1_0000_0000
  }

  lemma NoChunks(crc32: (seq<Byte>, nat) -> nat)
    ensures RawSize([]) == 0 && Packed([]) == [] && Checksum([], crc32) == 0
  {}

  lemma NextChunk(chunks: seq<Chunk>, i: nat, crc32: (seq<Byte>, nat) -> nat)
    requires i < |chunks|
    ensures RawSize(chunks[..i + 1]) == RawSize(chunks[..i]) + |chunks[i].raw|
    ensures Packed(chunks[..i + 1]) == if chunks[i].raw == [] then Packed(chunks[..i]) else Packed(chunks[..i]) + chunks[i].packed
    ensures Checksum(chunks[..i + 1], crc32) ==
      if chunks[i].raw == [] then Checksum(chunks[..i], crc32) else crc32(chunks[i].raw, Checksum(chunks[..i], crc32)) % 0x1_0000_0000
  {
    assert chunks[..i + 1][..i] == chunks[..i] && chunks[..i + 1][i] == chunks[i];
  }

  /** The input of a stream and what the compressor returned for it, chunk after chunk; an empty chunk returns nothing. */
  function Raw(chunks: seq<Chunk>): seq<Byte> {
    if chunks == [] then [] else chunks[0].raw + Raw(chunks[1..])
  }

  function Returned(chunks: seq<Chunk>): seq<Byte> {
    if chunks == [] then [] else (if chunks[0].raw != [] then chunks[0].packed else []) + Returned(chunks[1..])
  }

  /** Checksums can be taken piece by piece, as those of zlib can. */
  ghost predicate Chains(crc32: (seq<Byte>, nat) -> nat) {
    && (forall a, c :: crc32(a, c) < 0x1_0000_0000)
    && (forall c | c < 0x1_0000_0000 :: crc32([], c) == c)
    && (forall a, b, c :: crc32(a + b, c) == crc32(b, crc32(a, c)))
  }

  lemma {:induction false} RawLast(chunks: seq<Chunk>, last: Chunk)
    ensures Raw(chunks + [last]) == Raw(chunks) + last.raw
    ensures Returned(chunks + [last]) == Returned(chunks) + if last.raw != [] then last.packed else []
  {
    if chunks == [] {
      assert chunks + [last] == [last] && [last][1..] == [];
    } else {
      assert (chunks + [last])[0] == chunks[0] && (chunks + [last])[1..] == chunks[1..] + [last];
      RawLast(chunks[1..], last);
    }
  }

  /** What is measured does not depend on how the input was cut: the size and the checksum are those of the whole
      input, and the packed data is all that the compressor returned. */
  lemma {:induction false} ChunksMeasured(chunks: seq<Chunk>, crc32: (seq<Byte>, nat) -> nat)
    requires Chains(crc32)
    ensures RawSize(chunks) == |Raw(chunks)| && Packed(chunks) == Returned(chunks)
    ensures Checksum(chunks, crc32) == crc32(Raw(chunks), 0)
  {
    hide Raw, Returned, Chains;
    if chunks == [] {
      NothingMeasured(crc32);
    } else {
      var init, last := chunks[..|chunks| - 1], chunks[|chunks| - 1];
      assert chunks == init + [last];
      ChunksMeasured(init, crc32);
      RawLast(init, last);
      ChecksumGoesOn(Raw(init), last.raw, crc32);
    }
  }

  lemma NothingMeasured(crc32: (seq<Byte>, nat) -> nat)
    requires Chains(crc32)
    ensures Raw([]) == [] && Returned([]) == [] && crc32([], 0) == 0
  {}

  lemma ChecksumGoesOn(a: seq<Byte>, b: seq<Byte>, crc32: (seq<Byte>, nat) -> nat)
    requires Chains(crc32)
    ensures crc32(a + b, 0) == crc32(b, crc32(a, 0)) % 0x1_0000_0000
    ensures b == [] ==> crc32(a + b, 0) == crc32(a, 0)
  {
    assert b == [] ==> a + b == a;
  }

  /** Sizes that a descriptor of the given width has room for. */
  predicate Describable(info: Info, wide: bool) {
    info.streamed && !wide ==> info.compressSize < 0x1_0000_0000 && info.fileSize < 0x1_0000_0000
  }

  ghost predicate Proper(l: Local) {
    Storable(l.info) && l.info.compressSize == |l.payload| && Describable(l.info, l.wide)
  }

  /** What the writer remembers is what lies in the output: where each entry begins, how large its
      payload is, and that its sizes fit where they are written. */
  ghost predicate Consistent(ls: seq<Local>, infos: seq<Info>) {
    && |ls| == |infos|
    && forall i | 0 <= i < |ls| ::
         ls[i].info == infos[i] && Proper(ls[i]) && infos[i].headerOffset == |AllLocals(ls[..i])|
  }

  lemma Joined(ls: seq<Local>, infos: seq<Info>, l: Local)
    requires Consistent(ls, infos)
    requires Proper(l) && l.info.headerOffset == |AllLocals(ls)|
    ensures Consistent(ls + [l], infos + [l.info]) && AllLocals(ls + [l]) == AllLocals(ls) + LocalBytes(l)
  {
    hide LocalBytes, Proper, AllLocals;
    forall i | 0 <= i < |ls| ensures (ls + [l])[..i] == ls[..i] {}
    assert (ls + [l])[..|ls|] == ls;
    LocalsGrow(ls, l);
  }

  lemma LocalsGrow(ls: seq<Local>, l: Local)
    ensures AllLocals(ls + [l]) == AllLocals(ls) + LocalBytes(l)
  {
    hide LocalBytes;
    assert (ls + [l])[..|ls|] == ls;
  }

  class ZipStream {
    var filelist: seq<Info>
    var dataP: nat
    ghost var out: seq<Byte>
    ghost var locals: seq<Local>

    /** The output so far is the local entries one after another, and the writer knows them all. */
    ghost predicate Valid()
      reads this
    {
      dataP == |out| && out == AllLocals(locals) && Consistent(locals, filelist)
    }

    constructor ()
      ensures Valid() && filelist == [] && out == []
    {
      filelist, dataP, out, locals := [], 0, [], [];
    }

    method GetData(data: seq<Byte>) returns (same: seq<Byte>)
      modifies this`dataP, this`out
      ensures same == data && dataP == old(dataP) + |data| && out == old(out) + data
    {
      dataP := dataP + |data|;
      out := out + data;
      same := data;
    }

    /** The loop the streaming methods share: chunks are counted, checksummed, packed and sent; an
        empty chunk is skipped. */
    method SendChunks(chunks: seq<Chunk>, flush: seq<Byte>, crc32: (seq<Byte>, nat) -> nat)
      returns (data: seq<Byte>, crc: nat, compressSize: nat, fileSize: nat)
      requires dataP == |out|
      modifies this`dataP, this`out
      ensures dataP == |out| && out == old(out) + data
      ensures data == Packed(chunks) + flush && compressSize == |data|
      ensures crc == Checksum(chunks, crc32) && fileSize == RawSize(chunks)
    {
      hide Packed, Checksum, RawSize;
      data, crc, compressSize, fileSize := [], 0, 0, 0;
      NoChunks(crc32);
      assert chunks[..0] == [];
      for i := 0 to |chunks|
        invariant dataP == |out| && out == old(out) + data
        invariant data == Packed(chunks[..i]) && compressSize == |data|
        invariant crc == Checksum(chunks[..i], crc32) && fileSize == RawSize(chunks[..i])
      {
        NextChunk(chunks, i, crc32);
        if chunks[i].raw == [] { continue; }
        fileSize := fileSize + |chunks[i].raw|;
        crc := crc32(chunks[i].raw, crc) % 0x1_0000_0000;
        compressSize := compressSize + |chunks[i].packed|;
        var sent := GetData(chunks[i].packed);
        data := data + sent;
      }
      assert chunks[..|chunks|] == chunks;
      var last := GetData(flush);
      compressSize, data := compressSize + |flush|, data + last;
    }

    /** A header without sizes, the packed chunks, and a descriptor; `widens` decides its width. */
    method CompressChunks(blank: Info, chunks: seq<Chunk>, flush: seq<Byte>, crc32: (seq<Byte>, nat) -> nat, widens: (nat, nat) -> bool)
      returns (data: seq<Byte>)
      requires Valid() && blank.streamed && blank.headerOffset == dataP
      requires var info := Measured(blank, chunks, flush, crc32);
        Storable(info) && Describable(info, widens(info.fileSize, info.compressSize))
      modifies this
      ensures Valid() && out == old(out) + data
      ensures var info := Measured(blank, chunks, flush, crc32);
        && filelist == old(filelist) + [info]
        && locals == old(locals) + [Local(info, Packed(chunks) + flush, widens(info.fileSize, info.compressSize))]
    {
      hide Storable, AllLocals, LocalBytes, LocalHeader, Descriptor, Checksum, RawSize, Packed, Consistent;
      var header := GetData(LocalHeader(blank));
      var payload, crc, compressSize, fileSize := SendChunks(chunks, flush, crc32);
      var info := blank.(crc := crc, compressSize := compressSize, fileSize := fileSize);
      var wide := widens(fileSize, compressSize);
      var descriptor := GetData(Descriptor(info, wide));
      data := header + payload + descriptor;
      StreamedLocal(blank, info, payload, wide);
      assert out == AllLocals(locals) + LocalBytes(Local(info, payload, wide));
      Joined(locals, filelist, Local(info, payload, wide));
      filelist, locals := filelist + [info], locals + [Local(info, payload, wide)];
    }

    /** compress_stream: the descriptor is wide when the file is large. */
    method CompressStream(
        name: seq<Byte>, utf8: bool, time: nat, date: nat, chunks: seq<Chunk>, flush: seq<Byte>, crc32: (seq<Byte>, nat) -> nat)
      returns (data: seq<Byte>)
      requires Valid() && Storable(Measured(Blank(name, utf8, time, date, dataP, OWNER_ONLY), chunks, flush, crc32))
      requires RawSize(chunks) <= LIMIT32 ==> |Packed(chunks) + flush| < 0x1_0000_0000
      modifies this
      ensures Valid() && out == old(out) + data
      ensures var info := Measured(Blank(name, utf8, time, date, old(dataP), OWNER_ONLY), chunks, flush, crc32);
        && filelist == old(filelist) + [info]
        && locals == old(locals) + [Local(info, Packed(chunks) + flush, info.fileSize > LIMIT32)]
    {
      data := CompressChunks(Blank(name, utf8, time, date, dataP, OWNER_ONLY), chunks, flush, crc32, (file, packed) => file > LIMIT32);
    }

    /** compress_file and compress_buffer: the descriptor is wide when either size is large. */
    method CompressFile(
        name: seq<Byte>, utf8: bool, time: nat, date: nat, attr: nat, chunks: seq<Chunk>, flush: seq<Byte>, crc32: (seq<Byte>, nat) -> nat)
      returns (data: seq<Byte>)
      requires Valid() && Storable(Measured(Blank(name, utf8, time, date, dataP, attr), chunks, flush, crc32))
      modifies this
      ensures Valid() && out == old(out) + data
      ensures var info := Measured(Blank(name, utf8, time, date, old(dataP), attr), chunks, flush, crc32);
        && filelist == old(filelist) + [info]
        && locals == old(locals) + [Local(info, Packed(chunks) + flush, LargeSizes(info))]
    {
      data := CompressChunks(Blank(name, utf8, time, date, dataP, attr), chunks, flush, crc32,
                             (file, packed) => file > LIMIT32 || packed > LIMIT32);
    }

    /** compress_string: everything is known in advance, so the header carries the sizes. */
    method CompressString(name: seq<Byte>, utf8: bool, time: nat, date: nat, fileSize: nat, crc: nat, packed: seq<Byte>)
      returns (data: seq<Byte>)
      requires Valid() && Storable(Info(name, utf8, false, time, date, crc, |packed|, fileSize, dataP, OWNER_ONLY))
      modifies this
      ensures Valid() && out == old(out) + data
      ensures var info := Info(name, utf8, false, time, date, crc, |packed|, fileSize, old(dataP), OWNER_ONLY);
        filelist == old(filelist) + [info] && locals == old(locals) + [Local(info, packed, false)]
    {
      hide Storable, AllLocals, LocalHeader, Consistent;
      var info := Info(name, utf8, false, time, date, crc, |packed|, fileSize, dataP, OWNER_ONLY);
      var header := GetData(LocalHeader(info));
      var payload := GetData(packed);
      data := header + payload;
      assert out == AllLocals(locals) + LocalBytes(Local(info, packed, false));
      Joined(locals, filelist, Local(info, packed, false));
      filelist, locals := filelist + [info], locals + [Local(info, packed, false)];
    }

    /** close_stream: the central directory and the end records. */
    method CloseStream() returns (data: seq<Byte>)
      requires Valid()
      modifies this`dataP, this`out
      ensures data == Closing(filelist, |old(out)|) && out == old(out) + data && dataP == |out|
    {
      hide AllLocals, CentralBytes, Consistent, EndRecord, EndRecord64;
      data := [];
      var pos1 := dataP;
      for i := 0 to |filelist|
        invariant dataP == |out| && out == old(out) + data && data == Directory(filelist[..i])
      {
        assert filelist[..i + 1] == filelist[..i] + [filelist[i]];
        DirectoryGrows(filelist[..i], filelist[i]);
        var entry := GetData(CentralBytes(filelist[i]));
        data := data + entry;
      }
      assert filelist[..|filelist|] == filelist;
      var size := dataP - pos1;
      if Escapes(|filelist|, pos1, size) {
        var records := GetData(EndRecord64(|filelist|, pos1, size));
        data := data + records;
      }
      var end := GetData(EndRecord(|filelist|, pos1, size));
      data := data + end;
    }
  }

  const OWNER_ONLY := 0x180 * 0x1_0000

  function Blank(name: seq<Byte>, utf8: bool, time: nat, date: nat, offset: nat, attr: nat): Info {
    Info(name, utf8, true, time, date, 0, 0, 0, offset, attr)
  }

  ghost function Measured(blank: Info, chunks: seq<Chunk>, flush: seq<Byte>, crc32: (seq<Byte>, nat) -> nat): Info {
    blank.(crc := Checksum(chunks, crc32), compressSize := |Packed(chunks) + flush|, fileSize := RawSize(chunks))
  }

  /** The header of a streamed entry does not depend on what is measured later. */
  lemma StreamedLocal(blank: Info, info: Info, payload: seq<Byte>, wide: bool)
    requires blank.streamed && info == blank.(crc := info.crc, compressSize := info.compressSize, fileSize := info.fileSize)
    ensures LocalBytes(Local(info, payload, wide)) == LocalHeader(blank) + payload + Descriptor(info, wide)
  {
    hide Pack;
    assert LocalExtra(info) == LocalExtra(blank) == [];
    assert LocalValues(info) == LocalValues(blank);
  }
}
