/** Reading the entries themselves: local headers, compressed data and data descriptors. */
module ZipEntries {
  import opened Options
  import opened Bytes
  import opened Zip
  import opened ZipReader

  // ---------------------------------------------------------------- where entries lie

  lemma {:induction false} LocalsPrefix(ls: seq<Local>, i: nat)
    requires i <= |ls|
    ensures AllLocals(ls[..i]) <= AllLocals(ls)
    decreases |ls|
  {
    hide LocalBytes;
    if i == |ls| {
      assert ls[..i] == ls;
    } else {
      var init := ls[..|ls| - 1];
      assert init[..i] == ls[..i];
      LocalsPrefix(init, i);
    }
  }

  /** Every entry lies where the writer says it does, and the next one follows at once. */
  lemma LocalAt(ls: seq<Local>, i: nat)
    requires i < |ls|
    ensures At(AllLocals(ls), |AllLocals(ls[..i])|, LocalBytes(ls[i]))
    ensures |AllLocals(ls[..i + 1])| == |AllLocals(ls[..i])| + |LocalBytes(ls[i])|
  {
    hide LocalBytes;
    LocalsPrefix(ls, i + 1);
    assert ls[..i + 1][..i] == ls[..i] && ls[..i + 1][i] == ls[i];
    var before, upTo, all := AllLocals(ls[..i]), AllLocals(ls[..i + 1]), AllLocals(ls);
    assert upTo == before + LocalBytes(ls[i]);
    assert all[..|upTo|] == upTo;
    assert all[|before|..|before| + |LocalBytes(ls[i])|] == upTo[|before|..];
  }

  // ---------------------------------------------------------------- local headers

  /** A local header: whether a descriptor follows the data, what the header says, where the data begins. */
  datatype Header = Header(
    name: seq<Byte>, streamed: bool, utf8: bool, compression: nat, time: nat, date: nat,
    crc: nat, compressSize: nat, fileSize: nat, start: nat)

  function DecodeLocal(bytes: seq<Byte>, pos: nat, f: seq<nat>): Option<Header>
    requires |f| == 12
  {
    var namePos := pos + 30;
    var extraPos := namePos + f[10];
    var start := extraPos + f[11];
    if f[0] != LOCAL_SIGNATURE || start > |bytes| then None
    else match LargeValues(bytes, extraPos, f[11])
      case None => None
      case Some(large) =>
        match (Widened(f[9], large, 0), Widened(f[8], large, if f[9] == MAX32 then 1 else 0))
        case (Some(fileSize), Some(compressSize)) =>
          Some(Header(bytes[namePos..extraPos], Bit(f[3], 3), Bit(f[3], 11), f[4], f[5], f[6], f[7], compressSize, fileSize, start))
        case _ => None
  }

  function ReadLocal(bytes: seq<Byte>, pos: nat): Option<Header> {
    FormatSizes();
    hide Size, Unpack, DecodeLocal;
    if pos + 30 > |bytes| then None else DecodeLocal(bytes, pos, Unpack(bytes, pos, LOCAL))
  }

  lemma LocalFits(info: Info)
    requires Storable(info)
    ensures Fits(LocalValues(info), LOCAL)
  {
    hide Pack;
    Bounds();
    assert [2, 2, 8, 8][4..] == [];
    SizeOfFour([2, 2, 8, 8]);
    assert Size([]) == 0;
    assert |LocalExtra(info)| <= 20;
  }

  function LocalLarge(info: Info): seq<nat> {
    if !info.streamed && LargeSizes(info) then [info.fileSize, info.compressSize] else []
  }

  lemma LocalExtraReadBack(bytes: seq<Byte>, pos: nat, info: Info)
    requires Storable(info) && At(bytes, pos, LocalExtra(info))
    ensures LargeValues(bytes, pos, |LocalExtra(info)|) == Some(LocalLarge(info))
  {
    hide Pack, Unpack, LargeValues;
    if LocalLarge(info) != [] {
      var large := [info.fileSize, info.compressSize];
      EightsSize(2);
      assert Eights(2) == [8, 8] && Eights(1) == [8];
      assert [1, 16] + large == [1, 16, info.fileSize, info.compressSize];
      assert [2, 2] + Eights(2) == [2, 2, 8, 8];
      LargeReadBack(bytes, pos, large);
    } else {
      NoLargeValues(bytes, pos);
    }
  }

  function AsHeader(info: Info, start: nat): Header {
    Header(info.name, info.streamed, info.utf8, DEFLATED, info.time, info.date, if info.streamed then 0 else info.crc,
           if info.streamed then 0 else info.compressSize, if info.streamed then 0 else info.fileSize, start)
  }

  lemma DecodeLocalBack(bytes: seq<Byte>, pos: nat, info: Info)
    requires Storable(info) && At(bytes, pos + 30, info.name)
    requires pos + 30 + |info.name| + |LocalExtra(info)| <= |bytes|
    requires LargeValues(bytes, pos + 30 + |info.name|, |LocalExtra(info)|) == Some(LocalLarge(info))
    ensures DecodeLocal(bytes, pos, LocalValues(info)) == Some(AsHeader(info, pos + 30 + |info.name| + |LocalExtra(info)|))
  {
    hide LargeValues, LocalExtra, Bit, Flags;
    FlagBits(info);
  }

  /** A local header gives the name, flags, method, time and date and, unless the entry is streamed, the checksum and both sizes, through the
      ZIP64 extra field when they are large. */
  lemma LocalReadBack(bytes: seq<Byte>, pos: nat, info: Info)
    requires Storable(info) && At(bytes, pos, LocalHeader(info))
    ensures ReadLocal(bytes, pos) == Some(AsHeader(info, pos + |LocalHeader(info)|))
  {
    hide Pack, Unpack, Size, LocalExtra, LargeValues, DecodeLocal, Storable;
    FormatSizes();
    var fixed, name, extra := Pack(LocalValues(info), LOCAL), info.name, LocalExtra(info);
    AtSplits(bytes, pos, fixed + name, extra);
    AtSplits(bytes, pos, fixed, name);
    LocalFits(info);
    RecordRoundTrip(bytes, pos, LocalValues(info), LOCAL);
    LocalExtraReadBack(bytes, pos + 30 + |name|, info);
    DecodeLocalBack(bytes, pos, info);
  }

  // ---------------------------------------------------------------- data descriptors

  function DescriptorFormat(wide: bool): Format {
    if wide then [4, 4, 8, 8] else [4, 4, 4, 4]
  }

  lemma DescriptorSizes()
    ensures Size(DescriptorFormat(true)) == 24 && Size(DescriptorFormat(false)) == 16
  {
    SizeOfFour([4, 4, 8, 8]);
    SizeOfFour([4, 4, 4, 4]);
    assert [4, 4, 8, 8][4..] == [] && [4, 4, 4, 4][4..] == [];
  }

  /** Checksum, both sizes and the position after the descriptor. */
  datatype Described = Described(crc: nat, compressSize: nat, fileSize: nat, end: nat)

  function ReadDescriptor(bytes: seq<Byte>, pos: nat, wide: bool): Option<Described> {
    DescriptorSizes();
    hide Size, Unpack;
    if pos + Size(DescriptorFormat(wide)) > |bytes| then None
    else
      var f := Unpack(bytes, pos, DescriptorFormat(wide));
      if f[0] != DESCRIPTOR_SIGNATURE then None else Some(Described(f[1], f[2], f[3], pos + Size(DescriptorFormat(wide))))
  }

  /** A reader that takes the descriptor to be of a given width reads it correctly, values and end, if and only
      if that is the width it was written with. */
  lemma DescriptorReadBack(bytes: seq<Byte>, pos: nat, info: Info, wide: bool, guess: bool)
    requires Storable(info) && info.streamed && Describable(info, wide) && At(bytes, pos, Descriptor(info, wide))
    ensures var written := Described(info.crc, info.compressSize, info.fileSize, pos + |Descriptor(info, wide)|);
      ReadDescriptor(bytes, pos, guess) == Some(written) <==> guess == wide
  {
    hide Pack, Unpack, Size, Bound;
    DescriptorSizes();
    if guess == wide {
      Bounds();
      var v := [DESCRIPTOR_SIGNATURE, info.crc, info.compressSize, info.fileSize];
      assert Fits(v, DescriptorFormat(wide));
      RecordRoundTrip(bytes, pos, v, DescriptorFormat(wide));
    }
  }

  // ---------------------------------------------------------------- whole entries

  /** An entry as read from where it lies; `end` is the position after it. */
  datatype Content = Content(name: seq<Byte>, payload: seq<Byte>, crc: nat, compressSize: nat, fileSize: nat, end: nat)

  /** The entry whose local header is at `offset`; data that is not deflated is refused. The directory gives the size of the data; checksum and sizes come
      from the header or, for a streamed entry, from the descriptor after the data, taken to be of the given width. */
  function Extract(bytes: seq<Byte>, offset: nat, compressSize: nat, wide: bool): Option<Content> {
    match ReadLocal(bytes, offset)
    case None => None
    case Some(h) =>
      var end := h.start + compressSize;
      if h.compression != DEFLATED || end > |bytes| then None
      else
        var payload := bytes[h.start..end];
        if !h.streamed then Some(Content(h.name, payload, h.crc, h.compressSize, h.fileSize, end))
        else match ReadDescriptor(bytes, end, wide)
          case None => None
          case Some(d) => Some(Content(h.name, payload, d.crc, d.compressSize, d.fileSize, d.end))
  }

  function AsContent(l: Local, end: nat): Content {
    Content(l.info.name, l.payload, l.info.crc, l.info.compressSize, l.info.fileSize, end)
  }

  lemma EntryParts(bytes: seq<Byte>, offset: nat, l: Local)
    requires At(bytes, offset, LocalBytes(l))
    ensures var start := offset + |LocalHeader(l.info)|;
      && At(bytes, offset, LocalHeader(l.info)) && At(bytes, start, l.payload)
      && (l.info.streamed ==> At(bytes, start + |l.payload|, Descriptor(l.info, l.wide)))
      && |LocalBytes(l)| == |LocalHeader(l.info)| + |l.payload| + if l.info.streamed then |Descriptor(l.info, l.wide)| else 0
  {
    hide LocalHeader, Descriptor;
    var tail := if l.info.streamed then Descriptor(l.info, l.wide) else [];
    AtSplits(bytes, offset, LocalHeader(l.info) + l.payload, tail);
    AtSplits(bytes, offset, LocalHeader(l.info), l.payload);
  }

  /** An entry is read back with its data, checksum, both sizes and its end, if and only if the reader takes a
      descriptor, where there is one, to be of the width it has. */
  lemma EntryExtracted(bytes: seq<Byte>, offset: nat, l: Local, guess: bool)
    requires Proper(l) && At(bytes, offset, LocalBytes(l))
    ensures Extract(bytes, offset, l.info.compressSize, guess) == Some(AsContent(l, offset + |LocalBytes(l)|)) <==>
      (l.info.streamed ==> guess == l.wide)
  {
    hide LocalHeader, LocalBytes, Descriptor, ReadLocal, ReadDescriptor, Storable;
    EntryParts(bytes, offset, l);
    LocalReadBack(bytes, offset, l.info);
    if l.info.streamed {
      DescriptorReadBack(bytes, offset + |LocalHeader(l.info)| + |l.payload|, l.info, l.wide, guess);
    }
  }

  lemma ExtractedFrom(bytes: seq<Byte>, ls: seq<Local>, i: nat, guess: bool)
    requires i < |ls| && Proper(ls[i]) && ls[i].info.headerOffset == |AllLocals(ls[..i])| && At(bytes, 0, AllLocals(ls))
    ensures var content := AsContent(ls[i], |AllLocals(ls[..i + 1])|);
      Extract(bytes, ls[i].info.headerOffset, ls[i].info.compressSize, guess) == Some(content) <==>
        (ls[i].info.streamed ==> guess == ls[i].wide)
  {
    hide AllLocals, LocalBytes, Proper, Extract;
    LocalAt(ls, i);
    var locals, offset, piece := AllLocals(ls), ls[i].info.headerOffset, LocalBytes(ls[i]);
    assert bytes[0..|locals|][offset..offset + |piece|] == bytes[offset..offset + |piece|];
    EntryExtracted(bytes, offset, ls[i], guess);
  }

  lemma ConsistentAt(ls: seq<Local>, infos: seq<Info>, i: nat)
    requires Consistent(ls, infos) && i < |infos|
    ensures |ls| == |infos| && ls[i].info == infos[i] && Proper(ls[i]) && infos[i].headerOffset == |AllLocals(ls[..i])|
  {
    hide Proper, AllLocals;
  }

  /** The closed archive of some entries. */
  function Archive(ls: seq<Local>, infos: seq<Info>): seq<Byte> {
    AllLocals(ls) + Closing(infos, |AllLocals(ls)|)
  }

  /** A closed archive is read back completely: the directory lists every entry in order, and what it says of an
      entry leads to that entry's data, checksum, sizes and end, which is where the next entry begins, if and only
      if the reader takes the descriptor to be of the width it has. */
  lemma ArchiveExtracted(ls: seq<Local>, infos: seq<Info>, i: nat, guess: bool)
    requires Consistent(ls, infos) && Addressable(infos, |AllLocals(ls)|) && i < |infos|
    requires !Ambiguous(|infos|, |AllLocals(ls)|, |Directory(infos)|)
    ensures Read(Archive(ls, infos)) == Some(AllFound(infos)) && |AllFound(infos)| == |infos| == |ls|
    ensures var found := AllFound(infos)[i];
      var content := Content(found.name, ls[i].payload, found.crc, found.compressSize, found.fileSize, |AllLocals(ls[..i + 1])|);
      Extract(Archive(ls, infos), found.headerOffset, found.compressSize, guess) == Some(content) <==>
        (infos[i].streamed ==> guess == ls[i].wide)
  {
    hide Closing, AllLocals, Consistent, Directory, Extract, Read, Addressable, AllFound, Escapes;
    var locals := AllLocals(ls);
    var bytes := Archive(ls, infos);
    ArchiveReadBack(bytes, locals, infos);
    FoundAt(infos, i);
    ConsistentAt(ls, infos, i);
    assert At(bytes, 0, locals);
    ExtractedFrom(bytes, ls, i, guess);
  }

  // ---------------------------------------------------------------- how readers choose the width

  /** A reader that looks for the ZIP64 extra field of the local header (section 4.3.9.2) to learn the width. */
  predicate GuessFromHeader(info: Info) {
    LocalExtra(info) != []
  }

  /** A reader that looks for the ZIP64 sizes of the directory entry. */
  predicate GuessFromDirectory(info: Info) {
    LargeSizes(info)
  }

  /** Streamed headers never carry the extra field, so a reader guided by it fails exactly on wide descriptors. */
  lemma HeaderGuided(bytes: seq<Byte>, offset: nat, l: Local)
    requires Proper(l) && At(bytes, offset, LocalBytes(l))
    ensures Extract(bytes, offset, l.info.compressSize, GuessFromHeader(l.info)) == Some(AsContent(l, offset + |LocalBytes(l)|)) <==>
      !(l.info.streamed && l.wide)
  {
    hide LocalBytes, Extract, Proper;
    EntryExtracted(bytes, offset, l, GuessFromHeader(l.info));
  }

  /** A reader guided by the directory reads every file and buffer. */
  lemma DirectoryGuidedFile(bytes: seq<Byte>, offset: nat, l: Local)
    requires Proper(l) && At(bytes, offset, LocalBytes(l)) && (l.info.streamed ==> l.wide == LargeSizes(l.info))
    ensures Extract(bytes, offset, l.info.compressSize, GuessFromDirectory(l.info)) == Some(AsContent(l, offset + |LocalBytes(l)|))
  {
    hide LocalBytes, Extract, Proper;
    EntryExtracted(bytes, offset, l, GuessFromDirectory(l.info));
  }

  /** It reads a stream, whose descriptor is wide only when the raw size is large, if and only if the stream is not one
      that was small before compression and large after it. */
  lemma DirectoryGuidedStream(bytes: seq<Byte>, offset: nat, l: Local)
    requires Proper(l) && At(bytes, offset, LocalBytes(l)) && l.info.streamed && l.wide == (l.info.fileSize > LIMIT32)
    ensures Extract(bytes, offset, l.info.compressSize, GuessFromDirectory(l.info)) == Some(AsContent(l, offset + |LocalBytes(l)|)) <==>
      !(l.info.fileSize <= LIMIT32 && l.info.compressSize > LIMIT32)
  {
    hide LocalBytes, Extract, Proper;
    EntryExtracted(bytes, offset, l, GuessFromDirectory(l.info));
  }

  /** A large file in an empty stream: both kinds of readers, and which of them fails. */
  lemma WideDescriptor()
    ensures var info := Info([], false, true, 0, 0, 0, 0, 0x8000_0000, 0, 0);
      var l := Local(info, [], true);
      && Proper(l) && l.wide == LargeSizes(info)
      && Extract(LocalBytes(l), 0, 0, GuessFromHeader(info)) != Some(AsContent(l, |LocalBytes(l)|))
      && Extract(LocalBytes(l), 0, 0, GuessFromDirectory(info)) == Some(AsContent(l, |LocalBytes(l)|))
  {
    hide LocalBytes, Extract, GuessFromHeader, GuessFromDirectory;
    var l := Local(Info([], false, true, 0, 0, 0, 0, 0x8000_0000, 0, 0), [], true);
    assert At(LocalBytes(l), 0, LocalBytes(l));
    HeaderGuided(LocalBytes(l), 0, l);
    DirectoryGuidedFile(LocalBytes(l), 0, l);
  }

  /** A small stream that packs into 2 GiB: the directory misleads its reader. */
  lemma GrownStream()
    ensures var payload := seq(0x8000_0000, _ => 0);
      var info := Info([], false, true, 0, 0, 0, |payload|, 1, 0, 0);
      var l := Local(info, payload, false);
      Proper(l) && Extract(LocalBytes(l), 0, |payload|, GuessFromDirectory(info)) != Some(AsContent(l, |LocalBytes(l)|))
  {
    hide LocalBytes, Extract, GuessFromDirectory;
    var payload := seq(0x8000_0000, _ => 0);
    var l := Local(Info([], false, true, 0, 0, 0, |payload|, 1, 0, 0), payload, false);
    assert At(LocalBytes(l), 0, LocalBytes(l));
    DirectoryGuidedStream(LocalBytes(l), 0, l);
  }

  // ---------------------------------------------------------------- the stream and the reader

  /** What a reader gets from the bytes for one entry of the list the writer kept. */
  ghost predicate ReadsBack(bytes: seq<Byte>, ls: seq<Local>, infos: seq<Info>, i: nat)
    requires i < |ls| == |infos|
  {
    Extract(bytes, infos[i].headerOffset, infos[i].compressSize, ls[i].wide) == Some(AsContent(ls[i], |AllLocals(ls[..i + 1])|))
  }

  /** Closing any stream gives an archive from which the reader recovers the whole list of entries and, for each of
      them, its name, data, checksum and sizes. */
  method CloseAndRead(z: ZipStream) returns (data: seq<Byte>)
    requires z.Valid() && Addressable(z.filelist, |z.out|) && !Ambiguous(|z.filelist|, |z.out|, |Directory(z.filelist)|)
    modifies z`dataP, z`out
    ensures z.out == old(z.out) + data
    ensures Read(z.out) == Some(AllFound(z.filelist)) && |z.locals| == |z.filelist|
    ensures forall i | 0 <= i < |z.filelist| :: ReadsBack(z.out, z.locals, z.filelist, i)
  {
    hide AllLocals, Closing, Directory, Read, AllFound, Extract, Addressable, Escapes;
    ghost var ls, infos, before := z.locals, z.filelist, z.out;
    data := z.CloseStream();
    assert z.out == Archive(ls, infos);
    assert At(z.out, 0, AllLocals(ls));
    ArchiveReadBack(z.out, before, infos);
    forall i | 0 <= i < |infos| ensures ReadsBack(z.out, ls, infos, i) {
      ConsistentAt(ls, infos, i);
      ExtractedFrom(z.out, ls, i, ls[i].wide);
    }
  }
}
