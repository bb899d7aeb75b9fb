/** Archives of exactly 65535 entries that the reader cannot read. */
module ZipWitness {
  import opened Options
  import opened Bytes
  import opened Zip
  import opened ZipReader
  import opened ZipEntries

  /** Fields before the length of the name in a directory entry, and fields from it on. */
  lemma NameLengthAt(bytes: seq<Byte>, pos: nat, info: Info)
    requires At(bytes, pos, Pack(CentralValues(info), CENTRAL))
    ensures At(bytes, pos + 28, LittleEndian(|info.name|, 2))
  {
    hide Pack, Size;
    var v := CentralValues(info);
    var a, b := v[..12], v[12..];
    var f, g := CENTRAL[..12], CENTRAL[12..];
    assert a + b == v && f + g == CENTRAL;
    PackConcat(a, f, b, g);
    FirstFields();
    AtSplits(bytes, pos, Pack(a, f), Pack(b, g));
    FirstField(b, g);
    AtSplits(bytes, pos + 28, LittleEndian(b[0], g[0]), Pack(b[1..], g[1..]));
  }

  lemma FirstFields()
    ensures Size(CENTRAL[..12]) == 28
  {
    hide Size;
    var f := CENTRAL[..12];
    SizeOfFour(f);
    SizeOfFour(f[4..]);
    SizeOfFour(f[8..]);
    assert f[4..][4..] == f[8..] && f[8..][4..] == [];
    SmallSizes();
  }

  lemma FirstField(values: seq<nat>, format: Format)
    requires |values| == |format| > 0
    ensures Pack(values, format) == LittleEndian(values[0], format[0]) + Pack(values[1..], format[1..])
  {}

  lemma SmallNumber(four: seq<Byte>)
    requires |four| == 4 && four[2] == 0 && four[3] == 0
    ensures FromLittleEndian(four) < 0x1_0000
  {
    assert four[1..][1..] == four[2..] && four[2..][1..] == four[3..] && four[3..][1..] == [];
    assert FromLittleEndian(four[3..]) == 0;
    assert FromLittleEndian(four[2..]) == 0;
    assert FromLittleEndian(four[1..]) == four[1];
  }

  lemma LocatorStart(bytes: seq<Byte>, pos: nat)
    requires pos + 20 <= |bytes|
    ensures Size(LOCATOR) == 20 && Unpack(bytes, pos, LOCATOR)[0] == FromLittleEndian(bytes[pos..pos + 4])
  {
    FormatSizes();
  }

  lemma PlainCentral(info: Info)
    requires info.name == [] && CentralLarge(info) == []
    ensures CentralBytes(info) == Pack(CentralValues(info), CENTRAL) && |CentralBytes(info)| == 46
  {
    hide Pack, Size;
    FormatSizes();
  }

  /** The end of the directory: its last entry, of an empty name and without extra data, is 46 bytes. */
  lemma LastEntryAt(bytes: seq<Byte>, locals: seq<Byte>, infos: seq<Info>)
    requires Tiled(bytes, locals, infos) && infos != [] && !Escapes(|infos|, |locals|, |Directory(infos)|)
    requires var last := infos[|infos| - 1]; last.name == [] && CentralLarge(last) == []
    ensures |bytes| >= 68 && At(bytes, |bytes| - 68, Pack(CentralValues(infos[|infos| - 1]), CENTRAL))
  {
    hide EndRecord, EndRecord64, Pack, Size, Tiled, At, CentralBytes, Directory;
    var init, last := infos[..|infos| - 1], infos[|infos| - 1];
    assert infos == init + [last];
    Layout(bytes, locals, infos);
    EndSizes(|infos|, |locals|, |Directory(infos)|);
    DirectoryGrows(init, last);
    PlainCentral(last);
    AtSplits(bytes, |locals|, Directory(init), CentralBytes(last));
  }

  /** An ambiguous archive whose last entry has an empty name and small numbers cannot be read, whatever else is in it. */
  lemma AmbiguousUnnamed(bytes: seq<Byte>, locals: seq<Byte>, infos: seq<Info>)
    requires Tiled(bytes, locals, infos) && Ambiguous(|infos|, |locals|, |Directory(infos)|)
    requires var last := infos[|infos| - 1]; last.name == [] && CentralLarge(last) == []
    ensures Read(bytes).None?
  {
    hide Directory, Tiled, Read, Pack, Unpack, Size, CentralValues, CentralLarge;
    var last := infos[|infos| - 1];
    LastEntryAt(bytes, locals, infos);
    NameLengthAt(bytes, |bytes| - 68, last);
    var four := bytes[|bytes| - 42..|bytes| - 38];
    assert LittleEndian(0, 2) == [0, 0] by { assert LittleEndian(0, 1) == [0]; }
    assert bytes[|bytes| - 40..|bytes| - 38] == [0, 0];
    assert four[2] == bytes[|bytes| - 40..|bytes| - 38][0] && four[3] == bytes[|bytes| - 40..|bytes| - 38][1];
    SmallNumber(four);
    LocatorStart(bytes, |bytes| - 42);
    AmbiguousFails(bytes, locals, infos);
  }

  // ---------------------------------------------------------------- one such archive

  function Nameless(i: nat): Info {
    Info([], false, false, 0, 0, 0, 0, 0, 30 * i, 0)
  }

  function NamelessLocals(n: nat): seq<Local> {
    if n == 0 then [] else NamelessLocals(n - 1) + [Local(Nameless(n - 1), [], false)]
  }

  function NamelessInfos(n: nat): seq<Info> {
    if n == 0 then [] else NamelessInfos(n - 1) + [Nameless(n - 1)]
  }

  lemma NamelessSizes(i: nat)
    requires i < 0x1_0000
    ensures |LocalBytes(Local(Nameless(i), [], false))| == 30 && |CentralBytes(Nameless(i))| == 46
    ensures CentralLarge(Nameless(i)) == [] && Proper(Local(Nameless(i), [], false))
  {
    hide Pack, Size;
    FormatSizes();
  }

  lemma NoEntries()
    ensures Consistent([], []) && AllLocals([]) == [] && Directory([]) == []
  {}

  lemma {:induction false} NamelessArchive(n: nat)
    requires n < 0x1_0000
    ensures Consistent(NamelessLocals(n), NamelessInfos(n))
    ensures |NamelessInfos(n)| == n && |AllLocals(NamelessLocals(n))| == 30 * n && |Directory(NamelessInfos(n))| == 46 * n
  {
    hide LocalBytes, CentralBytes, Proper, AllLocals, Directory, Consistent;
    if n == 0 {
      NoEntries();
    } else {
      NamelessArchive(n - 1);
      NamelessSizes(n - 1);
      Joined(NamelessLocals(n - 1), NamelessInfos(n - 1), Local(Nameless(n - 1), [], false));
      DirectoryGrows(NamelessInfos(n - 1), Nameless(n - 1));
    }
  }

  /** 65535 empty entries with empty names, written like any others, cannot be read back; one entry less can. */
  lemma FullArchiveFails()
    ensures Consistent(NamelessLocals(0xffff), NamelessInfos(0xffff))
    ensures Read(Archive(NamelessLocals(0xffff), NamelessInfos(0xffff))).None?
    ensures Read(Archive(NamelessLocals(0xfffe), NamelessInfos(0xfffe))) == Some(AllFound(NamelessInfos(0xfffe)))
  {
    hide NamelessLocals, Closing, Directory, AllLocals, Read, AllFound, Consistent, CentralLarge;
    NamelessArchive(0xffff);
    NamelessArchive(0xfffe);
    LastNameless(0xffff);
    var ls, infos := NamelessLocals(0xffff), NamelessInfos(0xffff);
    AmbiguousUnnamed(Archive(ls, infos), AllLocals(ls), infos);
    var ls', infos' := NamelessLocals(0xfffe), NamelessInfos(0xfffe);
    ConsistentStorable(ls', infos');
    ArchiveReadBack(Archive(ls', infos'), AllLocals(ls'), infos');
  }

  lemma LastNameless(n: nat)
    requires 0 < n < 0x1_0000
    ensures NamelessInfos(n) != [] && NamelessInfos(n)[|NamelessInfos(n)| - 1] == Nameless(n - 1) && CentralLarge(Nameless(n - 1)) == []
  {}

  lemma ConsistentStorable(ls: seq<Local>, infos: seq<Info>)
    requires Consistent(ls, infos)
    ensures forall info | info in infos :: Storable(info)
  {
    hide AllLocals, Storable;
    forall info | info in infos ensures Storable(info) {
      var i :| 0 <= i < |infos| && infos[i] == info;
      assert Proper(ls[i]);
    }
  }
}
