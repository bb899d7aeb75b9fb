/** The overall list of the most covered lines. */
module MostCovered {
  import opened Options
  import opened TopLines
  import opened Sequences
  import FileTree
  import FileTreeTheorems
  import TreeOrder

  /** A file, its number of covered lines, and the coverage of its lines if it was recorded. */
  datatype Source = Source(name: string, covered: int, lines: Option<seq<Item>>)

  predicate Parsed(f: Source) {
    f.covered > 0 && f.lines.Some?
  }

  /** The nonzero counts of all parsed files. */
  function AllCounts(files: seq<Source>): multiset<int> {
    if files == [] then multiset{}
    else
      var last := files[|files| - 1];
      AllCounts(files[..|files| - 1]) + if Parsed(last) then Nonzero(last.lines.value) else multiset{}
  }

  /** A line of a parsed file, as it is named in the result, with its count. */
  ghost predicate LineOf(files: seq<Source>, entry: Item) {
    exists f, item | f in files && Parsed(f) && item in f.lines.value :: entry == (Key(f.name, item.0), item.1)
  }

  /** How often a count occurs among the lines of one file. */
  function Times(items: seq<Item>, count: int): nat {
    |set i: nat | i < |items| && items[i].1 == count|
  }

  function TimesInAll(files: seq<Source>, count: int): nat {
    if files == [] then 0
    else (if files[0].covered > 0 && files[0].lines.Some? then Times(files[0].lines.value, count) else 0) + TimesInAll(files[1..], count)
  }

  lemma TimesNext(items: seq<Item>, item: Item, count: int)
    ensures Times(items + [item], count) == Times(items, count) + if item.1 == count then 1 else 0
    ensures items == [] ==> Times(items, count) == 0
  {
    var more, was := items + [item], set i: nat | i < |items| && items[i].1 == count;
    var now := set i: nat | i < |more| && more[i].1 == count;
    assert now == if item.1 == count then was + {|items|} else was;
    assert |items| !in was;
    assert items == [] ==> was == {};
  }

  lemma {:induction false} NonzeroTimes(items: seq<Item>, count: int)
    ensures Nonzero(items)[count] == if count == 0 then 0 else Times(items, count)
  {
    hide Times;
    if items == [] {
      TimesNext([], ("", 0), count);
    } else {
      var init, last := items[..|items| - 1], items[|items| - 1];
      assert items == init + [last];
      NonzeroTimes(init, count);
      TimesNext(init, last, count);
    }
  }

  lemma {:induction false} TimesLast(files: seq<Source>, f: Source, count: int)
    ensures TimesInAll(files + [f], count) ==
      TimesInAll(files, count) + if f.covered > 0 && f.lines.Some? then Times(f.lines.value, count) else 0
  {
    hide Times;
    if files == [] {
      assert files + [f] == [f] && [f][1..] == [];
    } else {
      assert (files + [f])[0] == files[0] && (files + [f])[1..] == files[1..] + [f];
      TimesLast(files[1..], f, count);
    }
  }

  /** Every count but zero, as often as it occurs in files that were covered and whose lines were recorded. */
  lemma {:induction false} AllCountsMeaning(files: seq<Source>, count: int)
    ensures AllCounts(files)[count] == if count == 0 then 0 else TimesInAll(files, count)
  {
    hide Times, Nonzero;
    if files != [] {
      var init, last := files[..|files| - 1], files[|files| - 1];
      assert files == init + [last];
      AllCountsMeaning(init, count);
      TimesLast(init, last, count);
      if Parsed(last) {
        NonzeroTimes(last.lines.value, count);
      }
    }
  }

  // ---------------------------------------------------------------- names of lines

  function Key(name: string, line: string): string {
    name + ":" + line
  }

  lemma LastColon(name: string, line: string)
    requires ':' !in line
    ensures forall i | |name| < i < |Key(name, line)| :: Key(name, line)[i] != ':'
  {
    forall i | |name| < i < |Key(name, line)| ensures Key(name, line)[i] != ':' {
      assert Key(name, line)[i] == line[i - |name| - 1];
    }
  }

  /** Line numbers have no colon, so names of lines are not ambiguous. */
  lemma KeyInjective(name: string, line: string, name': string, line': string)
    requires ':' !in line && ':' !in line' && Key(name, line) == Key(name', line')
    ensures name == name' && line == line'
  {
    var a, b := Key(name, line), Key(name', line');
    assert a[|name|] == ':' && b[|name'|] == ':';
    LastColon(name, line);
    LastColon(name', line');
    assert name == a[..|name|] && name' == b[..|name'|];
    assert line == a[|name| + 1..] && line' == b[|name'| + 1..];
  }

  // ---------------------------------------------------------------- the lines kept for each file

  type Kept = (string, seq<Item>)

  ghost predicate DistinctKeys(items: seq<Item>) {
    forall i, j | 0 <= i < j < |items| :: items[i].0 != items[j].0
  }

  ghost predicate WellFormed(items: seq<Item>) {
    DistinctKeys(items) && forall item | item in items :: ':' !in item.0
  }

  /** Dictionaries have distinct keys. */
  ghost predicate ValidInput(files: seq<Source>) {
    (forall i, j | 0 <= i < j < |files| :: files[i].name != files[j].name) &&
    forall f | f in files && f.lines.Some? :: WellFormed(f.lines.value)
  }

  lemma KeptWellFormed(items: seq<Item>, kept: seq<Item>)
    requires WellFormed(items) && multiset(kept) <= multiset(items)
    ensures WellFormed(kept) && forall item | item in kept :: item in items
  {
    forall item | item in kept ensures item in items {
      assert item in multiset(kept);
    }
    NoRepeatsWithin(items, kept);
    forall i, j | 0 <= i < j < |kept| ensures kept[i].0 != kept[j].0 {
      assert kept[i] in kept && kept[j] in kept;
      var a :| 0 <= a < |items| && items[a] == kept[i];
      var b :| 0 <= b < |items| && items[b] == kept[j];
    }
  }

  /** What is known of the kept lines after some files: one list per parsed file, with its largest counts. */
  ghost predicate Collected(kept: seq<Kept>, raws: seq<multiset<int>>, files: seq<Source>) {
    |kept| == |raws| && Sum(raws) == AllCounts(files) &&
    (forall i | 0 <= i < |kept| :: WellFormed(kept[i].1) && IsTop(multiset(Nums(kept[i].1)), raws[i], LIMIT)) &&
    (forall i, j | 0 <= i < j < |kept| :: kept[i].0 != kept[j].0) &&
    (forall i | 0 <= i < |kept| :: KeptFrom(kept[i], files))
  }

  ghost predicate KeptFrom(k: Kept, files: seq<Source>) {
    exists f | f in files :: Parsed(f) && k.0 == f.name && forall item | item in k.1 :: item in f.lines.value
  }

  function Sum(ms: seq<multiset<int>>): multiset<int> {
    if ms == [] then multiset{} else Sum(ms[..|ms| - 1]) + ms[|ms| - 1]
  }

  lemma CollectedSkips(kept: seq<Kept>, raws: seq<multiset<int>>, files: seq<Source>, f: Source)
    requires Collected(kept, raws, files) && !Parsed(f)
    ensures Collected(kept, raws, files + [f])
  {
    hide IsTop, WellFormed, Parsed;
    var more := files + [f];
    assert more[..|files|] == files;
    assert AllCounts(more) == AllCounts(files);
    forall i | 0 <= i < |kept| ensures KeptFrom(kept[i], more) {
      FromMore(kept[i], files, f);
    }
  }

  lemma FromMore(k: Kept, files: seq<Source>, f: Source)
    requires KeptFrom(k, files)
    ensures KeptFrom(k, files + [f])
  {
    var g :| g in files && Parsed(g) && k.0 == g.name && forall item | item in k.1 :: item in g.lines.value;
    assert g in files + [f];
  }

  lemma CollectedGrows(kept: seq<Kept>, raws: seq<multiset<int>>, files: seq<Source>, f: Source, items: seq<Item>)
    requires Collected(kept, raws, files) && ValidInput(files + [f]) && Parsed(f)
    requires multiset(items) <= multiset(f.lines.value) && IsTop(multiset(Nums(items)), Nonzero(f.lines.value), LIMIT)
    ensures Collected(kept + [(f.name, items)], raws + [Nonzero(f.lines.value)], files + [f])
  {
    hide IsTop, WellFormed, Nonzero, Nums, Sum, AllCounts, ValidInput, KeptFrom;
    var more, raws' := files + [f], raws + [Nonzero(f.lines.value)];
    var kept' := kept + [(f.name, items)];
    assert f in more;
    CountsGrow(raws, files, f);
    ValidLines(more, f);
    KeptWellFormed(f.lines.value, items);
    FromFile(f, items, more);
    forall i | 0 <= i < |kept'| ensures KeptFrom(kept'[i], more) && (i < |kept| ==> kept'[i].0 != f.name) {
      if i < |kept| {
        FromMore(kept[i], files, f);
        NewName(kept[i], files, f);
      }
    }
  }

  lemma CountsGrow(raws: seq<multiset<int>>, files: seq<Source>, f: Source)
    requires Parsed(f)
    ensures Sum(raws + [Nonzero(f.lines.value)]) == Sum(raws) + Nonzero(f.lines.value)
    ensures AllCounts(files + [f]) == AllCounts(files) + Nonzero(f.lines.value)
  {
    hide Nonzero;
    assert (raws + [Nonzero(f.lines.value)])[..|raws|] == raws && (files + [f])[..|files|] == files;
  }

  lemma ValidLines(files: seq<Source>, f: Source)
    requires ValidInput(files) && f in files && f.lines.Some?
    ensures WellFormed(f.lines.value)
  {
    hide WellFormed;
  }

  lemma FromFile(f: Source, items: seq<Item>, files: seq<Source>)
    requires f in files && Parsed(f) && forall item | item in items :: item in f.lines.value
    ensures KeptFrom((f.name, items), files)
  {}

  lemma NewName(k: Kept, files: seq<Source>, f: Source)
    requires KeptFrom(k, files) && ValidInput(files + [f])
    ensures k.0 != f.name
  {
    hide WellFormed, Parsed;
    var more := files + [f];
    var g :| g in files && k.0 == g.name;
    var i :| 0 <= i < |files| && files[i] == g;
    assert more[i] == g && more[|files|] == f;
  }

  // ---------------------------------------------------------------- the table of all kept lines

  function EntriesOf(k: Kept): seq<Item> {
    seq(|k.1|, i requires 0 <= i < |k.1| => (Key(k.0, k.1[i].0), k.1[i].1))
  }

  function Entries(kept: seq<Kept>): seq<Item> {
    if kept == [] then [] else Entries(kept[..|kept| - 1]) + EntriesOf(kept[|kept| - 1])
  }

  ghost predicate EntryFrom(kept: seq<Kept>, e: Item) {
    exists k, item | k in kept && item in k.1 :: e == (Key(k.0, item.0), item.1)
  }

  lemma {:induction false} EntriesFrom(kept: seq<Kept>)
    ensures forall e | e in Entries(kept) :: EntryFrom(kept, e)
  {
    if kept != [] {
      hide Key;
      var init, last := kept[..|kept| - 1], kept[|kept| - 1];
      EntriesFrom(init);
      forall e | e in Entries(kept) ensures EntryFrom(kept, e) {
        if e in Entries(init) {
          var k, item :| k in init && item in k.1 && e == (Key(k.0, item.0), item.1);
          assert k in kept;
        } else {
          var i :| 0 <= i < |last.1| && EntriesOf(last)[i] == e;
          assert last in kept && last.1[i] in last.1;
        }
      }
    }
  }

  lemma {:induction false} EntriesDistinct(kept: seq<Kept>)
    requires forall i | 0 <= i < |kept| :: WellFormed(kept[i].1)
    requires forall i, j | 0 <= i < j < |kept| :: kept[i].0 != kept[j].0
    ensures DistinctKeys(Entries(kept))
  {
    if kept != [] {
      hide Key;
      var init, last := kept[..|kept| - 1], kept[|kept| - 1];
      EntriesDistinct(init);
      EntriesFrom(init);
      var a, b := Entries(init), EntriesOf(last);
      var c: seq<Item> := a + b;
      forall i, j | 0 <= i < j < |c| ensures c[i].0 != c[j].0 {
        if j >= |a| {
          var item := last.1[j - |a|];
          assert item in last.1;
          if i < |a| {
            assert a[i] in a;
            EarlierKey(kept, a[i], item);
          } else {
            assert last.1[i - |a|] in last.1;
            KeysDiffer(last.0, last.1[i - |a|].0, last.0, item.0);
          }
        }
      }
    }
  }

  lemma KeysDiffer(name: string, line: string, name': string, line': string)
    requires ':' !in line && ':' !in line' && (name != name' || line != line')
    ensures Key(name, line) != Key(name', line')
  {
    hide Key;
    if Key(name, line) == Key(name', line') {
      KeyInjective(name, line, name', line');
    }
  }

  lemma EarlierKey(kept: seq<Kept>, e: Item, item: Item)
    requires kept != [] && (forall i | 0 <= i < |kept| :: WellFormed(kept[i].1))
    requires forall i, j | 0 <= i < j < |kept| :: kept[i].0 != kept[j].0
    requires EntryFrom(kept[..|kept| - 1], e) && item in kept[|kept| - 1].1
    ensures e.0 != Key(kept[|kept| - 1].0, item.0)
  {
    hide Key, DistinctKeys;
    var k, other :| k in kept[..|kept| - 1] && other in k.1 && e == (Key(k.0, other.0), other.1);
    var i :| 0 <= i < |kept| - 1 && kept[i] == k;
    KeysDiffer(k.0, other.0, kept[|kept| - 1].0, item.0);
  }

  /** The counts in the table are the kept counts. */
  lemma {:induction false} EntriesCounts(kept: seq<Kept>, tops: seq<multiset<int>>)
    requires |tops| == |kept| && forall i | 0 <= i < |kept| :: tops[i] == multiset(Nums(kept[i].1))
    ensures multiset(Nums(Entries(kept))) == Sum(tops)
  {
    if kept != [] {
      hide Nums, EntriesOf;
      var m := |kept| - 1;
      EntriesCounts(kept[..m], tops[..m]);
      NumsConcat(Entries(kept[..m]), EntriesOf(kept[m]));
      NumsOfEntries(kept[m]);
      assert multiset(Nums(Entries(kept))) == Sum(tops[..m]) + tops[m];
    }
  }

  lemma NumsConcat(a: seq<Item>, b: seq<Item>)
    ensures Nums(a + b) == Nums(a) + Nums(b)
  {}

  lemma NumsOfEntries(k: Kept)
    ensures Nums(EntriesOf(k)) == Nums(k.1)
  {
    hide Key;
  }

  /** The largest of the largest are the largest. */
  lemma {:induction false} MergeAll(k: multiset<int>, tops: seq<multiset<int>>, raws: seq<multiset<int>>, rest: multiset<int>, n: nat)
    requires |tops| == |raws| && (forall i | 0 <= i < |tops| :: IsTop(tops[i], raws[i], n))
    requires IsTop(k, rest + Sum(tops), n)
    ensures IsTop(k, rest + Sum(raws), n)
    decreases |tops|
  {
    if tops != [] {
      hide IsTop;
      var m := |tops| - 1;
      var top, raw := tops[m], raws[m];
      var others := rest + Sum(tops[..m]);
      assert rest + Sum(tops) == others + top;
      TopWithin(top, raw, n);
      TopMerge(k, others, top, top, raw, n);
      assert others + raw == (rest + raw) + Sum(tops[..m]);
      MergeAll(k, tops[..m], raws[..m], rest + raw, n);
      assert (rest + raw) + Sum(raws[..m]) == rest + Sum(raws);
    }
  }

  lemma TopWithin(k: multiset<int>, all: multiset<int>, n: nat)
    requires IsTop(k, all, n)
    ensures k <= all
  {}

  // ---------------------------------------------------------------- ranking

  /** More covered first, then by name. */
  predicate RankedBefore(x: Item, y: Item) {
    x.1 > y.1 || (x.1 == y.1 && FileTree.Less(x.0, y.0))
  }

  function Rank(s: seq<Item>): seq<Item> {
    SortedBy(RankedBefore, s)
  }

  ghost predicate Ranked(s: seq<Item>) {
    forall i, j | 0 <= i < j < |s| :: RankedBefore(s[i], s[j])
  }

  lemma RankOrder(x: Item, y: Item, z: Item)
    ensures RankedBefore(x, y) && RankedBefore(y, z) ==> RankedBefore(x, z)
    ensures RankedBefore(x, y) || RankedBefore(y, x) || x == y
    ensures !(RankedBefore(x, y) && RankedBefore(y, x))
  {
    hide FileTree.Less;
    FileTreeTheorems.LessOrder(x.0, y.0, z.0);
  }

  lemma RankMeaning(x: Item, y: Item)
    requires RankedBefore(x, y)
    ensures x.1 > y.1 || (x.1 == y.1 && TreeOrder.Earlier(x.0, y.0))
  {
    hide FileTree.Less, TreeOrder.Earlier;
    TreeOrder.LessIsEarlier(x.0, y.0);
  }

  lemma RankIsStrict()
    ensures StrictOrder(RankedBefore)
  {
    hide RankedBefore;
    forall x, y ensures !(RankedBefore(x, y) && RankedBefore(y, x)) { RankOrder(x, y, x); }
    forall x, y, z ensures RankedBefore(x, y) && RankedBefore(y, z) ==> RankedBefore(x, z) { RankOrder(x, y, z); }
  }

  lemma RankRanked(s: seq<Item>)
    requires NoRepeats(s)
    ensures Ranked(Rank(s)) && multiset(Rank(s)) == multiset(s)
  {
    hide RankedBefore, SortedBy;
    RankIsStrict();
    SortedByArranged(RankedBefore, s);
    NoRepeatsWithin(s, Rank(s));
    forall i, j | 0 <= i < j < |Rank(s)| ensures RankedBefore(Rank(s)[i], Rank(s)[j]) {
      RankOrder(Rank(s)[i], Rank(s)[j], Rank(s)[i]);
    }
  }

  /** The first n of a ranked sequence have the n largest counts. */
  lemma RankedTop(s: seq<Item>, n: nat)
    requires Ranked(s)
    ensures IsTop(multiset(Nums(s[..Min(n, |s|)])), multiset(Nums(s)), n)
  {
    hide FileTree.Less, IsTop;
    var m := Min(n, |s|);
    var high, low := Nums(s[..m]), Nums(s[m..]);
    assert s == s[..m] + s[m..];
    assert Nums(s) == high + low;
    forall x, y | x in high && y in low ensures y <= x {
      var i :| 0 <= i < |high| && high[i] == x;
      var j :| 0 <= j < |low| && low[j] == y;
      assert RankedBefore(s[i], s[m + j]);
    }
    SplitTop(high, low, n);
  }

  lemma CollectedDistinct(kept: seq<Kept>, raws: seq<multiset<int>>, files: seq<Source>)
    requires Collected(kept, raws, files)
    ensures DistinctKeys(Entries(kept)) && NoRepeats(Entries(kept))
  {
    hide IsTop, Entries, WellFormed, KeptFrom;
    EntriesDistinct(kept);
  }

  /** The first lines of the ranked table have the largest counts of all the files. */
  lemma RankedCounts(kept: seq<Kept>, raws: seq<multiset<int>>, files: seq<Source>)
    requires Collected(kept, raws, files)
    ensures var ranked := Rank(Entries(kept));
      Ranked(ranked) && IsTop(multiset(Nums(ranked[..Min(LIMIT, |ranked|)])), AllCounts(files), LIMIT)
  {
    hide IsTop, Entries, WellFormed, Rank, Ranked, Nums, KeptFrom;
    var entries := Entries(kept);
    var ranked := Rank(entries);
    CollectedDistinct(kept, raws, files);
    RankRanked(entries);
    RankedTop(ranked, LIMIT);
    SameCounts(ranked, entries);
    var tops := seq(|kept|, i requires 0 <= i < |kept| => multiset(Nums(kept[i].1)));
    EntriesCounts(kept, tops);
    var k := multiset(Nums(ranked[..Min(LIMIT, |ranked|)]));
    assert multiset{} + Sum(tops) == multiset(Nums(ranked));
    MergeAll(k, tops, raws, multiset{}, LIMIT);
    assert multiset{} + Sum(raws) == AllCounts(files);
  }

  lemma SameCounts(a: seq<Item>, b: seq<Item>)
    requires multiset(a) == multiset(b)
    ensures multiset(Nums(a)) == multiset(Nums(b))
  {
    hide FileTreeTheorems.Map;
    var second := (item: Item) => item.1;
    FileTreeTheorems.MapMultiset(second, a, b);
    NumsMap(second, a);
    NumsMap(second, b);
  }

  lemma {:induction false} NumsMap(second: Item -> int, s: seq<Item>)
    requires forall item :: second(item) == item.1
    ensures FileTreeTheorems.Map(second, s) == Nums(s)
  {
    if s != [] {
      NumsMap(second, s[1..]);
    }
  }

  lemma RankedLines(kept: seq<Kept>, raws: seq<multiset<int>>, files: seq<Source>)
    requires Collected(kept, raws, files)
    ensures forall e | e in Rank(Entries(kept)) :: LineOf(files, e)
  {
    hide IsTop, Entries, WellFormed, Rank, Nums, Key, Ranked;
    var entries := Entries(kept);
    CollectedDistinct(kept, raws, files);
    RankRanked(entries);
    EntriesFrom(kept);
    forall e | e in Rank(entries) ensures LineOf(files, e) {
      assert e in multiset(Rank(entries)) && e in entries;
      assert EntryFrom(kept, e);
      var k, item :| k in kept && item in k.1 && e == (Key(k.0, item.0), item.1);
      var i :| 0 <= i < |kept| && kept[i] == k;
      assert KeptFrom(kept[i], files);
      var f :| f in files && Parsed(f) && k.0 == f.name && forall it | it in k.1 :: it in f.lines.value;
      assert item in f.lines.value;
    }
  }

  // ---------------------------------------------------------------- the collector

  function Max(a: int, b: int): int {
    if a < b then b else a
  }

  class MostCoveredLines {
    var statistics: seq<Kept>
    var maxCovered: int

    constructor ()
      ensures statistics == [] && maxCovered == 0
    {
      statistics, maxCovered := [], 0;
    }

    method ParseFile(f: Source)
      requires f.lines.Some?
      modifies this
      ensures |statistics| == |old(statistics)| + 1 && statistics[..|old(statistics)|] == old(statistics)
      ensures var last := statistics[|old(statistics)|];
        last.0 == f.name && multiset(last.1) <= multiset(f.lines.value) &&
        IsTop(multiset(Nums(last.1)), Nonzero(f.lines.value), LIMIT)
      ensures maxCovered >= old(maxCovered) && forall item | item in f.lines.value :: item.1 <= maxCovered
      ensures maxCovered == old(maxCovered) || exists item | item in f.lines.value :: item.1 == maxCovered
    {
      hide IsTop, Nonzero, Nums;
      var items := f.lines.value;
      for i := 0 to |items|
        invariant statistics == old(statistics)
        invariant maxCovered >= old(maxCovered) && forall j | 0 <= j < i :: items[j].1 <= maxCovered
        invariant maxCovered == old(maxCovered) || exists item | item in items :: item.1 == maxCovered
      {
        maxCovered := Max(maxCovered, items[i].1);
      }
      var kept := ParseLines(items);
      statistics := statistics + [(f.name, kept)];
    }

    /**
     * The names of the lines to show, with their counts: ranked, taken from the parsed files,
     * and their counts are the largest nonzero counts of all parsed files.
     */
    method Collect(files: seq<Source>) returns (keys: seq<string>, counts: seq<int>)
      requires ValidInput(files) && statistics == []
      modifies this
      ensures |keys| == |counts|
      ensures IsTop(multiset(counts), AllCounts(files), 30)
      ensures forall i | 0 <= i < |keys| :: LineOf(files, (keys[i], counts[i]))
      ensures forall i, j | 0 <= i < j < |keys| ::
        counts[i] > counts[j] || (counts[i] == counts[j] && TreeOrder.Earlier(keys[i], keys[j]))
    {
      hide IsTop, ValidInput, Parsed, RankedBefore, LineOf, Collected, Rank, Entries;
      ghost var raws := ParseFiles(files);
      CollectedDistinct(statistics, raws, files);
      RankedCounts(statistics, raws, files);
      RankedLines(statistics, raws, files);
      var ranked := RankEntries(statistics);
      var m := Min(LIMIT, |ranked|);
      keys := seq(m, i requires 0 <= i < m => ranked[i].0);
      counts := Nums(ranked[..m]);
      assert forall i | 0 <= i < m :: (keys[i], counts[i]) == ranked[i];
      forall i, j | 0 <= i < j < |keys| ensures counts[i] > counts[j] || (counts[i] == counts[j] && TreeOrder.Earlier(keys[i], keys[j])) {
        RankMeaning(ranked[i], ranked[j]);
      }
    }

    method ParseFiles(files: seq<Source>) returns (ghost raws: seq<multiset<int>>)
      requires ValidInput(files) && statistics == []
      modifies this
      ensures Collected(statistics, raws, files)
    {
      hide IsTop, Collected, Nonzero, Nums, WellFormed;
      raws := [];
      CollectedNothing();
      for n := 0 to |files|
        invariant Collected(statistics, raws, files[..n])
      {
        var f := files[n];
        assert files[..n + 1] == files[..n] + [f];
        PrefixValid(files, n + 1);
        if f.covered > 0 && f.lines.Some? {
          ghost var before := statistics;
          ParseFile(f);
          CollectedGrows(before, raws, files[..n], f, statistics[|before|].1);
          assert statistics == before + [(f.name, statistics[|before|].1)];
          raws := raws + [Nonzero(f.lines.value)];
        } else {
          CollectedSkips(statistics, raws, files[..n], f);
        }
      }
      assert files[..|files|] == files;
    }
  }

  lemma CollectedNothing()
    ensures Collected([], [], [])
  {}

  lemma PrefixValid(files: seq<Source>, n: nat)
    requires ValidInput(files) && n <= |files|
    ensures ValidInput(files[..n])
  {
    hide WellFormed;
  }

  /** Fill the table of counts by name, then sort the names. */
  method RankEntries(kept: seq<Kept>) returns (ranked: seq<Item>)
    requires DistinctKeys(Entries(kept))
    ensures ranked == Rank(Entries(kept))
  {
    hide Recorded, EntriesOf, DistinctKeys, Rank;
    var table: map<string, int> := map[];
    var order: seq<string> := [];
    RecordedNothing();
    for n := 0 to |kept|
      invariant Recorded(table, order, Entries(kept[..n]))
    {
      assert kept[..n + 1][..n] == kept[..n];
      EntriesPrefix(kept, n + 1);
      table, order := RecordFile(table, order, Entries(kept[..n]), kept[n]);
    }
    assert kept[..|kept|] == kept;
    RecordedPairs(table, order, Entries(kept));
    var pairs: seq<Item> := seq(|order|, i requires 0 <= i < |order| => (order[i], table[order[i]]));
    assert pairs == Entries(kept);
    ranked := Rank(pairs);
  }

  method RecordFile(table: map<string, int>, order: seq<string>, ghost entries: seq<Item>, k: Kept)
    returns (table': map<string, int>, order': seq<string>)
    requires Recorded(table, order, entries) && DistinctKeys(entries + EntriesOf(k))
    ensures Recorded(table', order', entries + EntriesOf(k))
  {
    hide Recorded, Key;
    table', order' := table, order;
    var (name, items) := k;
    assert entries + EntriesOf(k)[..0] == entries;
    for i := 0 to |items|
      invariant Recorded(table', order', entries + EntriesOf(k)[..i])
    {
      var key := Key(name, items[i].0);
      ghost var before, all := entries + EntriesOf(k)[..i], entries + EntriesOf(k);
      assert forall j | 0 <= j < |before| :: before[j] == all[j];
      assert all[|before|] == (key, items[i].1);
      RecordedNew(table', order', before, (key, items[i].1));
      assert entries + EntriesOf(k)[..i + 1] == before + [(key, items[i].1)];
      if key !in table' {
        order' := order' + [key];
      }
      table' := table'[key := items[i].1];
    }
    assert EntriesOf(k)[..|items|] == EntriesOf(k);
  }

  lemma RecordedNothing()
    ensures Recorded(map[], [], [])
  {}

  lemma RecordedNew(table: map<string, int>, order: seq<string>, entries: seq<Item>, e: Item)
    requires Recorded(table, order, entries) && forall i | 0 <= i < |entries| :: entries[i].0 != e.0
    ensures e.0 !in table && Recorded(table[e.0 := e.1], order + [e.0], entries + [e])
  {}

  lemma RecordedPairs(table: map<string, int>, order: seq<string>, entries: seq<Item>)
    requires Recorded(table, order, entries)
    ensures forall i | 0 <= i < |order| :: order[i] in table
    ensures |order| == |entries| && forall i | 0 <= i < |order| :: entries[i] == (order[i], table[order[i]])
  {}

  /** The table maps the keys, in their order of insertion, to their counts. */
  ghost predicate Recorded(table: map<string, int>, order: seq<string>, entries: seq<Item>) {
    |order| == |entries| && (forall k :: k in table <==> k in order) &&
    forall i | 0 <= i < |entries| :: order[i] == entries[i].0 && order[i] in table && table[order[i]] == entries[i].1
  }

  lemma {:induction false} EntriesPrefix(kept: seq<Kept>, n: nat)
    requires n <= |kept| && DistinctKeys(Entries(kept))
    ensures DistinctKeys(Entries(kept[..n]))
    decreases |kept| - n
  {
    if n == |kept| {
      assert kept[..n] == kept;
    } else {
      EntriesPrefix(kept, n + 1);
      assert kept[..n + 1][..n] == kept[..n];
      var a, c := Entries(kept[..n]), Entries(kept[..n + 1]);
      assert forall i | 0 <= i < |a| :: a[i] == c[i];
    }
  }
}
