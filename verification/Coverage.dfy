/** Coverage statistics of files summed up over all their directories. */
module Coverage {
  import opened Options
  import FileTree

  type Path = FileTree.Path

  /** A file with its totals and, unless it was not measured, its covered lines and functions. */
  datatype File = File(name: string, covered: Option<(int, int)>, totalLines: int, totalFuncs: int)

  datatype Counts = Counts(
    linesCovered: int, linesTotal: int, funcsCovered: int, funcsTotal: int,
    linesCoveredExtra: int, linesTotalExtra: int, funcsCoveredExtra: int, funcsTotalExtra: int)

  datatype Record = Record(identifier: nat, parent: Option<nat>, isLeaf: bool, path: Path, counts: Counts)

  /** Records by path, and the order in which the paths were first met. */
  datatype Table = Table(nodes: map<Path, Record>, order: seq<Path>)

  const ZERO := Counts(0, 0, 0, 0, 0, 0, 0, 0)

  function PathOf(f: File): (path: Path)
    ensures path != []
  {
    FileTree.Split(f.name)
  }

  function Plus(a: Counts, b: Counts): Counts {
    Counts(a.linesCovered + b.linesCovered, a.linesTotal + b.linesTotal,
           a.funcsCovered + b.funcsCovered, a.funcsTotal + b.funcsTotal,
           a.linesCoveredExtra + b.linesCoveredExtra, a.linesTotalExtra + b.linesTotalExtra,
           a.funcsCoveredExtra + b.funcsCoveredExtra, a.funcsTotalExtra + b.funcsTotalExtra)
  }

  /** What one file contributes to each of its directories and to itself. */
  function Gain(f: File): Counts {
    match f.covered
    case Some((lines, funcs)) =>
      Counts(lines, f.totalLines, funcs, f.totalFuncs, lines, f.totalLines, funcs, f.totalFuncs)
    case None => Counts(0, 0, 0, 0, 0, f.totalLines, 0, f.totalFuncs)
  }

  predicate IsPrefix(a: Path, b: Path) {
    |a| <= |b| && b[..|a|] == a
  }

  // ---------------------------------------------------------------- what the table has to say

  /** The sum over the files at or below a path. */
  function Total(files: seq<File>, p: Path): Counts {
    if files == [] then ZERO
    else
      var last := files[|files| - 1];
      Plus(Total(files[..|files| - 1], p), if IsPrefix(p, PathOf(last)) then Gain(last) else ZERO)
  }

  ghost predicate Reached(files: seq<File>, p: Path) {
    p != [] && exists f | f in files :: IsPrefix(p, PathOf(f))
  }

  /** The first file at or below the path is the path itself. */
  predicate MetAsFile(files: seq<File>, p: Path) {
    files != [] &&
    (if IsPrefix(p, PathOf(files[0])) then PathOf(files[0]) == p else MetAsFile(files[1..], p))
  }

  /** Identifiers follow the order of first meeting; parents are met before children. */
  ghost predicate Linked(t: Table) {
    (forall k | 0 <= k < |t.order| :: t.order[k] in t.nodes && t.nodes[t.order[k]].identifier == k + 1) &&
    (forall p | p in t.nodes :: LinkedAt(t, p))
  }

  ghost predicate LinkedAt(t: Table, p: Path)
    requires p in t.nodes
  {
    var r := t.nodes[p];
    r.path == p && p != [] && 1 <= r.identifier <= |t.order| && t.order[r.identifier - 1] == p &&
    if |p| == 1 then r.parent == None
    else
      var above := p[..|p| - 1];
      above in t.nodes && r.parent == Some(t.nodes[above].identifier) && t.nodes[above].identifier < r.identifier
  }

  /** The table holds exactly the directories and files met, with their sums. */
  ghost predicate Filled(t: Table, files: seq<File>) {
    Linked(t) &&
    (forall p :: p in t.nodes <==> Reached(files, p)) &&
    (forall p | p in t.nodes :: t.nodes[p].counts == Total(files, p)) &&
    (forall p | p in t.nodes :: t.nodes[p].isLeaf <==> MetAsFile(files, p))
  }

  /** The sum of one number over the files at or below a path. */
  function Sum(files: seq<File>, p: Path, number: File -> int): int {
    if files == [] then 0
    else (if p <= PathOf(files[0]) then number(files[0]) else 0) + Sum(files[1..], p, number)
  }

  lemma {:induction false} SumLast(files: seq<File>, f: File, p: Path, number: File -> int)
    ensures Sum(files + [f], p, number) == Sum(files, p, number) + if p <= PathOf(f) then number(f) else 0
  {
    hide PathOf;
    if files == [] {
      assert files + [f] == [f] && [f][1..] == [];
    } else {
      assert (files + [f])[0] == files[0] && (files + [f])[1..] == files[1..] + [f];
      SumLast(files[1..], f, p, number);
    }
  }

  /** Which number goes into which counter: the plain counters take measured files only, the extra totals take
      every file, and both kinds of covered counters take what was covered. */
  lemma {:induction false} TotalMeaning(files: seq<File>, p: Path)
    ensures var covered := (f: File) => if f.covered.Some? then f.covered.value.0 else 0;
      Total(files, p).linesCovered == Total(files, p).linesCoveredExtra == Sum(files, p, covered)
    ensures var covered := (f: File) => if f.covered.Some? then f.covered.value.1 else 0;
      Total(files, p).funcsCovered == Total(files, p).funcsCoveredExtra == Sum(files, p, covered)
    ensures Total(files, p).linesTotal == Sum(files, p, (f: File) => if f.covered.Some? then f.totalLines else 0)
    ensures Total(files, p).funcsTotal == Sum(files, p, (f: File) => if f.covered.Some? then f.totalFuncs else 0)
    ensures Total(files, p).linesTotalExtra == Sum(files, p, (f: File) => f.totalLines)
    ensures Total(files, p).funcsTotalExtra == Sum(files, p, (f: File) => f.totalFuncs)
  {
    hide PathOf;
    if files != [] {
      var init, last := files[..|files| - 1], files[|files| - 1];
      assert files == init + [last];
      TotalMeaning(init, p);
      assert p <= PathOf(last) <==> IsPrefix(p, PathOf(last));
      SumLast(init, last, p, (f: File) => if f.covered.Some? then f.covered.value.0 else 0);
      SumLast(init, last, p, (f: File) => if f.covered.Some? then f.covered.value.1 else 0);
      SumLast(init, last, p, (f: File) => if f.covered.Some? then f.totalLines else 0);
      SumLast(init, last, p, (f: File) => if f.covered.Some? then f.totalFuncs else 0);
      SumLast(init, last, p, (f: File) => f.totalLines);
      SumLast(init, last, p, (f: File) => f.totalFuncs);
    }
  }

  // ---------------------------------------------------------------- one prefix of one file

  /** The file counts at p once its first i prefixes have been visited. */
  predicate Visited(f: File, i: nat, p: Path) {
    p != [] && |p| <= i && IsPrefix(p, PathOf(f))
  }

  /** Between two files: all of `files` counted, and the first i prefixes of f. */
  ghost predicate Partly(t: Table, files: seq<File>, f: File, i: nat) {
    Linked(t) &&
    (forall p :: p in t.nodes <==> Reached(files, p) || Visited(f, i, p)) &&
    (forall p | p in t.nodes :: PartlyAt(t.nodes[p], files, f, i))
  }

  ghost predicate PartlyAt(r: Record, files: seq<File>, f: File, i: nat) {
    var p := r.path;
    r.counts == Plus(Total(files, p), if Visited(f, i, p) then Gain(f) else ZERO) &&
    (r.isLeaf <==> if Reached(files, p) then MetAsFile(files, p) else p == PathOf(f))
  }

  function Fresh(t: Table, path: Path, i: nat): Record
    requires i < |path| && (i > 0 ==> path[..i] in t.nodes)
  {
    Record(|t.order| + 1, if i > 0 then Some(t.nodes[path[..i]].identifier) else None, i + 1 == |path|, path[..i + 1], ZERO)
  }

  function Meet(t: Table, path: Path, i: nat): Table
    requires i < |path| && (i > 0 ==> path[..i] in t.nodes)
  {
    var p := path[..i + 1];
    if p in t.nodes then t else Table(t.nodes[p := Fresh(t, path, i)], t.order + [p])
  }

  function Count(t: Table, f: File, p: Path): Table
    requires p in t.nodes
  {
    t.(nodes := t.nodes[p := t.nodes[p].(counts := Plus(t.nodes[p].counts, Gain(f)))])
  }

  lemma PrefixAbove(f: File, i: nat, t: Table, files: seq<File>)
    requires Partly(t, files, f, i) && i < |PathOf(f)|
    ensures i > 0 ==> PathOf(f)[..i] in t.nodes
  {
    hide Linked, PartlyAt, PathOf;
    if i > 0 {
      assert Visited(f, i, PathOf(f)[..i]);
    }
  }

  lemma PlusZero(c: Counts)
    ensures Plus(c, ZERO) == c && Plus(ZERO, c) == c
  {}

  lemma {:induction false} TotalOutside(files: seq<File>, p: Path)
    requires p != [] && !Reached(files, p)
    ensures Total(files, p) == ZERO
  {
    if files != [] {
      hide IsPrefix, PathOf, Gain;
      var init, last := files[..|files| - 1], files[|files| - 1];
      assert last in files && forall f | f in init :: f in files;
      TotalOutside(init, p);
    }
  }

  lemma MeetLinked(t: Table, path: Path, i: nat)
    requires Linked(t) && i < |path| && (i > 0 ==> path[..i] in t.nodes)
    ensures Linked(Meet(t, path, i))
  {
    hide LinkedAt;
    var p, t' := path[..i + 1], Meet(t, path, i);
    if p !in t.nodes {
      forall q | q in t'.nodes ensures LinkedAt(t', q) {
        if q == p {
          FreshLinked(t, path, i);
        } else {
          MeetKeeps(t, path, i, q);
        }
      }
    }
  }

  lemma FreshLinked(t: Table, path: Path, i: nat)
    requires i < |path| && path[..i + 1] !in t.nodes && (i > 0 ==> path[..i] in t.nodes && LinkedAt(t, path[..i]))
    ensures LinkedAt(Meet(t, path, i), path[..i + 1])
  {
    assert path[..i + 1][..i] == path[..i];
  }

  lemma MeetKeeps(t: Table, path: Path, i: nat, q: Path)
    requires i < |path| && path[..i + 1] !in t.nodes && (i > 0 ==> path[..i] in t.nodes)
    requires q in t.nodes && LinkedAt(t, q)
    ensures LinkedAt(Meet(t, path, i), q)
  {}

  lemma CountLinked(t: Table, f: File, p: Path)
    requires Linked(t) && p in t.nodes
    ensures Linked(Count(t, f, p))
  {
    hide Plus, Gain, LinkedAt;
    var t' := Count(t, f, p);
    forall q | q in t'.nodes ensures LinkedAt(t', q) {
      CountKeeps(t, f, p, q);
    }
  }

  lemma CountKeeps(t: Table, f: File, p: Path, q: Path)
    requires p in t.nodes && q in t.nodes && LinkedAt(t, q)
    ensures LinkedAt(Count(t, f, p), q)
  {
    hide Plus, Gain;
  }

  /** Visiting one more prefix. */
  lemma VisitStep(t: Table, files: seq<File>, f: File, i: nat)
    requires Partly(t, files, f, i) && i < |PathOf(f)| && (i > 0 ==> PathOf(f)[..i] in t.nodes)
    ensures Partly(Count(Meet(t, PathOf(f), i), f, PathOf(f)[..i + 1]), files, f, i + 1)
  {
    hide Linked, PathOf, Gain, Plus, PartlyAt, Reached, Visited;
    var p := PathOf(f)[..i + 1];
    var met := Meet(t, PathOf(f), i);
    var t' := Count(met, f, p);
    MeetLinked(t, PathOf(f), i);
    CountLinked(met, f, p);
    forall q ensures q in t'.nodes <==> Reached(files, q) || Visited(f, i + 1, q) {
      VisitedNext(f, i, q);
    }
    forall q | q in t'.nodes ensures PartlyAt(t'.nodes[q], files, f, i + 1) {
      VisitAt(t, files, f, i, q);
    }
  }

  lemma VisitedNext(f: File, i: nat, q: Path)
    requires i < |PathOf(f)|
    ensures Visited(f, i + 1, q) <==> Visited(f, i, q) || q == PathOf(f)[..i + 1]
  {
    hide PathOf;
  }

  lemma VisitAt(t: Table, files: seq<File>, f: File, i: nat, q: Path)
    requires Partly(t, files, f, i) && i < |PathOf(f)| && (i > 0 ==> PathOf(f)[..i] in t.nodes)
    requires q in Count(Meet(t, PathOf(f), i), f, PathOf(f)[..i + 1]).nodes
    ensures PartlyAt(Count(Meet(t, PathOf(f), i), f, PathOf(f)[..i + 1]).nodes[q], files, f, i + 1)
  {
    hide PathOf, Gain, Plus, Reached, MetAsFile, LinkedAt;
    var p := PathOf(f)[..i + 1];
    assert Visited(f, i + 1, p) && !Visited(f, i, p);
    if q in t.nodes {
      LinkedPath(t, q);
    }
    if q == p {
      PlusZero(Total(files, p));
      PlusZero(Gain(f));
      if p !in t.nodes {
        TotalOutside(files, p);
        assert p == PathOf(f) <==> i + 1 == |PathOf(f)|;
      }
    } else {
      assert Visited(f, i + 1, q) <==> Visited(f, i, q);
    }
  }

  // ---------------------------------------------------------------- whole files

  lemma FileBegins(t: Table, files: seq<File>, f: File)
    requires Filled(t, files)
    ensures Partly(t, files, f, 0)
  {
    hide PathOf, Gain, Total, LinkedAt;
    forall p | p in t.nodes ensures PartlyAt(t.nodes[p], files, f, 0) {
      LinkedPath(t, p);
      PlusZero(Total(files, p));
    }
  }

  lemma {:induction false} MetAsFileGrows(files: seq<File>, f: File, p: Path)
    requires p != []
    ensures MetAsFile(files + [f], p) <==>
      if Reached(files, p) then MetAsFile(files, p) else PathOf(f) == p
    decreases |files|
  {
    hide PathOf;
    if files == [] {
      assert (files + [f])[0] == f && (files + [f])[1..] == [];
    } else {
      assert (files + [f])[1..] == files[1..] + [f];
      assert files == [files[0]] + files[1..];
      MetAsFileGrows(files[1..], f, p);
    }
  }

  lemma ReachedGrows(files: seq<File>, f: File, p: Path)
    ensures Reached(files + [f], p) <==> Reached(files, p) || Visited(f, |PathOf(f)|, p)
  {
    hide PathOf;
    var more := files + [f];
    assert f in more && forall g | g in files :: g in more;
    assert forall g | g in more :: g in files || g == f;
  }

  lemma TotalGrows(files: seq<File>, f: File, p: Path)
    requires p != []
    ensures Total(files + [f], p) == Plus(Total(files, p), if Visited(f, |PathOf(f)|, p) then Gain(f) else ZERO)
  {
    hide PathOf, Gain, Plus;
    var more := files + [f];
    assert more[..|more| - 1] == files;
  }

  lemma FileEnds(t: Table, files: seq<File>, f: File)
    requires Partly(t, files, f, |PathOf(f)|)
    ensures Filled(t, files + [f])
  {
    hide PathOf, Gain, MetAsFile, Reached, Visited, Plus, Total, LinkedAt;
    forall p ensures p in t.nodes <==> Reached(files + [f], p) {
      ReachedGrows(files, f, p);
    }
    forall p | p in t.nodes
      ensures t.nodes[p].counts == Total(files + [f], p) && (t.nodes[p].isLeaf <==> MetAsFile(files + [f], p))
    {
      LinkedPath(t, p);
      MetAsFileGrows(files, f, p);
      TotalGrows(files, f, p);
    }
  }

  lemma LinkedPath(t: Table, p: Path)
    requires p in t.nodes && LinkedAt(t, p)
    ensures t.nodes[p].path == p && p != []
  {}

  // ---------------------------------------------------------------- the loops

  class CoverageStatistics {
    var nodes: map<Path, Record>
    var order: seq<Path>
    var hasExtra: bool

    ghost function Snapshot(): Table
      reads this
    {
      Table(nodes, order)
    }

    constructor ()
      ensures Filled(Snapshot(), []) && !hasExtra
    {
      nodes, order, hasExtra := map[], [], false;
    }

    method Visit(f: File, path: Path, i: nat)
      requires path == PathOf(f) && i < |path| && (i > 0 ==> path[..i] in nodes)
      modifies this
      ensures Snapshot() == Count(Meet(old(Snapshot()), path, i), f, path[..i + 1])
      ensures hasExtra == (old(hasExtra) || f.covered.None?)
    {
      hide PathOf;
      var current := path[..i + 1];
      if current !in nodes {
        var parent: Option<nat> := if i > 0 then Some(nodes[path[..i]].identifier) else None;
        nodes := nodes[current := Record(|order| + 1, parent, i + 1 == |path|, current, ZERO)];
        order := order + [current];
      }
      var counts := nodes[current].counts;
      if f.covered.Some? {
        var (lines, funcs) := f.covered.value;
        counts := counts.(linesCovered := counts.linesCovered + lines, linesTotal := counts.linesTotal + f.totalLines,
          funcsCovered := counts.funcsCovered + funcs, funcsTotal := counts.funcsTotal + f.totalFuncs,
          linesCoveredExtra := counts.linesCoveredExtra + lines, funcsCoveredExtra := counts.funcsCoveredExtra + funcs);
      } else {
        hasExtra := true;
      }
      counts := counts.(linesTotalExtra := counts.linesTotalExtra + f.totalLines,
        funcsTotalExtra := counts.funcsTotalExtra + f.totalFuncs);
      nodes := nodes[current := nodes[current].(counts := counts)];
    }

    method AddFile(f: File, ghost files: seq<File>)
      requires Filled(Snapshot(), files)
      modifies this
      ensures Filled(Snapshot(), files + [f])
      ensures hasExtra == (old(hasExtra) || f.covered.None?)
    {
      hide Filled, Partly, PathOf, Meet, Count;
      var path := PathOf(f);
      FileBegins(Snapshot(), files, f);
      for i := 0 to |path|
        invariant Partly(Snapshot(), files, f, i)
        invariant hasExtra == (old(hasExtra) || (i > 0 && f.covered.None?))
      {
        PrefixAbove(f, i, Snapshot(), files);
        VisitStep(Snapshot(), files, f, i);
        Visit(f, path, i);
      }
      FileEnds(Snapshot(), files, f);
    }

    /** Every directory and file gets the sum over the files at or below it. */
    method Fill(files: seq<File>)
      requires Filled(Snapshot(), []) && !hasExtra
      modifies this
      ensures Filled(Snapshot(), files)
      ensures hasExtra <==> exists f | f in files :: f.covered.None?
    {
      hide Filled;
      for n := 0 to |files|
        invariant Filled(Snapshot(), files[..n])
        invariant hasExtra <==> exists f | f in files[..n] :: f.covered.None?
      {
        AddFile(files[n], files[..n]);
        assert files[..n + 1] == files[..n] + [files[n]];
      }
      assert files[..|files|] == files;
    }
  }
}
