/** What the coverage listing contains, in which order, and what its totals add up to. */
module CoverageTheorems {
  import opened Options
  import opened Coverage
  import opened CoverageListing
  import opened Sequences
  import FileTree
  import FileTreeTheorems

  // ---------------------------------------------------------------- what is listed

  predicate LeafAt(nodes: map<Path, Record>, p: Path) {
    p in nodes && nodes[p].isLeaf
  }

  /** b is below a, and nothing from a down to above b was met as a file. */
  ghost predicate Open(nodes: map<Path, Record>, a: Path, b: Path) {
    |a| < |b| && IsPrefix(a, b) && forall n | |a| <= n < |b| :: !LeafAt(nodes, b[..n])
  }

  ghost predicate InBlock(list: seq<Record>, c: Record, x: Record) {
    Bounded(list) && c in list && (x == c || x in Below(list, c))
  }

  ghost predicate HasBlock(list: seq<Record>, id: nat, k: nat, x: Record) {
    exists j | k <= j < |list| :: list[j].parent == Some(id) && InBlock(list, list[j], x)
  }

  lemma {:induction false} ScanMembers(list: seq<Record>, id: nat, k: nat, x: Record)
    requires Bounded(list) && id <= |list| && k <= |list|
    ensures x in Scan(list, id, k) <==> HasBlock(list, id, k, x)
    decreases |list| - k
  {
    hide Below, Bounded;
    if k < |list| {
      ScanMembers(list, id, k + 1, x);
      assert HasBlock(list, id, k, x) <==>
        HasBlock(list, id, k + 1, x) || (list[k].parent == Some(id) && InBlock(list, list[k], x));
    }
  }

  lemma ParentIs(t: Table, list: seq<Record>, c: Record, r: Record)
    requires Good(t, list) && c in list && r in list
    ensures c.parent == Some(r.identifier) <==> |c.path| == |r.path| + 1 && IsPrefix(r.path, c.path)
  {
    hide Ordered, LinkedAt;
    ParentLink(t, c.path);
    LinkedPath(t, r.path);
    if |c.path| > 1 {
      LinkedBounds(t, c.path[..|c.path| - 1]);
      LinkedBounds(t, r.path);
    }
  }

  lemma ParentLink(t: Table, p: Path)
    requires p in t.nodes && LinkedAt(t, p)
    ensures t.nodes[p].parent.None? <==> |p| <= 1
    ensures |p| > 1 ==> p[..|p| - 1] in t.nodes && t.nodes[p].parent == Some(t.nodes[p[..|p| - 1]].identifier)
  {}

  lemma {:induction false} AncestorIn(t: Table, p: Path, n: nat)
    requires Linked(t) && p in t.nodes && 0 < n <= |p|
    ensures p[..n] in t.nodes
    decreases |p|
  {
    hide LinkedAt;
    if n == |p| {
      assert p[..n] == p;
    } else {
      var above := p[..|p| - 1];
      ParentLink(t, p);
      AncestorIn(t, above, n);
      assert above[..n] == p[..n];
    }
  }

  lemma ChildListed(t: Table, list: seq<Record>, r: Record, c: Record, x: Record)
    requires Good(t, list) && Bounded(list) && r in list && !r.isLeaf && c in list && c.parent == Some(r.identifier)
    requires x in list && (x == c || Open(t.nodes, c.path, x.path))
    ensures Open(t.nodes, r.path, x.path)
  {
    hide Linked, Ordered, Bounded;
    ParentIs(t, list, c, r);
    forall n | |r.path| <= n < |x.path| ensures !LeafAt(t.nodes, x.path[..n]) {
      if n == |r.path| {
        assert x.path[..n] == c.path[..n] == r.path;
      }
    }
    assert x.path[..|r.path|] == r.path;
  }

  /** The child of r through which an open path leads. */
  lemma ChildTowards(t: Table, list: seq<Record>, r: Record, x: Record) returns (c: Record)
    requires Good(t, list) && r in list && x in list && Open(t.nodes, r.path, x.path)
    ensures c in list && c.parent == Some(r.identifier) && (x == c || Open(t.nodes, c.path, x.path))
  {
    hide Ordered, LinkedAt;
    var p := x.path[..|r.path| + 1];
    AncestorIn(t, x.path, |p|);
    c := t.nodes[p];
    LinkedPath(t, p);
    assert p[..|r.path|] == x.path[..|r.path|] == r.path;
    ParentIs(t, list, c, r);
    if |x.path| == |p| {
      assert x.path == p;
    }
  }

  /** Below a record are exactly the records with an open way down to them. */
  lemma {:induction false} BelowMembers(t: Table, list: seq<Record>, r: Record, x: Record)
    requires Good(t, list) && Bounded(list) && r in list
    ensures x in Below(list, r) <==> x in list && Open(t.nodes, r.path, x.path)
    decreases |list| - r.identifier
  {
    hide Linked, Ordered, Open, Scan, LeafAt;
    if r.isLeaf {
      LeafCloses(t, r, x);
      return;
    }
    ScanMembers(list, r.identifier, 0, x);
    if x in Below(list, r) {
      var j :| 0 <= j < |list| && list[j].parent == Some(r.identifier) && InBlock(list, list[j], x);
      BelowMembers(t, list, list[j], x);
      ChildListed(t, list, r, list[j], x);
    }
    if x in list && Open(t.nodes, r.path, x.path) {
      var c := ChildTowards(t, list, r, x);
      BelowMembers(t, list, c, x);
      var j :| 0 <= j < |list| && list[j] == c;
      assert InBlock(list, list[j], x);
    }
  }

  lemma LeafCloses(t: Table, r: Record, x: Record)
    requires r.path in t.nodes && t.nodes[r.path] == r && r.isLeaf
    ensures !Open(t.nodes, r.path, x.path)
  {
    if |r.path| < |x.path| && IsPrefix(r.path, x.path) {
      assert LeafAt(t.nodes, x.path[..|r.path|]);
    }
  }

  // ---------------------------------------------------------------- in which order

  /** At the first difference, directories go before files and then names decide. */
  predicate StepBefore(nodes: map<Path, Record>, a: Path, b: Path, d: nat)
    requires d < |a| && d < |b|
  {
    var leafA, leafB := LeafAt(nodes, a[..d + 1]), LeafAt(nodes, b[..d + 1]);
    (!leafA && leafB) || ((leafA <==> leafB) && FileTree.Less(a[d], b[d]))
  }

  /** Pre-order from depth d on. */
  ghost predicate Ahead(nodes: map<Path, Record>, a: Path, b: Path, d: nat)
    decreases |a| - d
  {
    if |a| <= d || |b| <= d then |a| <= d < |b|
    else if a[d] == b[d] then Ahead(nodes, a, b, d + 1)
    else StepBefore(nodes, a, b, d)
  }

  ghost predicate Ascends(nodes: map<Path, Record>, rs: seq<Record>, d: nat) {
    forall i, j | 0 <= i < j < |rs| :: Ahead(nodes, rs[i].path, rs[j].path, d)
  }

  lemma AscendsConcat(nodes: map<Path, Record>, a: seq<Record>, b: seq<Record>, d: nat)
    requires Ascends(nodes, a, d) && Ascends(nodes, b, d)
    requires forall x, y | x in a && y in b :: Ahead(nodes, x.path, y.path, d)
    ensures Ascends(nodes, a + b, d)
  {
    hide Ahead;
    var c := a + b;
    forall i, j | 0 <= i < j < |c| ensures Ahead(nodes, c[i].path, c[j].path, d) {
      if i < |a| <= j {
        assert c[i] in a && c[j] == b[j - |a|] && c[j] in b;
      } else if i >= |a| {
        assert c[i] == b[i - |a|] && c[j] == b[j - |a|];
      }
    }
  }

  /** Entries that agree on one more component are ordered by what follows it. */
  lemma AscendsLift(nodes: map<Path, Record>, rs: seq<Record>, p: Path)
    requires p != [] && Ascends(nodes, rs, |p|) && forall r | r in rs :: IsPrefix(p, r.path)
    ensures Ascends(nodes, rs, |p| - 1)
  {
    var d := |p| - 1;
    forall i, j | 0 <= i < j < |rs| ensures Ahead(nodes, rs[i].path, rs[j].path, d) {
      assert rs[i] in rs && rs[j] in rs;
      assert rs[i].path[d] == p[d] && rs[j].path[d] == p[d];
      assert Ahead(nodes, rs[i].path, rs[j].path, d + 1);
    }
  }

  /** A record followed by all below it. */
  lemma {:induction false} BlockAscends(t: Table, list: seq<Record>, c: Record)
    requires Good(t, list) && Bounded(list) && c in list && Ascends(t.nodes, Below(list, c), |c.path|)
    ensures Ascends(t.nodes, [c] + Below(list, c), |c.path| - 1)
    ensures forall x | x in [c] + Below(list, c) :: IsPrefix(c.path, x.path)
  {
    hide Linked, Ordered, Below, Bounded;
    var below := Below(list, c);
    forall x | x in below ensures IsPrefix(c.path, x.path) && Ahead(t.nodes, c.path, x.path, |c.path|) {
      BelowMembers(t, list, c, x);
    }
    AscendsConcat(t.nodes, [c], below, |c.path|);
    assert c.path != [] by {
      PathNonempty(t, c.path);
    }
    AscendsLift(t.nodes, [c] + below, c.path);
  }

  lemma PathNonempty(t: Table, p: Path)
    requires Linked(t) && p in t.nodes
    ensures p != []
  {
    hide LinkedAt;
    LinkedPath(t, p);
  }

  /** Siblings that come in key order put everything below them in that order. */
  lemma SiblingsAhead(t: Table, list: seq<Record>, r: Record, i: nat, j: nat, x: Record, y: Record)
    requires Good(t, list) && Bounded(list) && r in list && i < j < |list|
    requires list[i].parent == Some(r.identifier) && list[j].parent == Some(r.identifier)
    requires IsPrefix(list[i].path, x.path) && IsPrefix(list[j].path, y.path)
    ensures Ahead(t.nodes, x.path, y.path, |r.path|)
  {
    hide Linked, Below, Bounded, FileTree.Less;
    var c, e, d := list[i], list[j], |r.path|;
    ParentIs(t, list, c, r);
    ParentIs(t, list, e, r);
    SiblingNames(t, list, r, i, j);
    KeyOrder(c, e, c);
    OrderedAt(list, i, j);
    assert x.path[d] == c.path[d] && y.path[d] == e.path[d];
    assert x.path[..d + 1] == c.path && y.path[..d + 1] == e.path;
  }

  lemma SiblingNames(t: Table, list: seq<Record>, r: Record, i: nat, j: nat)
    requires Good(t, list) && r in list && i < j < |list|
    requires list[i].parent == Some(r.identifier) && list[j].parent == Some(r.identifier)
    ensures Name(list[i].path) != Name(list[j].path)
  {
    hide Linked, Ordered;
    ParentIs(t, list, list[i], r);
    ParentIs(t, list, list[j], r);
    assert list[i].path == r.path + [Name(list[i].path)];
    assert list[j].path == r.path + [Name(list[j].path)];
    assert list[i].path != list[j].path;
  }

  lemma {:induction false} ScanAscends(t: Table, list: seq<Record>, r: Record, k: nat)
    requires Good(t, list) && Bounded(list) && r in list && k <= |list|
    ensures Ascends(t.nodes, Scan(list, r.identifier, k), |r.path|)
    decreases |list| - r.identifier, 0, |list| - k
  {
    hide Linked, Ordered, Ahead, Below;
    if k < |list| {
      ScanAscends(t, list, r, k + 1);
      var c := list[k];
      if c.parent == Some(r.identifier) {
        BelowAscends(t, list, c);
        BlockAscends(t, list, c);
        ParentIs(t, list, c, r);
        var block, rest := [c] + Below(list, c), Scan(list, r.identifier, k + 1);
        forall x, y | x in block && y in rest ensures Ahead(t.nodes, x.path, y.path, |r.path|) {
          ScanAhead(t, list, r, k, x, y);
        }
        AscendsConcat(t.nodes, block, rest, |r.path|);
      }
    }
  }

  lemma ScanAhead(t: Table, list: seq<Record>, r: Record, k: nat, x: Record, y: Record)
    requires Good(t, list) && Bounded(list) && r in list && k < |list| && list[k].parent == Some(r.identifier)
    requires IsPrefix(list[k].path, x.path) && y in Scan(list, r.identifier, k + 1)
    ensures Ahead(t.nodes, x.path, y.path, |r.path|)
  {
    hide Linked, Ordered, Ahead, Below, Scan;
    ScanMembers(list, r.identifier, k + 1, y);
    var j :| k + 1 <= j < |list| && list[j].parent == Some(r.identifier) && InBlock(list, list[j], y);
    BelowMembers(t, list, list[j], y);
    assert IsPrefix(list[j].path, y.path);
    SiblingsAhead(t, list, r, k, j, x, y);
  }

  lemma {:induction false} BelowAscends(t: Table, list: seq<Record>, r: Record)
    requires Good(t, list) && Bounded(list) && r in list
    ensures Ascends(t.nodes, Below(list, r), |r.path|)
    decreases |list| - r.identifier, 1, 0
  {
    hide Linked, Ordered, Ahead, Scan;
    if !r.isLeaf {
      ScanAscends(t, list, r, 0);
    }
  }

  // ---------------------------------------------------------------- root by root

  /** No directory on the way down to the path was met as a file. */
  ghost predicate Accessible(nodes: map<Path, Record>, p: Path) {
    p != [] && forall n | 0 < n < |p| :: !LeafAt(nodes, p[..n])
  }

  lemma AccessibleOpen(nodes: map<Path, Record>, p: Path)
    requires p != []
    ensures Accessible(nodes, p) <==> p == [p[0]] || Open(nodes, [p[0]], p)
  {
    hide LeafAt;
    assert p[..1] == [p[0]];
  }

  lemma {:induction false} ListedMembers(t: Table, list: seq<Record>, roots: seq<string>, x: Record)
    requires Good(t, list) && Bounded(list)
    ensures x in Listed(t.nodes, list, roots) <==> x in list && Accessible(t.nodes, x.path) && x.path[0] in roots
  {
    hide Linked, Ordered, Open, Accessible, Below, Bounded;
    if roots != [] {
      var init, last := roots[..|roots| - 1], roots[|roots| - 1];
      assert roots == init + [last];
      ListedMembers(t, list, init, x);
      RootMembers(t, list, last, x);
    }
  }

  lemma RootMembers(t: Table, list: seq<Record>, root: string, x: Record)
    requires Good(t, list) && Bounded(list)
    ensures [root] in t.nodes && InBlock(list, t.nodes[[root]], x) <==> x in list && Accessible(t.nodes, x.path) && x.path[0] == root
  {
    hide Ordered, Open, Accessible, Below, Bounded, LinkedAt;
    if [root] in t.nodes {
      LinkedPath(t, [root]);
      BelowMembers(t, list, t.nodes[[root]], x);
    }
    if x in list {
      LinkedPath(t, x.path);
      AccessibleOpen(t.nodes, x.path);
      AncestorIn(t, x.path, 1);
      assert x.path[..1] == [x.path[0]];
    }
    assert Open(t.nodes, [root], x.path) ==> x.path != [] && x.path[0] == root by {
      OpenRoot(t.nodes, root, x.path);
    }
  }

  lemma OpenRoot(nodes: map<Path, Record>, root: string, p: Path)
    ensures Open(nodes, [root], p) ==> p != [] && p[0] == root
  {
    if Open(nodes, [root], p) {
      assert p[..1][0] == root;
    }
  }

  /** Roots in the given order, and pre-order within a root. */
  ghost predicate RootsAhead(nodes: map<Path, Record>, roots: seq<string>, a: Path, b: Path) {
    a != [] && b != [] &&
    ((exists i, j | 0 <= i < j < |roots| :: roots[i] == a[0] && roots[j] == b[0]) ||
     (a[0] == b[0] && Ahead(nodes, a, b, 1)))
  }

  ghost predicate InOrder(nodes: map<Path, Record>, roots: seq<string>, rs: seq<Record>) {
    forall i, j | 0 <= i < j < |rs| :: RootsAhead(nodes, roots, rs[i].path, rs[j].path)
  }

  lemma {:induction false} ListedInOrder(t: Table, list: seq<Record>, roots: seq<string>)
    requires Good(t, list) && Bounded(list)
    ensures InOrder(t.nodes, roots, Listed(t.nodes, list, roots))
  {
    hide Linked, Ordered, Ahead, Below, Bounded, LeafAt;
    if roots != [] {
      var init, last := roots[..|roots| - 1], roots[|roots| - 1];
      ListedInOrder(t, list, init);
      var a, c := Listed(t.nodes, list, init), Listed(t.nodes, list, roots);
      var b := c[|a|..];
      assert c == a + b;
      RootBlock(t, list, last);
      forall i, j | 0 <= i < j < |c| ensures RootsAhead(t.nodes, roots, c[i].path, c[j].path) {
        if j < |a| {
          assert c[i] == a[i] && c[j] == a[j];
          RootsMore(t.nodes, init, last, a[i].path, a[j].path);
        } else if i >= |a| {
          assert c[i] == b[i - |a|] && c[j] == b[j - |a|];
        } else {
          assert c[i] in a && c[j] == b[j - |a|];
          ListedMembers(t, list, init, c[i]);
          LaterRoot(t.nodes, roots, c[i].path, c[j].path);
        }
      }
    }
  }

  lemma RootsMore(nodes: map<Path, Record>, init: seq<string>, last: string, a: Path, b: Path)
    requires RootsAhead(nodes, init, a, b)
    ensures RootsAhead(nodes, init + [last], a, b)
  {
    hide Ahead;
    if !(a[0] == b[0] && Ahead(nodes, a, b, 1)) {
      var i, j :| 0 <= i < j < |init| && init[i] == a[0] && init[j] == b[0];
      assert (init + [last])[i] == a[0] && (init + [last])[j] == b[0];
    }
  }

  lemma LaterRoot(nodes: map<Path, Record>, roots: seq<string>, a: Path, b: Path)
    requires roots != [] && a != [] && b != [] && a[0] in roots[..|roots| - 1] && b[0] == roots[|roots| - 1]
    ensures RootsAhead(nodes, roots, a, b)
  {
    hide Ahead;
    var i :| 0 <= i < |roots| - 1 && roots[..|roots| - 1][i] == a[0];
    assert roots[i] == a[0];
  }

  /** One root with everything below it. */
  lemma RootBlock(t: Table, list: seq<Record>, root: string)
    requires Good(t, list) && Bounded(list)
    ensures [root] in t.nodes ==>
      var block := [t.nodes[[root]]] + Below(list, t.nodes[[root]]);
      Ascends(t.nodes, block, 1) && forall x | x in block :: x.path != [] && x.path[0] == root
  {
    hide Linked, Ordered, Ahead, Below, Bounded;
    if [root] in t.nodes {
      var r := t.nodes[[root]];
      LinkedRoot(t, root);
      BelowAscends(t, list, r);
      BlockAscends(t, list, r);
      forall x | x in Below(list, r) ensures Ahead(t.nodes, r.path, x.path, 1) {
        BelowMembers(t, list, r, x);
        AheadShorter(t.nodes, r.path, x.path);
      }
      AscendsConcat(t.nodes, [r], Below(list, r), 1);
      forall x | x in [r] + Below(list, r) ensures x.path != [] && x.path[0] == root {
        assert IsPrefix(r.path, x.path);
        assert x.path[..1][0] == root;
      }
    }
  }

  lemma AheadShorter(nodes: map<Path, Record>, a: Path, b: Path)
    requires |a| < |b|
    ensures Ahead(nodes, a, b, |a|)
  {}

  lemma LinkedRoot(t: Table, root: string)
    requires Linked(t) && [root] in t.nodes
    ensures t.nodes[[root]].path == [root]
  {
    hide LinkedAt;
    LinkedPath(t, [root]);
  }

  // ---------------------------------------------------------------- pre-order is contiguous and without repetition

  lemma {:induction false} AheadIrreflexive(nodes: map<Path, Record>, a: Path, d: nat)
    ensures !Ahead(nodes, a, a, d)
    decreases |a| - d
  {
    if d < |a| {
      AheadIrreflexive(nodes, a, d + 1);
    }
  }

  /** What stands between a record and something below it is below it too. */
  lemma {:induction false} AheadBetween(nodes: map<Path, Record>, a: Path, b: Path, c: Path, d: nat)
    requires IsPrefix(a, c) && d <= |a| && d <= |b| && a[..d] == b[..d]
    requires Ahead(nodes, a, b, d) && Ahead(nodes, b, c, d)
    ensures IsPrefix(a, b)
    decreases |a| - d
  {
    if d < |a| {
      hide FileTree.Less;
      assert a[d] == c[d] && a[..d + 1] == c[..d + 1];
      FileTreeTheorems.LessOrder(a[d], b[d], a[d]);
      assert a[d] == b[d];
      assert a[..d + 1] == a[..d] + [a[d]] && b[..d + 1] == b[..d] + [b[d]];
      AheadBetween(nodes, a, b, c, d + 1);
    }
  }

  /** All that is below a record follows it without a gap. */
  ghost predicate Contiguous(rs: seq<Record>) {
    forall i, j, k | 0 <= i < j < k < |rs| && IsPrefix(rs[i].path, rs[k].path) :: IsPrefix(rs[i].path, rs[j].path)
  }

  /** In order means: nothing twice, and all that is below a record follows it without a gap. */
  lemma OrderedOnce(nodes: map<Path, Record>, roots: seq<string>, rs: seq<Record>)
    requires InOrder(nodes, roots, rs) && NoRepeats(roots)
    ensures NoRepeats(rs)
    ensures Contiguous(rs)
  {
    hide Ahead, IsPrefix;
    forall i, j | 0 <= i < j < |rs| ensures rs[i] != rs[j] {
      AheadIrreflexive(nodes, rs[i].path, 1);
    }
    forall i, j, k | 0 <= i < j < k < |rs| && IsPrefix(rs[i].path, rs[k].path) ensures IsPrefix(rs[i].path, rs[j].path) {
      RootsBetween(nodes, roots, rs[i].path, rs[j].path, rs[k].path);
    }
  }

  lemma RootsBetween(nodes: map<Path, Record>, roots: seq<string>, a: Path, b: Path, c: Path)
    requires NoRepeats(roots) && IsPrefix(a, c) && RootsAhead(nodes, roots, a, b) && RootsAhead(nodes, roots, b, c)
    ensures IsPrefix(a, b)
  {
    hide Ahead;
    assert a[0] == c[0];
    if a[0] == b[0] {
      assert a[..1] == b[..1];
      AheadBetween(nodes, a, b, c, 1);
    }
  }

  // ---------------------------------------------------------------- totals

  function Share(r: Record): Counts {
    if |r.path| == 1 then r.counts else ZERO
  }

  function SumOf(rs: seq<Record>): Counts {
    if rs == [] then ZERO else Plus(SumOf(rs[..|rs| - 1]), Share(rs[|rs| - 1]))
  }

  function GainUnder(f: File, roots: seq<string>): Counts {
    if PathOf(f)[0] in roots then Gain(f) else ZERO
  }

  /** The sum over the files below the roots. */
  function UnderRoots(files: seq<File>, roots: seq<string>): Counts {
    if files == [] then ZERO
    else Plus(UnderRoots(files[..|files| - 1], roots), GainUnder(files[|files| - 1], roots))
  }

  method DepthOneTotal(rs: seq<Record>) returns (total: Counts)
    ensures total == SumOf(rs)
  {
    hide Plus;
    total := ZERO;
    for i := 0 to |rs|
      invariant total == SumOf(rs[..i])
    {
      assert rs[..i + 1][..i] == rs[..i];
      if |rs[i].path| == 1 {
        total := Plus(total, rs[i].counts);
      } else {
        PlusZero(total);
      }
    }
    assert rs[..|rs|] == rs;
  }

  lemma PlusMoves(a: Counts, b: Counts, c: Counts)
    ensures Plus(Plus(a, b), c) == Plus(a, Plus(b, c)) && Plus(Plus(a, b), c) == Plus(Plus(a, c), b)
  {}

  lemma {:induction false} SumConcat(a: seq<Record>, b: seq<Record>)
    ensures SumOf(a + b) == Plus(SumOf(a), SumOf(b))
    decreases |b|
  {
    hide Plus, Share;
    if b == [] {
      assert a + b == a;
      PlusZero(SumOf(a));
    } else {
      var init := b[..|b| - 1];
      assert (a + b)[..|a + b| - 1] == a + init;
      SumConcat(a, init);
      PlusMoves(SumOf(a), SumOf(init), Share(b[|b| - 1]));
    }
  }

  lemma {:induction false} SumDeep(rs: seq<Record>)
    requires forall r | r in rs :: |r.path| > 1
    ensures SumOf(rs) == ZERO
  {
    hide Plus;
    if rs != [] {
      assert rs[|rs| - 1] in rs;
      SumDeep(rs[..|rs| - 1]);
      PlusZero(ZERO);
    }
  }

  lemma {:induction false} RootsAdd(files: seq<File>, init: seq<string>, last: string)
    requires last !in init
    ensures UnderRoots(files, init + [last]) == Plus(UnderRoots(files, init), Total(files, [last]))
  {
    hide PathOf, Gain, Plus, GainUnder, IsPrefix;
    if files == [] {
      PlusZero(ZERO);
    } else {
      var less, f := files[..|files| - 1], files[|files| - 1];
      RootsAdd(less, init, last);
      var a, b := UnderRoots(less, init), Total(less, [last]);
      GainAdds(f, init, last);
      PlusMoves(a, b, GainUnder(f, init));
      PlusMoves(a, b, Gain(f));
      PlusZero(b);
      PlusZero(a);
    }
  }

  lemma GainAdds(f: File, init: seq<string>, last: string)
    requires last !in init
    ensures GainUnder(f, init + [last]) == if IsPrefix([last], PathOf(f)) then Gain(f) else GainUnder(f, init)
    ensures IsPrefix([last], PathOf(f)) ==> GainUnder(f, init) == ZERO
  {
    hide PathOf, Gain;
    var path := PathOf(f);
    assert IsPrefix([last], path) <==> path[0] == last;
  }

  lemma {:induction false} NoRoots(files: seq<File>)
    ensures UnderRoots(files, []) == ZERO
  {
    hide Plus, PathOf;
    if files != [] {
      NoRoots(files[..|files| - 1]);
      PlusZero(ZERO);
    }
  }

  /** The depth-one records add up to exactly the files below the roots. */
  lemma {:induction false} ListedTotal(t: Table, list: seq<Record>, files: seq<File>, roots: seq<string>)
    requires Filled(t, files) && Good(t, list) && Bounded(list) && NoRepeats(roots)
    ensures SumOf(Listed(t.nodes, list, roots)) == UnderRoots(files, roots)
  {
    hide Linked, Ordered, Below, Bounded, SumOf, Total, Plus, UnderRoots;
    if roots == [] {
      NoRoots(files);
      SumDeep([]);
    } else {
      var init, last := roots[..|roots| - 1], roots[|roots| - 1];
      ListedTotal(t, list, files, init);
      assert roots == init + [last];
      RootsAdd(files, init, last);
      if [last] in t.nodes {
        RootSum(t, list, files, last);
        SumConcat(Listed(t.nodes, list, init), [t.nodes[[last]]] + Below(list, t.nodes[[last]]));
      } else {
        TotalOutside(files, [last]);
        PlusZero(UnderRoots(files, init));
        assert Listed(t.nodes, list, roots) == Listed(t.nodes, list, init);
      }
    }
  }

  lemma RootSum(t: Table, list: seq<Record>, files: seq<File>, root: string)
    requires Filled(t, files) && Good(t, list) && Bounded(list) && [root] in t.nodes
    ensures SumOf([t.nodes[[root]]] + Below(list, t.nodes[[root]])) == Total(files, [root])
  {
    hide Linked, Ordered, Below, Bounded, Total, Plus;
    var r := t.nodes[[root]];
    LinkedRoot(t, root);
    forall x | x in Below(list, r) ensures |x.path| > 1 {
      BelowMembers(t, list, r, x);
    }
    SumDeep(Below(list, r));
    SumConcat([r], Below(list, r));
    assert [r][..0] == [];
    PlusZero(r.counts);
  }

  // ---------------------------------------------------------------- when the listing is complete

  lemma {:induction false} MetAsFileMeaning(files: seq<File>, p: Path)
    ensures MetAsFile(files, p) <==> exists i :: MetAt(files, p, i)
  {
    if files != [] {
      hide PathOf;
      MetAsFileMeaning(files[1..], p);
      if MetAsFile(files[1..], p) && !IsPrefix(p, PathOf(files[0])) {
        var i :| MetAt(files[1..], p, i);
        assert MetAt(files, p, i + 1) by {
          assert files[1..][i] == files[i + 1];
          assert forall k | 0 < k < i + 1 :: files[k] == files[1..][k - 1];
        }
      }
      if IsPrefix(p, PathOf(files[0])) && PathOf(files[0]) == p {
        assert MetAt(files, p, 0);
      }
      forall i | MetAt(files, p, i) ensures MetAsFile(files, p) {
        if i > 0 {
          assert MetAt(files[1..], p, i - 1) by {
            assert forall k | 0 <= k < i - 1 :: files[1..][k] == files[k + 1];
          }
        }
      }
    }
  }

  /** File number i is p, and no earlier file is at or below p. */
  ghost predicate MetAt(files: seq<File>, p: Path, i: int) {
    0 <= i < |files| && PathOf(files[i]) == p && forall k | 0 <= k < i :: !IsPrefix(p, PathOf(files[k]))
  }

  /** Some file below the roots comes first in its own place, and another file lies below it. */
  ghost predicate Shadowing(files: seq<File>, roots: seq<string>) {
    exists i, j | 0 <= i < |files| && 0 <= j < |files| ::
      MetAt(files, PathOf(files[i]), i) && PathOf(files[i])[0] in roots &&
      IsPrefix(PathOf(files[i]), PathOf(files[j])) && PathOf(files[i]) != PathOf(files[j])
  }

  ghost predicate Complete(t: Table, roots: seq<string>) {
    forall p | p in t.nodes && p != [] && p[0] in roots :: Accessible(t.nodes, p)
  }

  lemma ShadowingHides(t: Table, files: seq<File>, roots: seq<string>)
    requires Filled(t, files) && Shadowing(files, roots)
    ensures !Complete(t, roots)
  {
    hide Linked, PathOf, Total, MetAsFile;
    var i, j :| 0 <= i < |files| && 0 <= j < |files| && MetAt(files, PathOf(files[i]), i) && PathOf(files[i])[0] in roots &&
      IsPrefix(PathOf(files[i]), PathOf(files[j])) && PathOf(files[i]) != PathOf(files[j]);
    var a, b := PathOf(files[i]), PathOf(files[j]);
    assert files[i] in files && files[j] in files;
    MetAsFileMeaning(files, a);
    assert IsPrefix(a, a) && IsPrefix(b, b);
    assert Reached(files, a) && Reached(files, b);
    assert LeafAt(t.nodes, b[..|a|]);
    assert !Accessible(t.nodes, b);
  }

  lemma HiddenIsShadowed(t: Table, files: seq<File>, roots: seq<string>)
    requires Filled(t, files) && !Complete(t, roots)
    ensures Shadowing(files, roots)
  {
    hide Linked, PathOf, Total, MetAsFile;
    var p :| p in t.nodes && p != [] && p[0] in roots && !Accessible(t.nodes, p);
    var n :| 0 < n < |p| && LeafAt(t.nodes, p[..n]);
    var a := p[..n];
    MetAsFileMeaning(files, a);
    var i :| MetAt(files, a, i);
    assert Reached(files, p);
    var f :| f in files && IsPrefix(p, PathOf(f));
    var j :| 0 <= j < |files| && files[j] == f;
    assert PathOf(f)[..|a|] == p[..|a|];
    assert IsPrefix(a, PathOf(files[j])) && a != PathOf(files[j]);
    assert MetAt(files, PathOf(files[i]), i);
  }

  /** A file "source files/a" listed before "source files/a/b" shadows it. */
  lemma ShadowingExample(f: File, g: File)
    requires PathOf(f) == ["source files", "a"] && PathOf(g) == ["source files", "a", "b"]
    ensures Shadowing([f, g], ROOTS) && !Shadowing([g, f], ROOTS)
  {
    hide PathOf;
    var files := [f, g];
    assert MetAt(files, PathOf(files[0]), 0);
    assert ROOTS[0] == PathOf(files[0])[0];
    assert PathOf(files[1])[..2] == PathOf(files[0]);
    var turned := [g, f];
    assert IsPrefix(PathOf(turned[1]), PathOf(turned[0]));
    assert !IsPrefix(PathOf(turned[0]), PathOf(turned[1]));
  }

  // ---------------------------------------------------------------- the listing as a whole

  lemma RootsDistinct()
    ensures NoRepeats(ROOTS)
  {
    assert ROOTS[0][1] == 'o' && ROOTS[1][1] == 'p' && ROOTS[2][1] == 'e';
  }

  /**
   * Of the records under the known roots the listing gives exactly those that can be reached without passing
   * through a file, once each, in contiguous pre-order; its depth-one records add up to the files under the roots;
   * and it leaves nothing out exactly when no file shadows another.
   */
  lemma ListingTheorem(t: Table, files: seq<File>)
    requires Filled(t, files)
    ensures var list := Arrange(Values(t));
      Good(t, list) && Bounded(list) &&
      var rs := Listed(t.nodes, list, ROOTS);
      (forall p | p in t.nodes :: p != [] && (t.nodes[p] in rs <==> p[0] in ROOTS && Accessible(t.nodes, p))) &&
      (forall r | r in rs :: r.path in t.nodes && t.nodes[r.path] == r) &&
      InOrder(t.nodes, ROOTS, rs) && NoRepeats(rs) && Contiguous(rs) && SumOf(rs) == UnderRoots(files, ROOTS) &&
      ((forall p | p in t.nodes && p[0] in ROOTS :: t.nodes[p] in rs) <==> !Shadowing(files, ROOTS))
  {
    hide Contiguous, NoRepeats, Ordered, Below, Bounded, LinkedAt, Arrange, Values, InOrder, SumOf, UnderRoots, Total, Accessible, Shadowing, Listed;
    var list := Arrange(Values(t));
    ArrangedGood(t);
    GoodBounded(t, list);
    var rs := Listed(t.nodes, list, ROOTS);
    forall p | p in t.nodes ensures p != [] && (t.nodes[p] in rs <==> p[0] in ROOTS && Accessible(t.nodes, p)) {
      LinkedPath(t, p);
      ListedMembers(t, list, ROOTS, t.nodes[p]);
    }
    forall r | r in rs ensures r.path in t.nodes && t.nodes[r.path] == r {
      ListedMembers(t, list, ROOTS, r);
    }
    ListedInOrder(t, list, ROOTS);
    RootsDistinct();
    OrderedOnce(t.nodes, ROOTS, rs);
    ListedTotal(t, list, files, ROOTS);
    if Shadowing(files, ROOTS) {
      ShadowingHides(t, files, ROOTS);
    } else if !Complete(t, ROOTS) {
      HiddenIsShadowed(t, files, ROOTS);
    }
  }
}
