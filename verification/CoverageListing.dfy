/** The recursive listing of coverage statistics, root by root. */
module CoverageListing {
  import opened Options
  import opened Coverage
  import opened Sequences
  import FileTree
  import FileTreeTheorems

  const ROOTS := ["source files", "specifications", "generated models"]

  // ---------------------------------------------------------------- sorting

  function Name(p: Path): string {
    if p == [] then "" else p[|p| - 1]
  }

  /** Directories before files, then by name. */
  predicate KeyBefore(x: Record, y: Record) {
    (!x.isLeaf && y.isLeaf) || ((x.isLeaf <==> y.isLeaf) && FileTree.Less(Name(x.path), Name(y.path)))
  }

  lemma KeyOrder(x: Record, y: Record, z: Record)
    ensures !(KeyBefore(x, y) && KeyBefore(y, x))
    ensures KeyBefore(x, y) && KeyBefore(y, z) ==> KeyBefore(x, z)
    ensures KeyBefore(x, y) || KeyBefore(y, x) || Name(x.path) == Name(y.path)
  {
    hide FileTree.Less;
    FileTreeTheorems.LessOrder(Name(x.path), Name(y.path), Name(z.path));
  }

  lemma KeyIsStrict()
    ensures StrictOrder(KeyBefore)
  {
    hide KeyBefore;
    forall x, y ensures !(KeyBefore(x, y) && KeyBefore(y, x)) { KeyOrder(x, y, x); }
    forall x, y, z ensures KeyBefore(x, y) && KeyBefore(y, z) ==> KeyBefore(x, z) { KeyOrder(x, y, z); }
  }

  /** A stable sort by key. */
  function Arrange(rs: seq<Record>): seq<Record> {
    SortedBy(KeyBefore, rs)
  }

  ghost predicate Ordered(rs: seq<Record>) {
    Arranged(KeyBefore, rs)
  }

  lemma ArrangeOrdered(rs: seq<Record>)
    ensures Ordered(Arrange(rs)) && multiset(Arrange(rs)) == multiset(rs)
  {
    KeyIsStrict();
    SortedByArranged(KeyBefore, rs);
  }

  lemma OrderedAt(rs: seq<Record>, i: nat, j: nat)
    requires Ordered(rs) && i < j < |rs|
    ensures !KeyBefore(rs[j], rs[i])
  {
    hide KeyBefore;
  }

  // ---------------------------------------------------------------- the recursion

  /** Children come after their parents; this is why the recursion ends. */
  ghost predicate Bounded(list: seq<Record>) {
    forall r | r in list :: r.identifier <= |list| && (r.parent.Some? ==> r.parent.value < r.identifier)
  }

  function Below(list: seq<Record>, r: Record): seq<Record>
    requires Bounded(list) && r in list
    decreases |list| - r.identifier, 1, 0
  {
    if r.isLeaf then [] else Scan(list, r.identifier, 0)
  }

  function Scan(list: seq<Record>, id: nat, k: nat): seq<Record>
    requires Bounded(list) && id <= |list| && k <= |list|
    decreases |list| - id, 0, |list| - k
  {
    if k == |list| then []
    else if list[k].parent == Some(id) then [list[k]] + Below(list, list[k]) + Scan(list, id, k + 1)
    else Scan(list, id, k + 1)
  }

  method AllChildren(list: seq<Record>, r: Record) returns (children: seq<Record>)
    requires Bounded(list) && r in list
    ensures children == Below(list, r)
    decreases |list| - r.identifier
  {
    children := [];
    if r.isLeaf {
      return;
    }
    for k := 0 to |list|
      invariant children + Scan(list, r.identifier, k) == Scan(list, r.identifier, 0)
    {
      if list[k].parent == Some(r.identifier) {
        var below := AllChildren(list, list[k]);
        ghost var rest := Scan(list, r.identifier, k + 1);
        assert children + ([list[k]] + below + rest) == children + [list[k]] + below + rest;
        children := children + [list[k]];
        children := children + below;
      }
    }
  }

  /** Root after root, each followed by everything below it. */
  function Listed(nodes: map<Path, Record>, list: seq<Record>, roots: seq<string>): seq<Record>
    requires Bounded(list) && forall p | p in nodes :: nodes[p] in list
  {
    if roots == [] then []
    else
      var last := [roots[|roots| - 1]];
      Listed(nodes, list, roots[..|roots| - 1]) + if last in nodes then [nodes[last]] + Below(list, nodes[last]) else []
  }

  function Values(t: Table): seq<Record>
    requires Linked(t)
  {
    seq(|t.order|, k requires 0 <= k < |t.order| => t.nodes[t.order[k]])
  }

  /** The list the recursion walks over holds every record once, in key order. */
  ghost predicate Good(t: Table, list: seq<Record>) {
    Linked(t) && Ordered(list) && |list| == |t.order| &&
    (forall r | r in list :: r.path in t.nodes && t.nodes[r.path] == r) &&
    (forall p | p in t.nodes :: t.nodes[p] in list) &&
    NoRepeats(list)
  }

  lemma GoodBounded(t: Table, list: seq<Record>)
    requires Good(t, list)
    ensures Bounded(list)
  {
    hide LinkedAt, Ordered;
    forall r | r in list ensures r.identifier <= |list| && (r.parent.Some? ==> r.parent.value < r.identifier) {
      LinkedBounds(t, r.path);
    }
  }

  lemma LinkedBounds(t: Table, p: Path)
    requires p in t.nodes && LinkedAt(t, p)
    ensures 1 <= t.nodes[p].identifier <= |t.order| && t.order[t.nodes[p].identifier - 1] == p
    ensures t.nodes[p].parent.Some? ==> t.nodes[p].parent.value < t.nodes[p].identifier
  {}

  lemma ArrangedGood(t: Table)
    requires Linked(t)
    ensures Good(t, Arrange(Values(t)))
  {
    hide LinkedAt, Ordered, Arrange;
    var values, list := Values(t), Arrange(Values(t));
    ArrangeOrdered(values);
    SizeKept(values, list);
    forall r ensures r in list <==> r in values {
      assert r in list <==> r in multiset(list);
      assert r in values <==> r in multiset(values);
    }
    forall r | r in values ensures r.path in t.nodes && t.nodes[r.path] == r {
      var k :| 0 <= k < |values| && values[k] == r;
      LinkedPath(t, t.order[k]);
    }
    forall p | p in t.nodes ensures t.nodes[p] in values {
      LinkedBounds(t, p);
      assert values[t.nodes[p].identifier - 1] == t.nodes[p];
    }
    forall i, j | 0 <= i < j < |values| ensures values[i] != values[j] {
      assert values[i].identifier == i + 1 && values[j].identifier == j + 1;
    }
    NoRepeatsWithin(values, list);
  }

  lemma SizeKept(a: seq<Record>, b: seq<Record>)
    requires multiset(a) == multiset(b)
    ensures |a| == |b|
  {
    assert |multiset(a)| == |a| && |multiset(b)| == |b|;
  }

  /** The records to store: the known roots in their order, each with all its children. */
  method ListStatistics(t: Table) returns (rs: seq<Record>)
    requires Linked(t)
    ensures var list := Arrange(Values(t));
      Good(t, list) && Bounded(list) && rs == Listed(t.nodes, list, ROOTS)
  {
    hide Linked, Ordered, Below, Arrange, Values;
    var list := Arrange(Values(t));
    ArrangedGood(t);
    GoodBounded(t, list);
    rs := [];
    for i := 0 to |ROOTS|
      invariant rs == Listed(t.nodes, list, ROOTS[..i])
    {
      assert ROOTS[..i + 1][..i] == ROOTS[..i];
      var root := [ROOTS[i]];
      if root in t.nodes {
        var below := AllChildren(list, t.nodes[root]);
        rs := rs + ([t.nodes[root]] + below);
      }
    }
    assert ROOTS[..|ROOTS|] == ROOTS;
  }
}
