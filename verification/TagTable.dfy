/** The table in which a forest of tags is drawn: tags in every other column, connectors between them. */
module TagTable {
  import opened Options

  datatype Tag = Tag(id: nat, children: seq<Tag>)

  datatype Cell = TagCell(id: nat) | Link(lines: string)

  /** Row and column. */
  type Pos = (nat, nat)

  type Matrix = map<Pos, Cell>

  // ---------------------------------------------------------------- geometry

  /** The last row of a subtree, counted from its first. */
  function Extent(tag: Tag): nat
    decreases tag, 1
  {
    if tag.children == [] then 0 else Offset(tag.children) - 2
  }

  /** The first free row after some siblings, counted from the first of them. */
  function Offset(tags: seq<Tag>): (n: nat)
    ensures tags != [] ==> n >= 2
    decreases tags, 0
  {
    if tags == [] then 0 else Offset(tags[..|tags| - 1]) + Extent(tags[|tags| - 1]) + 2
  }

  /** A tag in its place, with the rows of its children. */
  datatype Spot = Spot(row: nat, col: nat, id: nat, childRows: seq<nat>)

  function ChildRows(children: seq<Tag>, row: nat): seq<nat> {
    seq(|children|, k requires 0 <= k < |children| => row + Offset(children[..k]))
  }

  function Spots(tag: Tag, row: nat, col: nat): seq<Spot>
    decreases tag, 1
  {
    [Spot(row, col, tag.id, ChildRows(tag.children, row))] + AllSpots(tag.children, row, col + 2)
  }

  function AllSpots(tags: seq<Tag>, row: nat, col: nat): seq<Spot>
    decreases tags, 0
  {
    if tags == [] then []
    else
      var init := tags[..|tags| - 1];
      AllSpots(init, row, col) + Spots(tags[|tags| - 1], row + Offset(init), col)
  }

  // ---------------------------------------------------------------- drawing

  /** The lines of a connector: left to the parent, right to a child, up and down along the column. */
  function Lines(rows: seq<nat>, r: nat): string
    requires rows != []
  {
    (if r == rows[0] then "LR" else if r in rows then "TR" else "T") + if r < rows[|rows| - 1] then "B" else ""
  }

  /** A connector has a line to the left in the row of the parent, to the right in the rows of children, upwards below
      the first of them and downwards above the last, and no line twice. */
  lemma LinesMeaning(rows: seq<nat>, r: nat)
    requires rows != [] && rows[0] <= r <= rows[|rows| - 1]
    ensures 'L' in Lines(rows, r) <==> r == rows[0]
    ensures 'R' in Lines(rows, r) <==> r in rows
    ensures 'T' in Lines(rows, r) <==> r > rows[0]
    ensures 'B' in Lines(rows, r) <==> r < rows[|rows| - 1]
    ensures forall c | c in Lines(rows, r) :: c in "LRTB"
    ensures forall i, j | 0 <= i < j < |Lines(rows, r)| :: Lines(rows, r)[i] != Lines(rows, r)[j]
  {
    var first := if r == rows[0] then "LR" else if r in rows then "TR" else "T";
    assert "LR"[0] == 'L' && "LR"[1] == 'R' && "TR"[0] == 'T' && "TR"[1] == 'R' && "T"[0] == 'T' && "B"[0] == 'B';
    assert first[0] in first && (|first| > 1 ==> first[1] in first);
    assert forall c :: c in Lines(rows, r) <==> c in first || (c == 'B' && r < rows[|rows| - 1]);
    assert forall c :: c in "LRTB" <==> c == 'L' || c == 'R' || c == 'T' || c == 'B';
  }

  /** What the connectors to children in the given rows put into a cell. */
  function ConnectorAt(col: nat, rows: seq<nat>, p: Pos): Option<Cell> {
    if rows != [] && rows[0] <= p.0 <= rows[|rows| - 1] && p.1 == col + 1 then Some(Link(Lines(rows, p.0))) else None
  }

  function OwnAt(s: Spot, p: Pos): Option<Cell> {
    if p == (s.row, s.col) then Some(TagCell(s.id)) else ConnectorAt(s.col, s.childRows, p)
  }

  function Over(below: Option<Cell>, above: Option<Cell>): Option<Cell> {
    if above.Some? then above else below
  }

  /** What the spots put into a cell, later ones over earlier ones. */
  function DrawnAt(spots: seq<Spot>, p: Pos): Option<Cell> {
    if spots == [] then None else Over(DrawnAt(spots[..|spots| - 1], p), OwnAt(spots[|spots| - 1], p))
  }

  lemma {:induction false} DrawnConcat(a: seq<Spot>, b: seq<Spot>, p: Pos)
    ensures DrawnAt(a + b, p) == Over(DrawnAt(a, p), DrawnAt(b, p))
    decreases |b|
  {
    hide OwnAt;
    if b == [] {
      assert a + b == a;
    } else {
      var init := b[..|b| - 1];
      assert (a + b)[..|a + b| - 1] == a + init;
      DrawnConcat(a, init, p);
    }
  }

  // ---------------------------------------------------------------- subtrees keep to their rows

  /** The last row of the connectors of a tag, or its own row. */
  function Reach(s: Spot): nat {
    if s.childRows == [] then s.row else s.childRows[|s.childRows| - 1]
  }

  /** Rows from..to, columns from col on, every other column. */
  predicate Within(s: Spot, from: nat, to: int, col: nat) {
    from <= s.row <= Reach(s) <= to && col <= s.col && (s.col - col) % 2 == 0 && Increasing(s.childRows) &&
    (s.childRows != [] ==> s.childRows[0] == s.row)
  }

  predicate Increasing(rows: seq<nat>) {
    forall i, j | 0 <= i < j < |rows| :: rows[i] < rows[j]
  }

  lemma {:induction false} OffsetUp(tags: seq<Tag>, i: nat, j: nat)
    requires i < j <= |tags|
    ensures Offset(tags[..i]) + 2 <= Offset(tags[..j])
    decreases j
  {
    hide Extent;
    assert tags[..j][..j - 1] == tags[..j - 1];
    if i < j - 1 {
      OffsetUp(tags, i, j - 1);
    }
  }

  lemma RootWithin(tag: Tag, row: nat, col: nat)
    ensures Within(Spot(row, col, tag.id, ChildRows(tag.children, row)), row, row + Extent(tag), col)
  {
    hide Offset;
    var rows, n := ChildRows(tag.children, row), |tag.children|;
    forall i, j | 0 <= i < j < n ensures rows[i] < rows[j] {
      OffsetUp(tag.children, i, j);
    }
    if n > 0 {
      assert rows[0] == row by {
        OffsetNone();
        assert tag.children[..0] == [];
      }
      OffsetUp(tag.children, n - 1, n);
      assert tag.children[..n] == tag.children;
      if n > 1 {
        OffsetUp(tag.children, 0, n - 1);
      }
    }
  }

  lemma OffsetNone()
    ensures Offset([]) == 0
  {}

  lemma {:induction false} SpotsWithin(tag: Tag, row: nat, col: nat)
    ensures forall s | s in Spots(tag, row, col) :: Within(s, row, row + Extent(tag), col)
    decreases tag, 1
  {
    hide Within, Offset, AllSpots, ChildRows;
    RootWithin(tag, row, col);
    AllSpotsWithin(tag.children, row, col + 2);
    var below, last := AllSpots(tag.children, row, col + 2), row + Extent(tag);
    forall s | s in below ensures Within(s, row, last, col) {
      SomeChildren(tag, row, col + 2, s);
      WithinWider(s, row, row + Offset(tag.children) - 2, col + 2, row, row + Extent(tag), col);
    }
  }

  lemma SomeChildren(tag: Tag, row: nat, col: nat, s: Spot)
    requires s in AllSpots(tag.children, row, col)
    ensures tag.children != [] && Extent(tag) == Offset(tag.children) - 2
  {}

  lemma WithinWider(s: Spot, from: nat, to: int, col: nat, from': nat, to': int, col': nat)
    requires Within(s, from, to, col) && from' <= from && to <= to' && col' <= col && (col - col') % 2 == 0
    ensures Within(s, from', to', col')
  {}

  lemma {:induction false} AllSpotsWithin(tags: seq<Tag>, row: nat, col: nat)
    ensures forall s | s in AllSpots(tags, row, col) :: Within(s, row, row + Offset(tags) - 2, col)
    decreases tags, 0
  {
    if tags != [] {
      hide Within, Spots, Extent;
      var init, last := tags[..|tags| - 1], tags[|tags| - 1];
      AllSpotsWithin(init, row, col);
      SpotsWithin(last, row + Offset(init), col);
      forall s | s in AllSpots(tags, row, col) ensures Within(s, row, row + Offset(tags) - 2, col) {
        if s in AllSpots(init, row, col) {
          WithinWider(s, row, row + Offset(init) - 2, col, row, row + Offset(tags) - 2, col);
        } else {
          assert s in Spots(last, row + Offset(init), col);
          WithinWider(s, row + Offset(init), row + Offset(init) + Extent(last), col, row, row + Offset(tags) - 2, col);
        }
      }
    }
  }

  /** A subtree fills its interval: some tag stands in its last row. */
  lemma {:induction false} LastRowTaken(tag: Tag, row: nat, col: nat)
    ensures exists s | s in Spots(tag, row, col) :: s.row == row + Extent(tag)
    decreases tag
  {
    if tag.children == [] {
      assert Spots(tag, row, col)[0].row == row;
    } else {
      var init, last := tag.children[..|tag.children| - 1], tag.children[|tag.children| - 1];
      LastRowTaken(last, row + Offset(init), col + 2);
      var s :| s in Spots(last, row + Offset(init), col + 2) && s.row == row + Offset(init) + Extent(last);
      assert s in AllSpots(tag.children, row, col + 2);
      assert s in Spots(tag, row, col);
      assert Extent(tag) == Offset(init) + Extent(last);
    }
  }

  /** Where the children of a tag stand: two columns to the right, the first in the row of its parent, every other one
      two rows below the last tag of the subtree before it. */
  lemma ChildPlacement(tag: Tag, row: nat, col: nat, k: nat)
    requires k < |tag.children|
    ensures Spots(tag, row, col)[0] == Spot(row, col, tag.id, ChildRows(tag.children, row))
    ensures var rows := ChildRows(tag.children, row);
      && |rows| == |tag.children| && rows[0] == row
      && (forall s | s in Spots(tag.children[k], rows[k], col + 2) :: s in Spots(tag, row, col))
      && (k + 1 < |rows| ==>
            && (exists s | s in Spots(tag.children[k], rows[k], col + 2) :: s.row + 2 == rows[k + 1])
            && (forall s | s in Spots(tag.children[k], rows[k], col + 2) :: s.row + 2 <= rows[k + 1]))
  {
    hide Offset, Extent, Spots;
    var children, rows := tag.children, ChildRows(tag.children, row);
    var child := children[k];
    OffsetNone();
    assert children[..0] == [];
    ChildSpots(children, row, col + 2, k);
    SpotsRoot(tag, row, col);
    if k + 1 < |rows| {
      OffsetNext(children, k);
      SpotsWithin(child, rows[k], col + 2);
      LastRowTaken(child, rows[k], col + 2);
    }
  }

  lemma SpotsRoot(tag: Tag, row: nat, col: nat)
    ensures Spots(tag, row, col) == [Spot(row, col, tag.id, ChildRows(tag.children, row))] + AllSpots(tag.children, row, col + 2)
  {
    hide AllSpots, ChildRows;
  }

  lemma OffsetNext(tags: seq<Tag>, k: nat)
    requires k < |tags|
    ensures Offset(tags[..k + 1]) == Offset(tags[..k]) + Extent(tags[k]) + 2
  {
    hide Extent;
    assert tags[..k + 1][..k] == tags[..k];
  }

  lemma {:induction false} ChildSpots(tags: seq<Tag>, row: nat, col: nat, k: nat)
    requires k < |tags|
    ensures forall s | s in Spots(tags[k], row + Offset(tags[..k]), col) :: s in AllSpots(tags, row, col)
    decreases |tags|
  {
    hide Spots, Offset;
    var init := tags[..|tags| - 1];
    if k < |init| {
      ChildSpots(init, row, col, k);
      assert init[..k] == tags[..k];
    } else {
      assert tags[..k] == init;
    }
  }

  // ---------------------------------------------------------------- no two tags meet

  /** Neither the tags nor their connectors share a cell. */
  predicate Apart(a: Spot, b: Spot) {
    a.col != b.col || Reach(a) < b.row || Reach(b) < a.row
  }

  ghost predicate AllApart(spots: seq<Spot>) {
    forall i, j | 0 <= i < j < |spots| :: Apart(spots[i], spots[j])
  }

  lemma ApartConcat(a: seq<Spot>, b: seq<Spot>)
    requires AllApart(a) && AllApart(b) && forall s, t | s in a && t in b :: Apart(s, t)
    ensures AllApart(a + b)
  {
    hide Apart;
    var c := a + b;
    forall i, j | 0 <= i < j < |c| ensures Apart(c[i], c[j]) {
      if i < |a| <= j {
        assert c[i] in a && c[j] == b[j - |a|] && c[j] in b;
      } else if i >= |a| {
        assert c[i] == b[i - |a|] && c[j] == b[j - |a|];
      }
    }
  }

  lemma {:induction false} SpotsApart(tag: Tag, row: nat, col: nat)
    ensures AllApart(Spots(tag, row, col))
    decreases tag, 1
  {
    hide Reach, ChildRows, Offset, AllSpots;
    var root := [Spot(row, col, tag.id, ChildRows(tag.children, row))];
    AllSpotsApart(tag.children, row, col + 2);
    AllSpotsWithin(tag.children, row, col + 2);
    ApartConcat(root, AllSpots(tag.children, row, col + 2));
  }

  lemma {:induction false} AllSpotsApart(tags: seq<Tag>, row: nat, col: nat)
    ensures AllApart(AllSpots(tags, row, col))
    decreases tags, 0
  {
    if tags != [] {
      hide Spots, Extent, Reach;
      var init, last := tags[..|tags| - 1], tags[|tags| - 1];
      AllSpotsApart(init, row, col);
      SpotsApart(last, row + Offset(init), col);
      AllSpotsWithin(init, row, col);
      SpotsWithin(last, row + Offset(init), col);
      ApartConcat(AllSpots(init, row, col), Spots(last, row + Offset(init), col));
    }
  }

  // ---------------------------------------------------------------- what is drawn where

  lemma {:induction false} DrawnWithin(spots: seq<Spot>, from: nat, to: int, col: nat, p: Pos)
    requires forall s | s in spots :: Within(s, from, to, col)
    ensures DrawnAt(spots, p).Some? ==> from <= p.0 <= to && col <= p.1
  {
    hide Lines;
    if spots != [] {
      assert spots[|spots| - 1] in spots;
      DrawnWithin(spots[..|spots| - 1], from, to, col, p);
    }
  }

  /** The spot puts this cell here. */
  predicate Puts(s: Spot, p: Pos, cell: Cell) {
    (p == (s.row, s.col) && cell == TagCell(s.id)) ||
    (s.childRows != [] && s.row <= p.0 <= Reach(s) && p.1 == s.col + 1 && cell == Link(Lines(s.childRows, p.0)))
  }

  lemma OwnMeaning(s: Spot, p: Pos, cell: Cell)
    requires s.childRows != [] ==> s.childRows[0] == s.row
    ensures OwnAt(s, p) == Some(cell) <==> Puts(s, p, cell)
  {
    hide Lines;
  }

  /** Two spots that are apart and in columns of the same parity never put anything into the same cell. */
  lemma PutsOnce(s: Spot, t: Spot, p: Pos, cell: Cell, cell': Cell)
    requires Apart(s, t) && (s.col - t.col) % 2 == 0 && s.row <= Reach(s) && t.row <= Reach(t)
    ensures !(Puts(s, p, cell) && Puts(t, p, cell'))
  {
    hide Lines;
  }

  lemma {:induction false} DrawnMeaning(spots: seq<Spot>, to: int, p: Pos, cell: Cell)
    requires AllApart(spots) && forall s | s in spots :: Within(s, 0, to, 0)
    ensures DrawnAt(spots, p) == Some(cell) <==> exists s | s in spots :: Puts(s, p, cell)
  {
    hide OwnAt, Apart, Puts;
    if spots != [] {
      var init, last := spots[..|spots| - 1], spots[|spots| - 1];
      assert spots == init + [last] && last in spots;
      DrawnMeaning(init, to, p, cell);
      OwnMeaning(last, p, cell);
      if OwnAt(last, p).Some? {
        OwnMeaning(last, p, OwnAt(last, p).value);
        forall s | s in init ensures !Puts(s, p, cell) {
          var i :| 0 <= i < |init| && init[i] == s;
          assert Apart(spots[i], spots[|spots| - 1]);
          SameParity(s, last, to);
          PutsOnce(s, last, p, cell, OwnAt(last, p).value);
        }
      }
    }
  }

  lemma SameParity(s: Spot, t: Spot, to: int)
    requires Within(s, 0, to, 0) && Within(t, 0, to, 0)
    ensures (s.col - t.col) % 2 == 0
  {}

  /**
   * In the drawing of a whole forest every tag has a cell of its own, every connector cell belongs to exactly one
   * parent and shows exactly the lines that parent needs there, and connectors never fall on tags.
   */
  lemma LayoutTheorem(tags: seq<Tag>, p: Pos, cell: Cell)
    ensures var spots := AllSpots(tags, 0, 0);
      (DrawnAt(spots, p) == Some(cell) <==> exists s | s in spots :: Puts(s, p, cell)) &&
      (forall i, j, c, c' | 0 <= i < j < |spots| :: !(Puts(spots[i], p, c) && Puts(spots[j], p, c')))
  {
    hide Puts, Within, AllSpots;
    var spots := AllSpots(tags, 0, 0);
    var to := Offset(tags) - 2;
    AllSpotsApart(tags, 0, 0);
    AllSpotsWithin(tags, 0, 0);
    DrawnMeaning(spots, to, p, cell);
    forall i, j, c, c' | 0 <= i < j < |spots| ensures !(Puts(spots[i], p, c) && Puts(spots[j], p, c')) {
      assert spots[i] in spots && spots[j] in spots;
      SameParity(spots[i], spots[j], to);
      Upright(spots[i], to);
      Upright(spots[j], to);
      PutsOnce(spots[i], spots[j], p, c, c');
    }
  }

  lemma Upright(s: Spot, to: int)
    requires Within(s, 0, to, 0)
    ensures s.row <= Reach(s)
  {}

  // ---------------------------------------------------------------- every tag once, every child connected

  function Preorder(tag: Tag): seq<nat>
    decreases tag, 1
  {
    [tag.id] + AllPreorder(tag.children)
  }

  function AllPreorder(tags: seq<Tag>): seq<nat>
    decreases tags, 0
  {
    if tags == [] then [] else AllPreorder(tags[..|tags| - 1]) + Preorder(tags[|tags| - 1])
  }

  function Ids(spots: seq<Spot>): seq<nat> {
    seq(|spots|, i requires 0 <= i < |spots| => spots[i].id)
  }

  /** The spots are the tags of the forest in pre-order, each once. */
  lemma {:induction false} SpotIds(tag: Tag, row: nat, col: nat)
    ensures Ids(Spots(tag, row, col)) == Preorder(tag)
    decreases tag, 1
  {
    hide AllSpots, AllPreorder, ChildRows;
    AllSpotIds(tag.children, row, col + 2);
  }

  lemma {:induction false} AllSpotIds(tags: seq<Tag>, row: nat, col: nat)
    ensures Ids(AllSpots(tags, row, col)) == AllPreorder(tags)
    decreases tags, 0
  {
    if tags != [] {
      hide Spots, Preorder, Offset;
      var init, last := tags[..|tags| - 1], tags[|tags| - 1];
      AllSpotIds(init, row, col);
      SpotIds(last, row + Offset(init), col);
    }
  }

  ghost predicate Leads(spots: seq<Spot>, s: Spot) {
    forall r | r in s.childRows :: exists t | t in spots :: t.row == r && t.col == s.col + 2
  }

  lemma {:induction false} AllSpotsHeads(tags: seq<Tag>, row: nat, col: nat, k: nat)
    requires k < |tags|
    ensures exists t | t in AllSpots(tags, row, col) :: t.row == row + Offset(tags[..k]) && t.col == col
    decreases |tags|
  {
    hide Offset, ChildRows;
    var init, last := tags[..|tags| - 1], tags[|tags| - 1];
    if k < |init| {
      AllSpotsHeads(init, row, col, k);
      assert init[..k] == tags[..k];
    } else {
      var t := Spots(last, row + Offset(init), col)[0];
      assert tags[..k] == init && t in AllSpots(tags, row, col);
    }
  }

  /** Every connector that goes right ends at the tag of a child, two columns further. */
  lemma {:induction false} ConnectorsLead(tag: Tag, row: nat, col: nat)
    ensures forall s | s in Spots(tag, row, col) :: Leads(Spots(tag, row, col), s)
    decreases tag, 1
  {
    hide AllSpots, Offset;
    var spots, below := Spots(tag, row, col), AllSpots(tag.children, row, col + 2);
    AllConnectorsLead(tag.children, row, col + 2);
    assert forall t | t in below :: t in spots;
    forall s | s in spots ensures Leads(spots, s) {
      if s in below {
        LeadsMore(below, spots, s);
      } else {
        assert s == spots[0];
        forall r | r in s.childRows ensures exists t | t in spots :: t.row == r && t.col == s.col + 2 {
          var k :| 0 <= k < |tag.children| && s.childRows[k] == r;
          AllSpotsHeads(tag.children, row, col + 2, k);
        }
      }
    }
  }

  lemma LeadsMore(spots: seq<Spot>, more: seq<Spot>, s: Spot)
    requires Leads(spots, s) && forall t | t in spots :: t in more
    ensures Leads(more, s)
  {}

  lemma {:induction false} AllConnectorsLead(tags: seq<Tag>, row: nat, col: nat)
    ensures forall s | s in AllSpots(tags, row, col) :: Leads(AllSpots(tags, row, col), s)
    decreases tags, 0
  {
    if tags != [] {
      hide Spots, Offset, Leads;
      var init, last := tags[..|tags| - 1], tags[|tags| - 1];
      var spots, a, b := AllSpots(tags, row, col), AllSpots(init, row, col), Spots(last, row + Offset(init), col);
      AllConnectorsLead(init, row, col);
      ConnectorsLead(last, row + Offset(init), col);
      forall s | s in spots ensures Leads(spots, s) {
        if s in a {
          LeadsMore(a, spots, s);
        } else {
          LeadsMore(b, spots, s);
        }
      }
    }
  }
}
