/** How the tag table is filled in, tag by tag and connector by connector. */
module TagMatrix {
  import opened Options
  import opened TagTable

  // ---------------------------------------------------------------- merging lines

  function Merged(value: string, lines: string): string
    decreases |lines|
  {
    if lines == "" then value else Merged(if lines[0] in value then value else value + [lines[0]], lines[1..])
  }

  function MergedCell(m: Matrix, p: Pos, lines: string): Cell {
    if p in m && m[p].Link? then Link(Merged(m[p].lines, lines)) else Link(lines)
  }

  /** The lines a connection from row lo to row hi needs in row r. */
  function Ends(lo: nat, hi: nat, r: nat): string {
    if lo == hi then "LR" else if r == lo then "LB" else if r == hi then "TR" else "TB"
  }

  function Get(m: Matrix, p: Pos): Option<Cell> {
    if p in m then Some(m[p]) else None
  }

  /** A cell after connecting rows lo and hi in the column. */
  function LinkedAt(m: Matrix, lo: nat, hi: nat, col: nat, p: Pos): Option<Cell> {
    if lo <= p.0 <= hi && p.1 == col then Some(MergedCell(m, p, Ends(lo, hi, p.0))) else Get(m, p)
  }

  lemma MergedTwo(value: string, a: char, b: char)
    ensures Merged(value, [a, b]) ==
      var first := if a in value then value else value + [a];
      if b in first then first else first + [b]
  {
    var first := if a in value then value else value + [a];
    assert [a, b][1..] == [b] && [b][1..] == [];
    assert Merged(value, [a, b]) == Merged(first, [b]);
    assert Merged(first, [b]) == Merged(if b in first then first else first + [b], []);
  }

  /** One more child: the lines already drawn and those of the new connection give the lines needed. */
  lemma LinesGrow(rows: seq<nat>, next: nat, r: nat)
    requires rows != [] && Increasing(rows) && rows[|rows| - 1] < next && rows[0] <= r <= next
    ensures r <= rows[|rows| - 1] ==> Merged(Lines(rows, r), Ends(rows[0], next, r)) == Lines(rows + [next], r)
    ensures rows[|rows| - 1] < r ==> Ends(rows[0], next, r) == Lines(rows + [next], r)
  {
    var last := rows[|rows| - 1];
    assert rows[0] <= last;
    assert (rows + [next])[0] == rows[0];
    assert r in rows + [next] <==> r in rows || r == next;
    if r <= last {
      if r == rows[0] {
        MergedTwo(Lines(rows, r), 'L', 'B');
      } else {
        MergedTwo(Lines(rows, r), 'T', 'B');
      }
    } else {
      AboveAll(rows, r);
    }
  }

  lemma AboveAll(rows: seq<nat>, r: nat)
    requires rows != [] && Increasing(rows) && rows[|rows| - 1] < r
    ensures r !in rows
  {
    assert forall i | 0 <= i < |rows| :: rows[i] <= rows[|rows| - 1];
  }

  /** The connectors for some children, plus the connection to the next one, are the connectors for all of them. */
  lemma NextChild(m: Matrix, col: nat, rows: seq<nat>, row: nat, next: nat, p: Pos)
    requires Increasing(rows + [next]) && (rows + [next])[0] == row
    requires p.1 == col + 1 && row <= p.0 <= next ==> Get(m, p) == ConnectorAt(col, rows, p)
    ensures LinkedAt(m, row, next, col + 1, p) == Over(Get(m, p), ConnectorAt(col, rows + [next], p))
  {
    hide Lines, Merged, Ends;
    var all := rows + [next];
    if rows == [] {
      assert all == [next];
      OnlyChild(next);
    } else {
      assert rows[0] == all[0] && rows[|rows| - 1] == all[|rows| - 1] < all[|rows|] == next;
      assert Increasing(rows) by {
        assert forall i | 0 <= i < |rows| :: rows[i] == all[i];
      }
      if row <= p.0 <= next {
        LinesGrow(rows, next, p.0);
      }
    }
  }

  lemma OnlyChild(row: nat)
    ensures Ends(row, row, row) == Lines([row], row)
  {}

  // ---------------------------------------------------------------- the matrix

  function Wider(n: nat, spots: seq<Spot>): nat {
    if spots == [] then n
    else
      var m, col := Wider(n, spots[..|spots| - 1]), spots[|spots| - 1].col;
      if col > m then col else m
  }

  lemma {:induction false} WiderConcat(n: nat, a: seq<Spot>, b: seq<Spot>)
    ensures Wider(n, a + b) == Wider(Wider(n, a), b)
    decreases |b|
  {
    if b == [] {
      assert a + b == a;
    } else {
      assert (a + b)[..|a + b| - 1] == a + b[..|b| - 1];
      WiderConcat(n, a, b[..|b| - 1]);
    }
  }

  /** Nothing is drawn yet in rows from..to, from the column on. */
  ghost predicate Free(m: Matrix, from: nat, to: nat, col: nat) {
    forall p | p in m :: !(from <= p.0 <= to && col <= p.1)
  }

  function Lower(a: nat, b: nat): nat {
    if a <= b then a else b
  }

  function Upper(a: nat, b: nat): nat {
    if a <= b then b else a
  }

  ghost predicate OnlyLinks(m: Matrix, lo: nat, hi: nat, col: nat) {
    forall p | p in m && p.1 == col && lo <= p.0 <= hi :: m[p].Link?
  }

  class TagsMatrix {
    var data: Matrix
    var maxCol: nat

    constructor ()
      ensures data == map[] && maxCol == 0
    {
      data, maxCol := map[], 0;
    }

    method AddLines(row: nat, col: nat, lines: string)
      requires (row, col) in data ==> data[(row, col)].Link?
      modifies this`data
      ensures data == old(data)[(row, col) := MergedCell(old(data), (row, col), lines)]
    {
      if (row, col) in data {
        var value := data[(row, col)].lines;
        for i := 0 to |lines|
          invariant data == old(data) && Merged(value, lines[i..]) == Merged(data[(row, col)].lines, lines)
        {
          assert lines[i..][0] == lines[i] && lines[i..][1..] == lines[i + 1..];
          if lines[i] !in value {
            value := value + [lines[i]];
          }
        }
        assert lines[|lines|..] == "";
        assert lines[0..] == lines;
        data := data[(row, col) := Link(value)];
      } else {
        data := data[(row, col) := Link(lines)];
      }
    }

    method LinkRows(row1: nat, row2: nat, col: nat)
      requires OnlyLinks(data, Lower(row1, row2), Upper(row1, row2), col)
      modifies this`data
      ensures forall p :: Get(data, p) == LinkedAt(old(data), Lower(row1, row2), Upper(row1, row2), col, p)
    {
      hide MergedCell;
      if row1 == row2 {
        AddLines(row1, col, "LR");
        return;
      }
      var lo, hi := row1, row2;
      if lo > hi {
        lo, hi := hi, lo;
      }
      AddLines(lo, col, "LB");
      for r := lo + 1 to hi
        invariant forall p :: Get(data, p) == if p.0 < r then LinkedAt(old(data), lo, hi, col, p) else Get(old(data), p)
      {
        SameCell(data, old(data), (r, col), "TB");
        AddLines(r, col, "TB");
      }
      SameCell(data, old(data), (hi, col), "TR");
      AddLines(hi, col, "TR");
    }

    /** Draw a tag, its children and the connectors between them; the last row used is returned. */
    method AddTag(tag: Tag, row: nat, col: nat) returns (last: nat)
      requires Free(data, row, row + Extent(tag), col)
      modifies this
      ensures last == row + Extent(tag)
      ensures forall p :: Get(data, p) == Over(Get(old(data), p), DrawnAt(Spots(tag, row, col), p))
      ensures maxCol == Wider(old(maxCol), Spots(tag, row, col))
      decreases tag
    {
      hide Get, Over, DrawnAt, Spots, Extent, Offset, Wider, Free, AllSpots;
      if col > maxCol {
        maxCol := col;
      }
      data := data[(row, col) := TagCell(tag.id)];
      var childRow := row;
      last := childRow;
      ghost var rows := ChildRows(tag.children, row);
      DrawingBegins(old(data), tag, row, col);
      WidthBegins(old(maxCol), tag, row, col);
      for k := 0 to |tag.children|
        invariant childRow == row + Offset(tag.children[..k])
        invariant last == if k == 0 then row else childRow - 2
        invariant forall p :: Get(data, p) == DrawnSoFar(old(data), tag, row, col, k, p)
        invariant maxCol == WiderSoFar(old(maxCol), tag, row, col, k)
      {
        OffsetStep(tag.children, k);
        ChildFree(data, old(data), tag, row, col, k);
        ghost var before := data;
        last := AddTag(tag.children[k], childRow, col + 2);
        ghost var middle := data;
        ConnectorsOnly(middle, before, old(data), tag, row, col, k);
        LinkRows(row, childRow, col + 1);
        DrawingGrows(data, middle, before, old(data), tag, row, col, k);
        WidthGrows(old(maxCol), tag, row, col, k);
        childRow := last + 2;
      }
      DrawingEnds(data, old(data), tag, row, col);
      WidthEnds(old(maxCol), tag, row, col);
      assert tag.children[..|tag.children|] == tag.children;
      ExtentIs(tag);
    }

    /** Draw all root tags one below the other. */
    method FillMatrix(roots: seq<Tag>)
      requires data == map[] && maxCol == 0
      modifies this
      ensures forall p :: Get(data, p) == DrawnAt(AllSpots(roots, 0, 0), p)
      ensures maxCol == Wider(0, AllSpots(roots, 0, 0))
    {
      hide Get, Over, DrawnAt, Spots, Extent, Offset, Wider, Free, AllSpots;
      var tagRow := 0;
      RootsBegin();
      for k := 0 to |roots|
        invariant tagRow == Offset(roots[..k])
        invariant forall p :: Get(data, p) == DrawnAt(AllSpots(roots[..k], 0, 0), p)
        invariant maxCol == Wider(0, AllSpots(roots[..k], 0, 0))
      {
        RootFree(data, roots, k);
        OffsetStep(roots, k);
        ghost var before := data;
        var lastRow := AddTag(roots[k], tagRow, 0);
        RootsGrow(data, before, roots, k);
        WiderConcat(0, AllSpots(roots[..k], 0, 0), Spots(roots[k], tagRow, 0));
        tagRow := lastRow + 2;
      }
      assert roots[..|roots|] == roots;
    }
  }

  /** The last row of a matrix. */
  ghost predicate LastRow(m: Matrix, n: nat) {
    (exists p | p in m :: p.0 == n) && forall p | p in m :: p.0 <= n
  }

  method MaxRow(m: Matrix) returns (n: nat)
    requires m != map[]
    ensures LastRow(m, n)
  {
    var first :| first in m;
    n := first.0;
    var rest := m.Keys - {first};
    while rest != {}
      invariant rest <= m.Keys && (exists p | p in m :: p.0 == n) && forall p | p in m && p !in rest :: p.0 <= n
      decreases |rest|
    {
      var p :| p in rest;
      if p.0 > n {
        n := p.0;
      }
      rest := rest - {p};
    }
  }

  /** The matrix as a list of rows of equal length, with holes where nothing is drawn. */
  method Table(m: Matrix, maxCol: nat) returns (table: seq<seq<Option<Cell>>>)
    ensures m == map[] ==> table == []
    ensures m != map[] ==> table != [] && LastRow(m, |table| - 1)
    ensures forall r | 0 <= r < |table| ::
      |table[r]| == maxCol + 1 && forall c | 0 <= c <= maxCol :: table[r][c] == Get(m, (r, c))
  {
    table := [];
    if m == map[] {
      return;
    }
    var last := MaxRow(m);
    for r := 0 to last + 1
      invariant |table| == r
      invariant forall q | 0 <= q < r :: |table[q]| == maxCol + 1 && forall c | 0 <= c <= maxCol :: table[q][c] == Get(m, (q, c))
    {
      var row: seq<Option<Cell>> := [];
      for c := 0 to maxCol + 1
        invariant |row| == c && forall d | 0 <= d < c :: row[d] == Get(m, (r, d))
      {
        row := row + [Get(m, (r, c))];
      }
      table := table + [row];
    }
  }

  // ---------------------------------------------------------------- drawing step by step

  lemma SameCell(m: Matrix, before: Matrix, p: Pos, lines: string)
    requires Get(m, p) == Get(before, p)
    ensures MergedCell(m, p, lines) == MergedCell(before, p, lines) && (p in m <==> p in before) && (p in m ==> m[p] == before[p])
  {}

  lemma OffsetStep(tags: seq<Tag>, k: nat)
    requires k < |tags|
    ensures Offset(tags[..k + 1]) == Offset(tags[..k]) + Extent(tags[k]) + 2
  {
    hide Extent;
    assert tags[..k + 1][..k] == tags[..k];
  }

  lemma ExtentIs(tag: Tag)
    ensures Extent(tag) == if tag.children == [] then 0 else Offset(tag.children) - 2
  {}

  lemma SpotsStep(tags: seq<Tag>, row: nat, col: nat, k: nat)
    requires k < |tags|
    ensures AllSpots(tags[..k + 1], row, col) == AllSpots(tags[..k], row, col) + Spots(tags[k], row + Offset(tags[..k]), col)
  {
    hide Spots, Offset;
    assert tags[..k + 1][..k] == tags[..k];
  }

  /** The tag and the connectors to its first k children, with everything below those drawn over it. */
  function DrawnSoFar(m: Matrix, tag: Tag, row: nat, col: nat, k: nat, p: Pos): Option<Cell>
    requires k <= |tag.children|
  {
    var own := OwnAt(Spot(row, col, tag.id, ChildRows(tag.children, row)[..k]), p);
    Over(Over(Get(m, p), own), DrawnAt(AllSpots(tag.children[..k], row, col + 2), p))
  }

  function WiderSoFar(n: nat, tag: Tag, row: nat, col: nat, k: nat): nat
    requires k <= |tag.children|
  {
    Wider(if col > n then col else n, AllSpots(tag.children[..k], row, col + 2))
  }

  lemma DrawingBegins(m: Matrix, tag: Tag, row: nat, col: nat)
    ensures forall p :: Get(m[(row, col) := TagCell(tag.id)], p) == DrawnSoFar(m, tag, row, col, 0, p)
    ensures Offset(tag.children[..0]) == 0
  {
    assert tag.children[..0] == [];
  }

  lemma WidthBegins(n: nat, tag: Tag, row: nat, col: nat)
    ensures (if col > n then col else n) == WiderSoFar(n, tag, row, col, 0)
  {
    assert tag.children[..0] == [];
  }

  lemma WidthGrows(n: nat, tag: Tag, row: nat, col: nat, k: nat)
    requires k < |tag.children|
    ensures WiderSoFar(n, tag, row, col, k + 1) ==
      Wider(WiderSoFar(n, tag, row, col, k), Spots(tag.children[k], row + Offset(tag.children[..k]), col + 2))
  {
    hide Spots, AllSpots, Wider, Offset;
    SpotsStep(tag.children, row, col + 2, k);
    WiderConcat(if col > n then col else n, AllSpots(tag.children[..k], row, col + 2),
                Spots(tag.children[k], row + Offset(tag.children[..k]), col + 2));
  }

  lemma WidthEnds(n: nat, tag: Tag, row: nat, col: nat)
    ensures Wider(n, Spots(tag, row, col)) == WiderSoFar(n, tag, row, col, |tag.children|)
  {
    hide AllSpots, ChildRows;
    assert tag.children[..|tag.children|] == tag.children;
    var root := [Spot(row, col, tag.id, ChildRows(tag.children, row))];
    assert root[..0] == [];
    assert Wider(n, root) == if col > n then col else n;
    WiderConcat(n, root, AllSpots(tag.children, row, col + 2));
  }

  /** What has been drawn for the first k children keeps above the next one. */
  lemma SoFarAbove(tag: Tag, row: nat, col: nat, k: nat, p: Pos)
    requires k <= |tag.children|
    ensures DrawnAt(AllSpots(tag.children[..k], row, col + 2), p).Some? ==>
      row <= p.0 <= row + Offset(tag.children[..k]) - 2 && col + 2 <= p.1
  {
    hide DrawnAt, AllSpots, Offset, Within;
    AllSpotsWithin(tag.children[..k], row, col + 2);
    DrawnWithin(AllSpots(tag.children[..k], row, col + 2), row, row + Offset(tag.children[..k]) - 2, col + 2, p);
  }

  lemma ChildInside(tag: Tag, k: nat)
    requires k < |tag.children|
    ensures Offset(tag.children[..k]) + Extent(tag.children[k]) <= Extent(tag)
  {
    hide Offset, Extent;
    ExtentIs(tag);
    OffsetStep(tag.children, k);
    assert tag.children[..|tag.children|] == tag.children;
    if k + 1 < |tag.children| {
      OffsetUp(tag.children, k + 1, |tag.children|);
    }
  }

  lemma ChildFree(m: Matrix, before: Matrix, tag: Tag, row: nat, col: nat, k: nat)
    requires k < |tag.children| && Free(before, row, row + Extent(tag), col)
    requires forall p :: Get(m, p) == DrawnSoFar(before, tag, row, col, k, p)
    ensures var childRow := row + Offset(tag.children[..k]); Free(m, childRow, childRow + Extent(tag.children[k]), col + 2)
  {
    hide DrawnAt, AllSpots, Offset, Extent, ChildRows, Lines;
    ChildInside(tag, k);
    var childRow := row + Offset(tag.children[..k]);
    forall p | p in m ensures !(childRow <= p.0 <= childRow + Extent(tag.children[k]) && col + 2 <= p.1) {
      assert Get(m, p).Some?;
      SoFarAbove(tag, row, col, k, p);
    }
  }

  /** Between two tag columns there are only connectors, and so far only those of the first k children. */
  lemma ColumnSoFar(m: Matrix, before: Matrix, tag: Tag, row: nat, col: nat, k: nat, p: Pos)
    requires k < |tag.children| && Free(before, row, row + Extent(tag), col)
    requires Get(m, p) == Over(DrawnSoFar(before, tag, row, col, k, p), DrawnAt(Spots(tag.children[k], row + Offset(tag.children[..k]), col + 2), p))
    requires p.1 == col + 1 && row <= p.0 <= row + Extent(tag)
    ensures Get(m, p) == ConnectorAt(col, ChildRows(tag.children, row)[..k], p)
  {
    hide DrawnAt, AllSpots, Spots, Offset, Extent, ChildRows, Lines, Within;
    SoFarAbove(tag, row, col, k, p);
    var child, childRow := tag.children[k], row + Offset(tag.children[..k]);
    SpotsWithin(child, childRow, col + 2);
    DrawnWithin(Spots(child, childRow, col + 2), childRow, childRow + Extent(child), col + 2, p);
  }

  lemma ConnectorsOnly(middle: Matrix, before: Matrix, start: Matrix, tag: Tag, row: nat, col: nat, k: nat)
    requires k < |tag.children| && Free(start, row, row + Extent(tag), col)
    requires forall p :: Get(before, p) == DrawnSoFar(start, tag, row, col, k, p)
    requires forall p :: Get(middle, p) == Over(Get(before, p), DrawnAt(Spots(tag.children[k], row + Offset(tag.children[..k]), col + 2), p))
    ensures OnlyLinks(middle, row, row + Offset(tag.children[..k]), col + 1)
  {
    hide DrawnSoFar, DrawnAt, Spots, Offset, Extent, ChildRows, Lines, Free;
    ChildInside(tag, k);
    forall p | p in middle && p.1 == col + 1 && row <= p.0 <= row + Offset(tag.children[..k]) ensures middle[p].Link? {
      assert Get(middle, p) == Some(middle[p]);
      ColumnSoFar(middle, start, tag, row, col, k, p);
    }
  }

  lemma DrawingGrows(after: Matrix, middle: Matrix, before: Matrix, start: Matrix, tag: Tag, row: nat, col: nat, k: nat)
    requires k < |tag.children| && Free(start, row, row + Extent(tag), col)
    requires forall p :: Get(before, p) == DrawnSoFar(start, tag, row, col, k, p)
    requires forall p :: Get(middle, p) == Over(Get(before, p), DrawnAt(Spots(tag.children[k], row + Offset(tag.children[..k]), col + 2), p))
    requires forall p :: Get(after, p) == LinkedAt(middle, row, row + Offset(tag.children[..k]), col + 1, p)
    ensures forall p :: Get(after, p) == DrawnSoFar(start, tag, row, col, k + 1, p)
  {
    hide DrawnSoFar, DrawnAt, Spots, Offset, Extent, ChildRows, Lines, Free, LinkedAt, Over;
    forall p ensures Get(after, p) == DrawnSoFar(start, tag, row, col, k + 1, p) {
      if p.1 == col + 1 {
        GrowsInColumn(middle, start, tag, row, col, k, p);
      } else {
        GrowsElsewhere(middle, start, tag, row, col, k, p);
      }
    }
  }

  lemma GrowsElsewhere(middle: Matrix, start: Matrix, tag: Tag, row: nat, col: nat, k: nat, p: Pos)
    requires k < |tag.children| && p.1 != col + 1
    requires Get(middle, p) == Over(DrawnSoFar(start, tag, row, col, k, p), DrawnAt(Spots(tag.children[k], row + Offset(tag.children[..k]), col + 2), p))
    ensures LinkedAt(middle, row, row + Offset(tag.children[..k]), col + 1, p) == DrawnSoFar(start, tag, row, col, k + 1, p)
  {
    hide DrawnAt, Spots, AllSpots, Offset, ChildRows, Lines;
    SpotsStep(tag.children, row, col + 2, k);
    DrawnConcat(AllSpots(tag.children[..k], row, col + 2), Spots(tag.children[k], row + Offset(tag.children[..k]), col + 2), p);
  }

  lemma GrowsInColumn(middle: Matrix, start: Matrix, tag: Tag, row: nat, col: nat, k: nat, p: Pos)
    requires k < |tag.children| && p.1 == col + 1 && Free(start, row, row + Extent(tag), col)
    requires Get(middle, p) == Over(DrawnSoFar(start, tag, row, col, k, p), DrawnAt(Spots(tag.children[k], row + Offset(tag.children[..k]), col + 2), p))
    ensures LinkedAt(middle, row, row + Offset(tag.children[..k]), col + 1, p) == DrawnSoFar(start, tag, row, col, k + 1, p)
  {
    hide DrawnAt, Spots, AllSpots, Offset, Extent, Lines, Merged, Ends, Free, Within;
    var rows, next := ChildRows(tag.children, row), row + Offset(tag.children[..k]);
    ChildInside(tag, k);
    ColumnRows(tag, row, col, k);
    assert rows[..k + 1] == rows[..k] + [next];
    if row <= p.0 <= next {
      ColumnSoFar(middle, start, tag, row, col, k, p);
    }
    NextChild(middle, col, rows[..k], row, next, p);
    SoFarAbove(tag, row, col, k, p);
    SoFarAbove(tag, row, col, k + 1, p);
    ChildAbove(tag, row, col, k, p);
  }

  lemma ChildAbove(tag: Tag, row: nat, col: nat, k: nat, p: Pos)
    requires k < |tag.children|
    ensures DrawnAt(Spots(tag.children[k], row + Offset(tag.children[..k]), col + 2), p).Some? ==> col + 2 <= p.1
  {
    hide DrawnAt, Spots, Offset, Extent, Within;
    var child, childRow := tag.children[k], row + Offset(tag.children[..k]);
    SpotsWithin(child, childRow, col + 2);
    DrawnWithin(Spots(child, childRow, col + 2), childRow, childRow + Extent(child), col + 2, p);
  }

  lemma ColumnRows(tag: Tag, row: nat, col: nat, k: nat)
    requires k < |tag.children|
    ensures var rows := ChildRows(tag.children, row)[..k + 1];
      Increasing(rows) && rows[0] == row && (k > 0 ==> rows[k - 1] < rows[k])
  {
    hide Offset, Extent;
    RootWithin(tag, row, col);
    var all := ChildRows(tag.children, row);
    assert forall i | 0 <= i <= k :: all[..k + 1][i] == all[i];
  }

  lemma DrawingEnds(m: Matrix, start: Matrix, tag: Tag, row: nat, col: nat)
    requires forall p :: Get(m, p) == DrawnSoFar(start, tag, row, col, |tag.children|, p)
    ensures forall p :: Get(m, p) == Over(Get(start, p), DrawnAt(Spots(tag, row, col), p))
  {
    hide OwnAt, AllSpots, Get, ChildRows;
    var rows := ChildRows(tag.children, row);
    assert |rows| == |tag.children| by {
      RowsSize(tag.children, row);
    }
    assert tag.children[..|tag.children|] == tag.children && rows[..|tag.children|] == rows;
    var root := [Spot(row, col, tag.id, rows)];
    forall p ensures Get(m, p) == Over(Get(start, p), DrawnAt(Spots(tag, row, col), p)) {
      assert root[..0] == [];
      assert DrawnAt(root, p) == OwnAt(root[0], p);
      DrawnConcat(root, AllSpots(tag.children, row, col + 2), p);
    }
  }

  lemma RowsSize(children: seq<Tag>, row: nat)
    ensures |ChildRows(children, row)| == |children|
  {}

  // ---------------------------------------------------------------- root by root

  lemma RootsBegin()
    ensures Offset([]) == 0 && Wider(0, AllSpots([], 0, 0)) == 0
    ensures forall p :: Get(map[], p) == DrawnAt(AllSpots([], 0, 0), p)
  {}

  lemma RootFree(m: Matrix, roots: seq<Tag>, k: nat)
    requires k < |roots| && forall p :: Get(m, p) == DrawnAt(AllSpots(roots[..k], 0, 0), p)
    ensures Free(m, Offset(roots[..k]), Offset(roots[..k]) + Extent(roots[k]), 0)
  {
    hide DrawnAt, AllSpots, Offset, Extent, Within;
    AllSpotsWithin(roots[..k], 0, 0);
    forall p | p in m ensures p.0 <= Offset(roots[..k]) - 2 {
      assert Get(m, p).Some?;
      DrawnWithin(AllSpots(roots[..k], 0, 0), 0, Offset(roots[..k]) - 2, 0, p);
    }
  }

  lemma RootsGrow(after: Matrix, before: Matrix, roots: seq<Tag>, k: nat)
    requires k < |roots| && forall p :: Get(before, p) == DrawnAt(AllSpots(roots[..k], 0, 0), p)
    requires forall p :: Get(after, p) == Over(Get(before, p), DrawnAt(Spots(roots[k], Offset(roots[..k]), 0), p))
    ensures forall p :: Get(after, p) == DrawnAt(AllSpots(roots[..k + 1], 0, 0), p)
    ensures AllSpots(roots[..k + 1], 0, 0) == AllSpots(roots[..k], 0, 0) + Spots(roots[k], Offset(roots[..k]), 0)
  {
    hide DrawnAt, AllSpots, Spots, Offset, Get, Over;
    SpotsStep(roots, 0, 0, k);
    forall p ensures Get(after, p) == DrawnAt(AllSpots(roots[..k + 1], 0, 0), p) {
      DrawnConcat(AllSpots(roots[..k], 0, 0), Spots(roots[k], Offset(roots[..k]), 0), p);
    }
  }

  // ---------------------------------------------------------------- the table loses nothing

  lemma {:induction false} WiderBounds(n: nat, spots: seq<Spot>)
    ensures Wider(n, spots) >= n && forall s | s in spots :: s.col <= Wider(n, spots)
  {
    if spots != [] {
      assert spots == spots[..|spots| - 1] + [spots[|spots| - 1]];
      WiderBounds(n, spots[..|spots| - 1]);
    }
  }

  /** No cell of the drawing is beyond the last tag column, so the table shows all of it. */
  lemma NothingBeyond(roots: seq<Tag>, p: Pos)
    requires DrawnAt(AllSpots(roots, 0, 0), p).Some?
    ensures p.1 <= Wider(0, AllSpots(roots, 0, 0))
  {
    hide AllSpots, Wider, DrawnAt, Leads;
    var spots := AllSpots(roots, 0, 0);
    LayoutTheorem(roots, p, DrawnAt(spots, p).value);
    var s :| s in spots && Puts(s, p, DrawnAt(spots, p).value);
    WiderBounds(0, spots);
    if p.1 == s.col + 1 {
      AllConnectorsLead(roots, 0, 0);
      LeadsSomewhere(spots, s);
    }
  }

  lemma LeadsSomewhere(spots: seq<Spot>, s: Spot)
    requires Leads(spots, s) && s.childRows != []
    ensures exists t | t in spots :: t.col == s.col + 2
  {
    assert s.childRows[0] in s.childRows;
  }

  /** The table has exactly the rows from the first root to the last row of the last root's subtree. */
  lemma RowsTaken(roots: seq<Tag>, m: Matrix)
    requires roots != [] && forall p :: Get(m, p) == DrawnAt(AllSpots(roots, 0, 0), p)
    ensures LastRow(m, Offset(roots) - 2)
  {
    hide AllSpots, DrawnAt, Spots, Extent, Within;
    var init, last, spots := roots[..|roots| - 1], roots[|roots| - 1], AllSpots(roots, 0, 0);
    AllSpotsWithin(roots, 0, 0);
    forall p | p in m ensures p.0 <= Offset(roots) - 2 {
      assert Get(m, p).Some?;
      DrawnWithin(spots, 0, Offset(roots) - 2, 0, p);
    }
    LastRowTaken(last, Offset(init), 0);
    var s :| s in Spots(last, Offset(init), 0) && s.row == Offset(init) + Extent(last);
    LastSpots(roots);
    var p := (s.row, s.col);
    LayoutTheorem(roots, p, TagCell(s.id));
    assert Puts(s, p, TagCell(s.id));
    assert Get(m, p).Some?;
    assert p in m && p.0 == Offset(roots) - 2;
  }

  lemma LastSpots(roots: seq<Tag>)
    requires roots != []
    ensures forall s | s in Spots(roots[|roots| - 1], Offset(roots[..|roots| - 1]), 0) :: s in AllSpots(roots, 0, 0)
  {
    hide Spots, Offset;
  }
}
