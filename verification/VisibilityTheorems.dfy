/** The folded page is consistent, and every relevant note on it can be seen. */
module VisibilityTheorems {
  import opened Options
  import opened Visibility

  // ---------------------------------------------------------------- headers agree with the shown scopes

  /**
   * A header says it is unfolded exactly when its scope is shown, and a declarations block is folded;
   * the scope is one of n + 1 .. m.
   */
  predicate Agrees(line: Line, shown: set<Scope>, n: nat, m: nat) {
    (line.Enter? ==> line.body.Number? && n < line.body.number <= m && (line.unfolded <==> line.body in shown)) &&
    (line.Block? ==> line.body.Number? && n < line.body.number <= m && line.body !in shown) &&
    (line.Exit? ==> line.scope.Number? && n < line.scope.number <= m && (line.unfolded <==> line.scope in shown))
  }

  lemma NotesOnly(view: View, notes: seq<int>, hidden: bool, scope: Scope)
    ensures forall line | line in NoteLines(view, notes, hidden, scope) :: line.NoteLine? && line.scope == scope
  {}

  lemma {:induction false} DeclarationsOnly(view: View, ds: seq<Declared>, block: Scope, scope: Scope)
    ensures forall line | line in AllDeclarationLines(view, ds, block, scope) ::
      (line.NoteLine? && line.scope == scope) || (line.DeclarationLine? && line.scope in {block, scope})
  {
    if ds != [] {
      hide NoteLines, Kept;
      var d := ds[|ds| - 1];
      DeclarationsOnly(view, ds[..|ds| - 1], block, scope);
      if d.Declaration? {
        NotesOnly(view, d.notes, d.hidden, scope);
      }
    }
  }

  lemma {:induction false} LinesAgree(view: View, node: Node, scope: Scope, n: nat)
    ensures forall line | line in Lines(view, node, scope, n) :: Agrees(line, Inner(view, node, n), n, n + Size(node))
    decreases node, 1
  {
    hide NoteLines, AllLines, AllInner, AnyRelevant, AllDeclarationLines, Kept, Sizes;
    if node.Declarations? {
      DeclarationsOnly(view, node.declared, scope, scope);
      DeclarationsOnly(view, node.declared, Number(n + 1), scope);
    } else if node.Statement? {
      NotesOnly(view, node.notes, node.hidden, scope);
    } else {
      if node.Call? {
        NotesOnly(view, node.notes, node.hidden, scope);
      }
      AllLinesAgree(view, node.children, Number(n + 1), n + 1);
      AllInnerRange(view, node.children, n + 1);
    }
  }

  lemma {:induction false} AllLinesAgree(view: View, nodes: seq<Node>, scope: Scope, n: nat)
    ensures forall line | line in AllLines(view, nodes, scope, n) :: Agrees(line, AllInner(view, nodes, n), n, n + Sizes(nodes))
    decreases nodes, 0
  {
    if nodes != [] {
      hide Lines, Inner, Size;
      var init, last := nodes[..|nodes| - 1], nodes[|nodes| - 1];
      AllLinesAgree(view, init, scope, n);
      LinesAgree(view, last, scope, n + Sizes(init));
      AllInnerRange(view, init, n);
      InnerRange(view, last, n + Sizes(init));
    }
  }

  // ---------------------------------------------------------------- what must be seen is shown

  /** Relevant notes and unfolded headers stand in shown scopes. */
  predicate Exposed(line: Line, shown: set<Scope>) {
    ((line.NoteLine? && RelevantLevel(line.level)) || (line.Enter? && line.unfolded)) ==> line.scope in shown
  }

  lemma {:induction false} KeptMembers(view: View, notes: seq<int>)
    ensures forall level :: level in Kept(view, notes) <==> level in notes && level <= view.notesLevel
  {
    if notes != [] {
      assert notes == notes[..|notes| - 1] + [notes[|notes| - 1]];
      KeptMembers(view, notes[..|notes| - 1]);
    }
  }

  /** A node shows its scope for a relevant note exactly when it puts such a note on the page. */
  lemma MarkedNotes(view: View, notes: seq<int>, hidden: bool, scope: Scope)
    ensures Marked(view, notes) <==>
      exists line | line in NoteLines(view, notes, hidden, scope) :: line.NoteLine? && RelevantLevel(line.level)
  {
    hide Kept, RelevantLevel;
    KeptMembers(view, notes);
    var kept, lines := Kept(view, notes), NoteLines(view, notes, hidden, scope);
    if Marked(view, notes) {
      var level :| level in notes && level <= view.notesLevel && RelevantLevel(level);
      var i :| 0 <= i < |kept| && kept[i] == level;
      assert lines[i] in lines;
    }
  }

  lemma {:induction false} DeclarationsExposed(view: View, ds: seq<Declared>, block: Scope, scope: Scope)
    ensures forall line | line in AllDeclarationLines(view, ds, block, scope) ::
      Exposed(line, If(Relevant(view, Declarations(ds)), scope))
  {
    if ds != [] {
      hide NoteLines, Kept, Marked;
      var init, d := ds[..|ds| - 1], ds[|ds| - 1];
      assert d in ds && forall e | e in init :: e in ds;
      DeclarationsExposed(view, init, block, scope);
      if d.Declaration? {
        NotesOnly(view, d.notes, d.hidden, scope);
        MarkedNotes(view, d.notes, d.hidden, scope);
      }
    }
  }

  lemma {:induction false} LinesExposed(view: View, node: Node, scope: Scope, n: nat)
    ensures forall line | line in Lines(view, node, scope, n) ::
      Exposed(line, If(Relevant(view, node), scope) + Inner(view, node, n))
    decreases node, 1
  {
    hide NoteLines, AllLines, AllInner, AnyRelevant, AllDeclarationLines, Kept, Marked;
    if node.Declarations? {
      DeclarationsExposed(view, node.declared, scope, scope);
      DeclarationsExposed(view, node.declared, Number(n + 1), scope);
    } else {
      if node.Statement? || node.Call? {
        NotesOnly(view, node.notes, node.hidden, scope);
        MarkedNotes(view, node.notes, node.hidden, scope);
      }
      if !node.Statement? {
        AllLinesExposed(view, node.children, Number(n + 1), n + 1);
      }
    }
  }

  lemma {:induction false} AllLinesExposed(view: View, nodes: seq<Node>, scope: Scope, n: nat)
    ensures forall line | line in AllLines(view, nodes, scope, n) ::
      Exposed(line, If(AnyRelevant(view, nodes), scope) + AllInner(view, nodes, n))
    decreases nodes, 0
  {
    if nodes != [] {
      hide Lines, Inner, Relevant;
      var init, last := nodes[..|nodes| - 1], nodes[|nodes| - 1];
      AllLinesExposed(view, init, scope, n);
      LinesExposed(view, last, scope, n + Sizes(init));
    }
  }

  // ---------------------------------------------------------------- scopes are never reused

  predicate Header(line: Line) {
    line.Enter? || line.Block?
  }

  /** The scopes of the headers go up from n and stay within m. */
  ghost predicate Ascending(lines: seq<Line>, n: nat, m: nat) {
    if lines == [] then n <= m
    else if Header(lines[0]) then
      lines[0].body.Number? && n < lines[0].body.number && Ascending(lines[1..], lines[0].body.number, m)
    else Ascending(lines[1..], n, m)
  }

  lemma {:induction false} AscendingConcat(a: seq<Line>, b: seq<Line>, n: nat, middle: nat, m: nat)
    requires Ascending(a, n, middle) && Ascending(b, middle, m)
    ensures Ascending(a + b, n, m)
    decreases |a|
  {
    if a == [] {
      assert a + b == b;
      AscendingFrom(b, n, middle, m);
    } else {
      assert (a + b)[1..] == a[1..] + b;
      AscendingConcat(a[1..], b, if Header(a[0]) then a[0].body.number else n, middle, m);
    }
  }

  lemma {:induction false} AscendingFrom(lines: seq<Line>, n: nat, n': nat, m: nat)
    requires n <= n' && Ascending(lines, n', m)
    ensures Ascending(lines, n, m)
  {
    if lines != [] && !Header(lines[0]) {
      AscendingFrom(lines[1..], n, n', m);
    }
  }

  lemma {:induction false} PlainAscending(lines: seq<Line>, n: nat)
    requires forall line | line in lines :: !Header(line)
    ensures Ascending(lines, n, n)
  {
    if lines != [] {
      PlainAscending(lines[1..], n);
    }
  }

  lemma HeaderAscending(line: Line, n: nat)
    requires Header(line) && line.body == Number(n + 1)
    ensures Ascending([line], n, n + 1)
  {
    assert [line][1..] == [];
  }

  lemma {:induction false} LinesAscending(view: View, node: Node, scope: Scope, n: nat)
    ensures Ascending(Lines(view, node, scope, n), n, n + Size(node))
    decreases node, 1
  {
    hide NoteLines, AllLines, AnyRelevant, AllDeclarationLines, Kept, Sizes, Ascending;
    match node
    case Statement(notes, hidden) =>
      NotesOnly(view, notes, hidden, scope);
      PlainAscending(Lines(view, node, scope, n), n);
    case Thread(children) =>
      AllLinesAscending(view, children, Number(n + 1), n + 1);
      AscendingFrom(AllLines(view, children, Number(n + 1), n + 1), n, n + 1, n + Size(node));
    case Call(notes, hidden, children) =>
      NotesOnly(view, notes, hidden, scope);
      var before := NoteLines(view, notes, hidden, scope);
      PlainAscending(before, n);
      var enter := Enter(scope, Number(n + 1), AnyRelevant(view, children), Commented(view, notes, hidden));
      HeaderAscending(enter, n);
      AscendingConcat(before, [enter], n, n, n + 1);
      BodyAscending(view, children, before + [enter], n);
    case Action(_, children) =>
      var enter := Enter(scope, Number(n + 1), AnyRelevant(view, children), false);
      HeaderAscending(enter, n);
      BodyAscending(view, children, [enter], n);
    case Declarations(ds) =>
      BlockAscending(view, ds, scope, n);
  }

  lemma {:induction false} BodyAscending(view: View, children: seq<Node>, before: seq<Line>, n: nat)
    requires Ascending(before, n, n + 1)
    ensures var unfolded := AnyRelevant(view, children);
      Ascending(before + AllLines(view, children, Number(n + 1), n + 1) + Closing(view, Number(n + 1), unfolded), n,
                n + 1 + Sizes(children))
    decreases children, 1
  {
    hide AllLines, AnyRelevant, Sizes, Ascending;
    var m := n + 1 + Sizes(children);
    var closing := Closing(view, Number(n + 1), AnyRelevant(view, children));
    AllLinesAscending(view, children, Number(n + 1), n + 1);
    AscendingConcat(before, AllLines(view, children, Number(n + 1), n + 1), n, n + 1, m);
    PlainAscending(closing, m);
    AscendingConcat(before + AllLines(view, children, Number(n + 1), n + 1), closing, n, m, m);
  }

  lemma BlockAscending(view: View, ds: seq<Declared>, scope: Scope, n: nat)
    ensures Ascending(BlockLines(view, ds, scope, n), n, n + 1)
  {
    hide AllDeclarationLines, BuriedCount, Ascending;
    var block := Number(n + 1);
    DeclarationsOnly(view, ds, scope, scope);
    DeclarationsOnly(view, ds, block, scope);
    PlainAscending(AllDeclarationLines(view, ds, scope, scope), n + 1);
    AscendingFrom(AllDeclarationLines(view, ds, scope, scope), n, n + 1, n + 1);
    PlainAscending(AllDeclarationLines(view, ds, block, scope), n + 1);
    HeaderAscending(Block(scope, block), n);
    AscendingConcat([Block(scope, block)], AllDeclarationLines(view, ds, block, scope), n, n + 1, n + 1);
  }

  lemma {:induction false} AllLinesAscending(view: View, nodes: seq<Node>, scope: Scope, n: nat)
    ensures Ascending(AllLines(view, nodes, scope, n), n, n + Sizes(nodes))
    decreases nodes, 0
  {
    if nodes != [] {
      hide Lines, Size, Ascending;
      var init, last := nodes[..|nodes| - 1], nodes[|nodes| - 1];
      AllLinesAscending(view, init, scope, n);
      LinesAscending(view, last, scope, n + Sizes(init));
      AscendingConcat(AllLines(view, init, scope, n), Lines(view, last, scope, n + Sizes(init)), n, n + Sizes(init), n + Sizes(nodes));
    }
  }

  lemma {:induction false} AscendingBound(lines: seq<Line>, n: nat, m: nat, j: nat)
    requires Ascending(lines, n, m) && j < |lines| && Header(lines[j])
    ensures lines[j].body.Number? && n < lines[j].body.number <= m
  {
    AscendingEnds(lines, n, m);
    if j == 0 {
      AscendingEnds(lines[1..], lines[0].body.number, m);
    } else {
      AscendingBound(lines[1..], if Header(lines[0]) then lines[0].body.number else n, m, j - 1);
    }
  }

  lemma {:induction false} AscendingEnds(lines: seq<Line>, n: nat, m: nat)
    requires Ascending(lines, n, m)
    ensures n <= m
  {
    if lines != [] {
      AscendingEnds(lines[1..], if Header(lines[0]) then lines[0].body.number else n, m);
    }
  }

  /** Two headers never lead to the same scope. */
  lemma {:induction false} HeadersDistinct(lines: seq<Line>, n: nat, m: nat, i: nat, j: nat)
    requires Ascending(lines, n, m) && i < j < |lines| && Header(lines[i]) && Header(lines[j])
    ensures lines[i].body != lines[j].body
  {
    var next := if Header(lines[0]) then lines[0].body.number else n;
    if i == 0 {
      AscendingBound(lines[1..], next, m, j - 1);
    } else {
      HeadersDistinct(lines[1..], next, m, i - 1, j - 1);
    }
  }

  // ---------------------------------------------------------------- every line stands under a header

  /** The scopes of threads, which have no header. */
  function Threads(node: Node, n: nat): set<Scope>
    decreases node, 1
  {
    match node
    case Statement(_, _) => {}
    case Declarations(_) => {}
    case _ => If(node.Thread?, Number(n + 1)) + AllThreads(node.children, n + 1)
  }

  function AllThreads(nodes: seq<Node>, n: nat): set<Scope>
    decreases nodes, 0
  {
    if nodes == [] then {}
    else
      var init := nodes[..|nodes| - 1];
      AllThreads(init, n) + Threads(nodes[|nodes| - 1], n + Sizes(init))
  }

  function Opens(line: Line): set<Scope> {
    if line.Enter? then {line.body} else {}
  }

  function Hides(line: Line): set<Scope> {
    if line.Block? then {line.body} else {}
  }

  /** Each line stands in a known scope or under an earlier header; only declarations stand in blocks. */
  ghost predicate Placed(lines: seq<Line>, known: set<Scope>, blocks: set<Scope>) {
    lines == [] ||
    ((lines[0].scope in known || (lines[0].DeclarationLine? && lines[0].scope in blocks)) &&
     Placed(lines[1..], known + Opens(lines[0]), blocks + Hides(lines[0])))
  }

  lemma {:induction false} PlacedMore(lines: seq<Line>, known: set<Scope>, known': set<Scope>, blocks: set<Scope>, blocks': set<Scope>)
    requires Placed(lines, known, blocks) && known <= known' && blocks <= blocks'
    ensures Placed(lines, known', blocks')
    decreases |lines|
  {
    if lines != [] {
      var line := lines[0];
      PlacedMore(lines[1..], known + Opens(line), known' + Opens(line), blocks + Hides(line), blocks' + Hides(line));
    }
  }

  lemma {:induction false} PlacedConcat(a: seq<Line>, b: seq<Line>, known: set<Scope>, blocks: set<Scope>)
    requires Placed(a, known, blocks) && Placed(b, known, blocks)
    ensures Placed(a + b, known, blocks)
    decreases |a|
  {
    if a == [] {
      assert a + b == b;
    } else {
      assert (a + b)[1..] == a[1..] + b;
      PlacedMore(b, known, known + Opens(a[0]), blocks, blocks + Hides(a[0]));
      PlacedConcat(a[1..], b, known + Opens(a[0]), blocks + Hides(a[0]));
    }
  }

  lemma {:induction false} PlainPlaced(lines: seq<Line>, known: set<Scope>, blocks: set<Scope>)
    requires forall line | line in lines :: !Header(line)
    requires forall line | line in lines :: line.scope in known || (line.DeclarationLine? && line.scope in blocks)
    ensures Placed(lines, known, blocks)
    decreases |lines|
  {
    if lines != [] {
      assert lines[0] in lines;
      assert known + Opens(lines[0]) == known && blocks + Hides(lines[0]) == blocks;
      PlainPlaced(lines[1..], known, blocks);
    }
  }

  lemma {:induction false} LinesPlaced(view: View, node: Node, scope: Scope, n: nat, known: set<Scope>)
    requires scope in known && Threads(node, n) <= known
    ensures Placed(Lines(view, node, scope, n), known, {})
    decreases node, 2
  {
    hide NoteLines, AllLines, AnyRelevant, AllDeclarationLines, Kept, Sizes, Placed, AllThreads;
    match node
    case Statement(notes, hidden) =>
      NotesOnly(view, notes, hidden, scope);
      PlainPlaced(Lines(view, node, scope, n), known, {});
    case Thread(children) =>
      AllLinesPlaced(view, children, Number(n + 1), n + 1, known);
    case Call(notes, hidden, children) =>
      var before := NoteLines(view, notes, hidden, scope);
      NotesOnly(view, notes, hidden, scope);
      PlainPlaced(before, known, {});
      var enter := Enter(scope, Number(n + 1), AnyRelevant(view, children), Commented(view, notes, hidden));
      BodyPlaced(view, children, enter, n, known);
      var inside := AllLines(view, children, Number(n + 1), n + 1);
      var closing := Closing(view, Number(n + 1), AnyRelevant(view, children));
      PlacedConcat(before, [enter] + inside + closing, known, {});
      assert before + [enter] + inside + closing == before + ([enter] + inside + closing);
    case Action(_, children) =>
      var enter := Enter(scope, Number(n + 1), AnyRelevant(view, children), false);
      BodyPlaced(view, children, enter, n, known);
    case Declarations(ds) =>
      BlockPlaced(view, ds, scope, n, known);
  }

  lemma {:induction false} BodyPlaced(view: View, children: seq<Node>, enter: Line, n: nat, known: set<Scope>)
    requires enter.Enter? && enter.body == Number(n + 1) && enter.scope in known && AllThreads(children, n + 1) <= known
    ensures var closing := Closing(view, Number(n + 1), AnyRelevant(view, children));
      Placed([enter] + AllLines(view, children, Number(n + 1), n + 1) + closing, known, {})
    decreases children, 1
  {
    hide AllLines, AnyRelevant, Sizes, AllThreads;
    var inside := AllLines(view, children, Number(n + 1), n + 1);
    var closing := Closing(view, Number(n + 1), AnyRelevant(view, children));
    var known' := known + {Number(n + 1)};
    AllLinesPlaced(view, children, Number(n + 1), n + 1, known');
    PlainPlaced(closing, known', {});
    PlacedConcat(inside, closing, known', {});
    var all := [enter] + inside + closing;
    assert all[0] == enter && all[1..] == inside + closing;
    assert Opens(enter) == {Number(n + 1)} && {} + Hides(enter) == {};
  }

  lemma BlockPlaced(view: View, ds: seq<Declared>, scope: Scope, n: nat, known: set<Scope>)
    requires scope in known
    ensures Placed(BlockLines(view, ds, scope, n), known, {})
  {
    hide AllDeclarationLines, BuriedCount;
    var block := Number(n + 1);
    DeclarationsOnly(view, ds, scope, scope);
    DeclarationsOnly(view, ds, block, scope);
    PlainPlaced(AllDeclarationLines(view, ds, scope, scope), known, {});
    PlainPlaced(AllDeclarationLines(view, ds, block, scope), known, {block});
    var all := [Block(scope, block)] + AllDeclarationLines(view, ds, block, scope);
    assert all[1..] == AllDeclarationLines(view, ds, block, scope);
    assert known + Opens(all[0]) == known && {} + Hides(all[0]) == {block};
  }

  lemma {:induction false} AllLinesPlaced(view: View, nodes: seq<Node>, scope: Scope, n: nat, known: set<Scope>)
    requires scope in known && AllThreads(nodes, n) <= known
    ensures Placed(AllLines(view, nodes, scope, n), known, {})
    decreases nodes, 0
  {
    if nodes != [] {
      hide Lines, Size, Threads;
      var init, last := nodes[..|nodes| - 1], nodes[|nodes| - 1];
      AllLinesPlaced(view, init, scope, n, known);
      LinesPlaced(view, last, scope, n + Sizes(init), known);
      PlacedConcat(AllLines(view, init, scope, n), Lines(view, last, scope, n + Sizes(init)), known, {});
    }
  }

  // ---------------------------------------------------------------- the way from a line to its root

  /** Headers leading from a scope outwards to a scope that has none. */
  ghost predicate Trail(lines: seq<Line>, scope: Scope, trail: seq<Line>, roots: set<Scope>)
    decreases |trail|
  {
    if trail == [] then scope in roots
    else
      trail[0] in lines && trail[0].Enter? && trail[0].body == scope &&
      Trail(lines, trail[0].scope, trail[1..], roots)
  }

  ghost predicate AllUnfolded(trail: seq<Line>) {
    forall header | header in trail :: header.Enter? && header.unfolded
  }

  lemma {:induction false} PlacedAt(lines: seq<Line>, known: set<Scope>, blocks: set<Scope>, k: nat)
    requires Placed(lines, known, blocks) && k < |lines| && !lines[k].DeclarationLine?
    ensures lines[k].scope in known || exists j | 0 <= j < k :: lines[j].Enter? && lines[j].body == lines[k].scope
    decreases k
  {
    if k > 0 {
      PlacedAt(lines[1..], known + Opens(lines[0]), blocks + Hides(lines[0]), k - 1);
      if lines[k].scope !in known + Opens(lines[0]) {
        var j :| 0 <= j < k - 1 && lines[1..][j].Enter? && lines[1..][j].body == lines[k].scope;
        assert lines[j + 1] == lines[1..][j];
      } else if lines[k].scope !in known {
        assert lines[0].Enter? && lines[0].body == lines[k].scope;
      }
    }
  }

  lemma {:induction false} TrailExists(lines: seq<Line>, roots: set<Scope>, k: nat)
    requires Placed(lines, roots, {}) && k < |lines| && !lines[k].DeclarationLine?
    ensures exists trail :: Trail(lines, lines[k].scope, trail, roots)
    decreases k
  {
    PlacedAt(lines, roots, {}, k);
    if lines[k].scope in roots {
      assert Trail(lines, lines[k].scope, [], roots);
    } else {
      var j :| 0 <= j < k && lines[j].Enter? && lines[j].body == lines[k].scope;
      TrailExists(lines, roots, j);
      var rest :| Trail(lines, lines[j].scope, rest, roots);
      var trail := [lines[j]] + rest;
      assert trail[1..] == rest;
      assert Trail(lines, lines[k].scope, trail, roots);
    }
  }

  lemma {:induction false} TrailUnfolded(lines: seq<Line>, shown: set<Scope>, m: nat, scope: Scope, trail: seq<Line>, roots: set<Scope>)
    requires forall line | line in lines :: Agrees(line, shown, 0, m) && Exposed(line, shown)
    requires scope in shown && Trail(lines, scope, trail, roots)
    ensures AllUnfolded(trail)
    decreases |trail|
  {
    if trail != [] {
      TrailUnfolded(lines, shown, m, trail[0].scope, trail[1..], roots);
    }
  }

  // ---------------------------------------------------------------- the whole page

  /** The scopes without headers: the page itself, the global declarations and the threads. */
  function Roots(globals: Option<seq<Declared>>, trace: Option<Node>): set<Scope> {
    {Number(0), Global} + if trace.Some? then Threads(trace.value, if globals.Some? then 1 else 0) else {}
  }

  function PageSize(globals: Option<seq<Declared>>, trace: Option<Node>): nat {
    (if globals.Some? then 1 else 0) + if trace.Some? then Size(trace.value) else 0
  }

  /** Headers tell the truth about the final set of shown scopes, and what must be seen is in it. */
  lemma PageConsistent(view: View, globals: Option<seq<Declared>>, trace: Option<Node>)
    ensures forall line | line in PageLines(view, globals, trace) ::
      Agrees(line, PageShown(view, globals, trace), 0, PageSize(globals, trace)) &&
      Exposed(line, PageShown(view, globals, trace))
  {
    hide Lines, Inner, Relevant, AllDeclarationLines, Size, BuriedCount;
    if globals.Some? {
      DeclarationsOnly(view, globals.value, Number(1), Global);
      DeclarationsExposed(view, globals.value, Number(1), Global);
    }
    if trace.Some? {
      var n := if globals.Some? then 1 else 0;
      LinesAgree(view, trace.value, Number(0), n);
      InnerRange(view, trace.value, n);
      LinesExposed(view, trace.value, Number(0), n);
    }
  }

  /** Every scope has at most one header, and every line stands under a header or at a root. */
  lemma PageWellNested(view: View, globals: Option<seq<Declared>>, trace: Option<Node>)
    ensures Ascending(PageLines(view, globals, trace), 0, PageSize(globals, trace))
    ensures Placed(PageLines(view, globals, trace), Roots(globals, trace), {})
  {
    hide Lines, BlockLines, Size, Ascending, Placed, Threads;
    var n := if globals.Some? then 1 else 0;
    var roots, m := Roots(globals, trace), PageSize(globals, trace);
    var first := if globals.Some? then BlockLines(view, globals.value, Global, 0) else [];
    var second := if trace.Some? then Lines(view, trace.value, Number(0), n) else [];
    if globals.Some? {
      BlockAscending(view, globals.value, Global, 0);
      BlockPlaced(view, globals.value, Global, 0, roots);
    } else {
      PlainAscending([], 0);
      PlainPlaced([], roots, {});
    }
    if trace.Some? {
      LinesAscending(view, trace.value, Number(0), n);
      LinesPlaced(view, trace.value, Number(0), n, roots);
    } else {
      PlainAscending([], n);
      PlainPlaced([], roots, {});
    }
    AscendingConcat(first, second, 0, n, m);
    PlacedConcat(first, second, roots, {});
  }

  /** Every relevant note on the page can be seen at once: all headers from its root down to it are unfolded. */
  lemma RelevantNotesVisible(view: View, globals: Option<seq<Declared>>, trace: Option<Node>, k: nat)
    requires var lines := PageLines(view, globals, trace);
      k < |lines| && lines[k].NoteLine? && RelevantLevel(lines[k].level)
    ensures var lines := PageLines(view, globals, trace);
      lines[k].scope in PageShown(view, globals, trace) &&
      exists trail :: Trail(lines, lines[k].scope, trail, Roots(globals, trace)) && AllUnfolded(trail)
  {
    hide PageLines, PageShown, Roots, PageSize, Trail, Placed, Ascending;
    var lines, shown, roots := PageLines(view, globals, trace), PageShown(view, globals, trace), Roots(globals, trace);
    PageConsistent(view, globals, trace);
    PageWellNested(view, globals, trace);
    assert lines[k] in lines;
    TrailExists(lines, roots, k);
    var trail :| Trail(lines, lines[k].scope, trail, roots);
    TrailUnfolded(lines, shown, PageSize(globals, trace), lines[k].scope, trail, roots);
  }
}
