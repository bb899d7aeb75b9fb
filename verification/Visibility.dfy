/** Which parts of an error trace are unfolded when it is first shown. */
module Visibility {
  import opened Options

  /** What the user asked for. */
  datatype View = View(notesLevel: int, declarationsNumber: int, triangles: bool)

  /** A foldable region of the page; the global declarations have their own. */
  datatype Scope = Global | Number(number: nat)

  /** Notes are given by their levels; levels 0 and 1 are the relevant ones. */
  datatype Declared = Declaration(notes: seq<int>, hidden: bool) | Other

  datatype Node =
    | Statement(notes: seq<int>, hidden: bool)
    | Thread(children: seq<Node>)
    | Call(notes: seq<int>, hidden: bool, children: seq<Node>)
    | Action(relevant: bool, children: seq<Node>)
    | Declarations(declared: seq<Declared>)

  datatype Line =
    | NoteLine(scope: Scope, level: int, hidden: bool)
    | StatementLine(scope: Scope, hasNote: bool, commented: bool)
    | DeclarationLine(scope: Scope, hasNote: bool, commented: bool)
    | Enter(scope: Scope, body: Scope, unfolded: bool, commented: bool)
    | Block(scope: Scope, body: Scope)
    | Exit(scope: Scope, unfolded: bool)

  // ---------------------------------------------------------------- the page as a function of the tree

  predicate RelevantLevel(level: int) {
    level == 0 || level == 1
  }

  function Kept(view: View, notes: seq<int>): seq<int> {
    if notes == [] then []
    else
      var rest := Kept(view, notes[..|notes| - 1]);
      if notes[|notes| - 1] > view.notesLevel then rest else rest + [notes[|notes| - 1]]
  }

  /** Some note the user sees is relevant. */
  predicate Marked(view: View, notes: seq<int>) {
    exists level | level in notes :: level <= view.notesLevel && RelevantLevel(level)
  }

  function NoteLines(view: View, notes: seq<int>, hidden: bool, scope: Scope): seq<Line> {
    var kept := Kept(view, notes);
    seq(|kept|, i requires 0 <= i < |kept| => NoteLine(scope, kept[i], hidden && i == |kept| - 1))
  }

  predicate Commented(view: View, notes: seq<int>, hidden: bool) {
    Kept(view, notes) != [] && hidden
  }

  /** The declaration stays inside the declarations block. */
  predicate Buried(view: View, d: Declared) {
    d.Declaration? &&
    var kept := Kept(view, d.notes);
    kept == [] || !RelevantLevel(kept[|kept| - 1])
  }

  function BuriedCount(view: View, ds: seq<Declared>): nat {
    if ds == [] then 0 else BuriedCount(view, ds[..|ds| - 1]) + if Buried(view, ds[|ds| - 1]) then 1 else 0
  }

  function DeclarationLines(view: View, d: Declared, block: Scope, scope: Scope): seq<Line> {
    if d.Other? then []
    else
      NoteLines(view, d.notes, d.hidden, scope) +
      [DeclarationLine(if Buried(view, d) then block else scope, Kept(view, d.notes) != [], Commented(view, d.notes, d.hidden))]
  }

  function AllDeclarationLines(view: View, ds: seq<Declared>, block: Scope, scope: Scope): seq<Line> {
    if ds == [] then []
    else AllDeclarationLines(view, ds[..|ds| - 1], block, scope) + DeclarationLines(view, ds[|ds| - 1], block, scope)
  }

  function BlockLines(view: View, ds: seq<Declared>, scope: Scope, n: nat): seq<Line> {
    if BuriedCount(view, ds) <= view.declarationsNumber && scope != Global then AllDeclarationLines(view, ds, scope, scope)
    else [Block(scope, Number(n + 1))] + AllDeclarationLines(view, ds, Number(n + 1), scope)
  }

  /** The node unfolds the scope it stands in. */
  predicate Relevant(view: View, node: Node)
    decreases node, 1
  {
    match node
    case Statement(notes, _) => Marked(view, notes)
    case Thread(_) => false
    case Call(notes, _, children) => Marked(view, notes) || AnyRelevant(view, children)
    case Action(relevant, children) => relevant || AnyRelevant(view, children)
    case Declarations(ds) => exists d | d in ds :: d.Declaration? && Marked(view, d.notes)
  }

  predicate AnyRelevant(view: View, nodes: seq<Node>)
    decreases nodes, 0
  {
    nodes != [] && (Relevant(view, nodes[|nodes| - 1]) || AnyRelevant(view, nodes[..|nodes| - 1]))
  }

  /** How many scopes the node takes. */
  function Size(node: Node): nat
    decreases node, 1
  {
    match node
    case Statement(_, _) => 0
    case Declarations(_) => 1
    case _ => 1 + Sizes(node.children)
  }

  function Sizes(nodes: seq<Node>): nat
    decreases nodes, 0
  {
    if nodes == [] then 0 else Sizes(nodes[..|nodes| - 1]) + Size(nodes[|nodes| - 1])
  }

  function Closing(view: View, body: Scope, unfolded: bool): seq<Line> {
    if view.triangles then [Exit(body, unfolded)] else []
  }

  /** The lines of a node standing in `scope` after `n` scopes were taken. */
  function Lines(view: View, node: Node, scope: Scope, n: nat): seq<Line>
    decreases node, 1
  {
    match node
    case Statement(notes, hidden) =>
      NoteLines(view, notes, hidden, scope) +
      [StatementLine(scope, Kept(view, notes) != [], Commented(view, notes, hidden))]
    case Thread(children) => AllLines(view, children, Number(n + 1), n + 1)
    case Call(notes, hidden, children) =>
      var unfolded := AnyRelevant(view, children);
      NoteLines(view, notes, hidden, scope) + [Enter(scope, Number(n + 1), unfolded, Commented(view, notes, hidden))] +
      AllLines(view, children, Number(n + 1), n + 1) + Closing(view, Number(n + 1), unfolded)
    case Action(_, children) =>
      var unfolded := AnyRelevant(view, children);
      [Enter(scope, Number(n + 1), unfolded, false)] +
      AllLines(view, children, Number(n + 1), n + 1) + Closing(view, Number(n + 1), unfolded)
    case Declarations(ds) => BlockLines(view, ds, scope, n)
  }

  function AllLines(view: View, nodes: seq<Node>, scope: Scope, n: nat): seq<Line>
    decreases nodes, 0
  {
    if nodes == [] then []
    else
      var init := nodes[..|nodes| - 1];
      AllLines(view, init, scope, n) + Lines(view, nodes[|nodes| - 1], scope, n + Sizes(init))
  }

  /** The scopes taken by the node that are unfolded. */
  function Inner(view: View, node: Node, n: nat): set<Scope>
    decreases node, 1
  {
    match node
    case Statement(_, _) => {}
    case Declarations(_) => {}
    case Thread(children) => {Number(n + 1)} + AllInner(view, children, n + 1)
    case _ => (if AnyRelevant(view, node.children) then {Number(n + 1)} else {}) + AllInner(view, node.children, n + 1)
  }

  function AllInner(view: View, nodes: seq<Node>, n: nat): set<Scope>
    decreases nodes, 0
  {
    if nodes == [] then {}
    else
      var init := nodes[..|nodes| - 1];
      AllInner(view, init, n) + Inner(view, nodes[|nodes| - 1], n + Sizes(init))
  }

  function If(condition: bool, scope: Scope): set<Scope> {
    if condition then {scope} else {}
  }

  /** The scope was taken before the counter passed n. */
  predicate Known(scope: Scope, n: nat) {
    scope.Number? ==> scope.number <= n
  }

  lemma {:induction false} InnerRange(view: View, node: Node, n: nat)
    ensures forall s | s in Inner(view, node, n) :: s.Number? && n < s.number <= n + Size(node)
    decreases node, 1
  {
    if !node.Statement? && !node.Declarations? {
      AllInnerRange(view, node.children, n + 1);
    }
  }

  lemma {:induction false} AllInnerRange(view: View, nodes: seq<Node>, n: nat)
    ensures forall s | s in AllInner(view, nodes, n) :: s.Number? && n < s.number <= n + Sizes(nodes)
    decreases nodes, 0
  {
    if nodes != [] {
      var init := nodes[..|nodes| - 1];
      AllInnerRange(view, init, n);
      InnerRange(view, nodes[|nodes| - 1], n + Sizes(init));
    }
  }

  // ---------------------------------------------------------------- declarations blocks

  function LinesIn(lines: seq<Line>, block: Scope): seq<Line> {
    if lines == [] then []
    else
      var last := lines[|lines| - 1];
      LinesIn(lines[..|lines| - 1], block) + if last.DeclarationLine? && last.scope == block then [last] else []
  }

  lemma {:induction false} LinesInConcat(a: seq<Line>, b: seq<Line>, block: Scope)
    ensures LinesIn(a + b, block) == LinesIn(a, block) + LinesIn(b, block)
    decreases |b|
  {
    if b == [] {
      assert a + b == a;
    } else {
      var init := b[..|b| - 1];
      assert (a + b)[..|a + b| - 1] == a + init;
      LinesInConcat(a, init, block);
    }
  }

  lemma {:induction false} NotesNotIn(lines: seq<Line>, block: Scope)
    requires forall line | line in lines :: line.NoteLine?
    ensures LinesIn(lines, block) == []
  {
    if lines != [] {
      NotesNotIn(lines[..|lines| - 1], block);
      assert lines[|lines| - 1] in lines;
    }
  }

  lemma {:induction false} BuriedLines(view: View, ds: seq<Declared>, block: Scope, scope: Scope)
    requires block != scope
    ensures |LinesIn(AllDeclarationLines(view, ds, block, scope), block)| == BuriedCount(view, ds)
  {
    if ds != [] {
      hide LinesIn;
      var init, d := ds[..|ds| - 1], ds[|ds| - 1];
      BuriedLines(view, init, block, scope);
      LinesInConcat(AllDeclarationLines(view, init, block, scope), DeclarationLines(view, d, block, scope), block);
      OneBuried(view, d, block, scope);
    }
  }

  lemma OneBuried(view: View, d: Declared, block: Scope, scope: Scope)
    requires block != scope
    ensures |LinesIn(DeclarationLines(view, d, block, scope), block)| == if Buried(view, d) then 1 else 0
  {
    hide Kept;
    if d.Declaration? {
      var notes := NoteLines(view, d.notes, d.hidden, scope);
      var lines := DeclarationLines(view, d, block, scope);
      assert lines[..|lines| - 1] == notes;
      NotesNotIn(notes, block);
    }
  }

  /** Moving the lines of a block out is the same as never having had the block. */
  lemma {:induction false} MovedLines(view: View, ds: seq<Declared>, block: Scope, scope: Scope)
    ensures var lines, moved := AllDeclarationLines(view, ds, block, scope), AllDeclarationLines(view, ds, scope, scope);
      |lines| == |moved| && forall i | 0 <= i < |lines| :: lines[i].(scope := scope) == moved[i]
  {
    if ds != [] {
      hide DeclarationLines;
      MovedLines(view, ds[..|ds| - 1], block, scope);
      MovedDeclaration(view, ds[|ds| - 1], block, scope);
    }
  }

  lemma MovedDeclaration(view: View, d: Declared, block: Scope, scope: Scope)
    ensures var lines, moved := DeclarationLines(view, d, block, scope), DeclarationLines(view, d, scope, scope);
      |lines| == |moved| && forall i | 0 <= i < |lines| :: lines[i].(scope := scope) == moved[i]
  {
    hide Kept;
  }

  lemma LastNote(view: View, notes: seq<int>, hidden: bool, scope: Scope)
    ensures var lines := NoteLines(view, notes, hidden, scope);
      (forall line | line in lines :: line.NoteLine?) &&
      (Commented(view, notes, hidden) <==> lines != [] && lines[|lines| - 1].hidden)
  {}

  // ---------------------------------------------------------------- the renderer

  class ErrorTrace {
    const view: View
    var scopes: nat
    var shown: set<Scope>

    ghost predicate Valid()
      reads this
    {
      forall s | s in shown :: Known(s, scopes)
    }

    constructor (view: View)
      ensures Valid() && this.view == view && scopes == 0 && shown == {}
    {
      this.view := view;
      scopes, shown := 0, {};
    }

    method NewScope() returns (scope: Scope)
      modifies this`scopes
      ensures scopes == old(scopes) + 1 && scope == Number(scopes)
    {
      scopes := scopes + 1;
      scope := Number(scopes);
    }

    method ParseNotes(notes: seq<int>, hidden: bool, scope: Scope) returns (lines: seq<Line>)
      modifies this`shown
      ensures lines == NoteLines(view, notes, hidden, scope)
      ensures shown == old(shown) + If(Marked(view, notes), scope)
    {
      var kept := [];
      for i := 0 to |notes|
        invariant kept == Kept(view, notes[..i])
        invariant shown == old(shown) + If(Marked(view, notes[..i]), scope)
      {
        assert notes[..i + 1] == notes[..i] + [notes[i]];
        if notes[i] <= view.notesLevel {
          if RelevantLevel(notes[i]) {
            shown := shown + {scope};
          }
          kept := kept + [notes[i]];
        }
      }
      assert notes[..|notes|] == notes;
      if kept == [] {
        return [];
      }
      lines := [];
      for i := 0 to |kept| - 1
        invariant |lines| == i
        invariant forall j | 0 <= j < i :: lines[j] == NoteLine(scope, kept[j], false)
      {
        lines := lines + [NoteLine(scope, kept[i], false)];
      }
      lines := lines + [NoteLine(scope, kept[|kept| - 1], hidden)];
    }

    method ParseDeclaration(d: Declared, block: Scope, scope: Scope) returns (lines: seq<Line>)
      requires d.Declaration?
      modifies this`shown
      ensures lines == DeclarationLines(view, d, block, scope)
      ensures shown == old(shown) + If(Marked(view, d.notes), scope)
    {
      var notes := ParseNotes(d.notes, d.hidden, scope);
      var place, commented := block, false;
      if |notes| > 0 {
        var last := notes[|notes| - 1];
        commented := last.hidden;
        if RelevantLevel(last.level) {
          place := scope;
        }
      }
      lines := notes + [DeclarationLine(place, |notes| > 0, commented)];
    }

    method CollectDeclarations(ds: seq<Declared>, block: Scope, scope: Scope) returns (lines: seq<Line>)
      modifies this`shown
      ensures lines == AllDeclarationLines(view, ds, block, scope)
      ensures shown == old(shown) + If(Relevant(view, Declarations(ds)), scope)
    {
      hide NoteLines, Kept, Marked;
      lines := [];
      for i := 0 to |ds|
        invariant lines == AllDeclarationLines(view, ds[..i], block, scope)
        invariant shown == old(shown) + If(Relevant(view, Declarations(ds[..i])), scope)
      {
        assert ds[..i + 1] == ds[..i] + [ds[i]];
        if ds[i].Declaration? {
          var next := ParseDeclaration(ds[i], block, scope);
          lines := lines + next;
        }
      }
      assert ds[..|ds|] == ds;
    }

    method ParseDeclarations(ds: seq<Declared>, scope: Scope) returns (lines: seq<Line>)
      requires Valid() && Known(scope, scopes)
      modifies this
      ensures Valid()
      ensures lines == BlockLines(view, ds, scope, old(scopes)) && scopes == old(scopes) + 1
      ensures shown == old(shown) + If(Relevant(view, Declarations(ds)), scope)
    {
      hide AllDeclarationLines, LinesIn, BuriedCount, Relevant;
      var block := NewScope();
      lines := CollectDeclarations(ds, block, scope);
      var number := CountIn(lines, block);
      BuriedLines(view, ds, block, scope);
      if number <= view.declarationsNumber && scope != Global {
        lines := MoveTo(lines, scope);
        MovedLines(view, ds, block, scope);
      } else {
        lines := [Block(scope, block)] + lines;
      }
    }

    method ParseNode(node: Node, scope: Scope) returns (lines: seq<Line>)
      requires Valid() && Known(scope, scopes)
      modifies this
      ensures Valid()
      ensures lines == Lines(view, node, scope, old(scopes)) && scopes == old(scopes) + Size(node)
      ensures shown == old(shown) + If(Relevant(view, node), scope) + Inner(view, node, old(scopes))
      decreases node, 2
    {
      match node
      case Statement(_, _) =>
        lines := ParseStatement(node, scope);
      case Thread(_) =>
        lines := ParseThread(node);
      case Call(_, _, _) =>
        lines := ParseCall(node, scope);
      case Action(_, _) =>
        lines := ParseAction(node, scope);
      case Declarations(ds) =>
        lines := ParseDeclarations(ds, scope);
    }

    method ParseStatement(node: Node, scope: Scope) returns (lines: seq<Line>)
      requires node.Statement?
      requires Valid() && Known(scope, scopes)
      modifies this
      ensures Valid()
      ensures lines == Lines(view, node, scope, old(scopes)) && scopes == old(scopes) + Size(node)
      ensures shown == old(shown) + If(Relevant(view, node), scope) + Inner(view, node, old(scopes))
    {
      var before := ParseNotes(node.notes, node.hidden, scope);
      var commented := before != [] && before[|before| - 1].hidden;
      lines := before + [StatementLine(scope, |before| > 0, commented)];
    }

    method ParseThread(node: Node) returns (lines: seq<Line>)
      requires Valid() && node.Thread?
      modifies this
      ensures Valid()
      ensures lines == AllLines(view, node.children, Number(old(scopes) + 1), old(scopes) + 1)
      ensures scopes == old(scopes) + Size(node) && shown == old(shown) + Inner(view, node, old(scopes))
      decreases node, 1
    {
      var body := NewScope();
      shown := shown + {body};
      lines := ParseChildren(node.children, body);
    }

    method ParseCall(node: Node, scope: Scope) returns (lines: seq<Line>)
      requires node.Call?
      requires Valid() && Known(scope, scopes)
      modifies this
      ensures Valid()
      ensures lines == Lines(view, node, scope, old(scopes)) && scopes == old(scopes) + Size(node)
      ensures shown == old(shown) + If(Relevant(view, node), scope) + Inner(view, node, old(scopes))
      decreases node, 1
    {
      hide AllLines, AllInner, AnyRelevant, Sizes, NoteLines, Marked;
      var before := ParseNotes(node.notes, node.hidden, scope);
      LastNote(view, node.notes, node.hidden, scope);
      var commented := before != [] && before[|before| - 1].hidden;
      var body, unfolded, inside := ParseBody(node.children, scope);
      lines := before + [Enter(scope, body, unfolded, commented)] + inside;
      if view.triangles {
        lines := lines + [Exit(body, body in shown)];
      }
    }

    method ParseAction(node: Node, scope: Scope) returns (lines: seq<Line>)
      requires node.Action?
      requires Valid() && Known(scope, scopes)
      modifies this
      ensures Valid()
      ensures lines == Lines(view, node, scope, old(scopes)) && scopes == old(scopes) + Size(node)
      ensures shown == old(shown) + If(Relevant(view, node), scope) + Inner(view, node, old(scopes))
      decreases node, 1
    {
      hide AllLines, AllInner, AnyRelevant, Sizes;
      if node.relevant {
        shown := shown + {scope};
      }
      var body, unfolded, inside := ParseBody(node.children, scope);
      lines := [Enter(scope, body, unfolded, false)] + inside;
      if view.triangles {
        lines := lines + [Exit(body, body in shown)];
      }
    }

    method ParseBody(children: seq<Node>, scope: Scope) returns (body: Scope, unfolded: bool, lines: seq<Line>)
      requires Valid() && Known(scope, scopes)
      modifies this
      ensures Valid()
      ensures body == Number(old(scopes) + 1) && scopes == old(scopes) + 1 + Sizes(children)
      ensures lines == AllLines(view, children, body, old(scopes) + 1)
      ensures unfolded == AnyRelevant(view, children)
      ensures shown == old(shown) + If(unfolded, body) + If(unfolded, scope) + AllInner(view, children, old(scopes) + 1)
      ensures body in shown <==> unfolded
      decreases children, 2
    {
      body := NewScope();
      AllInnerRange(view, children, scopes);
      lines := ParseChildren(children, body);
      unfolded := false;
      if body in shown {
        shown := shown + {scope};
        unfolded := true;
      }
    }

    method ParseChildren(children: seq<Node>, scope: Scope) returns (lines: seq<Line>)
      requires Valid() && Known(scope, scopes)
      modifies this
      ensures Valid()
      ensures lines == AllLines(view, children, scope, old(scopes)) && scopes == old(scopes) + Sizes(children)
      ensures shown == old(shown) + If(AnyRelevant(view, children), scope) + AllInner(view, children, old(scopes))
      decreases children, 1
    {
      hide Lines, Inner, Relevant, Size;
      lines := [];
      for i := 0 to |children|
        invariant Valid() && scopes == old(scopes) + Sizes(children[..i])
        invariant lines == AllLines(view, children[..i], scope, old(scopes))
        invariant shown == old(shown) + If(AnyRelevant(view, children[..i]), scope) + AllInner(view, children[..i], old(scopes))
      {
        assert children[..i + 1][..i] == children[..i];
        var next := ParseNode(children[i], scope);
        lines := lines + next;
      }
      assert children[..|children|] == children;
    }
  }

  /** The whole page: global declarations first, then the trace. */
  function PageLines(view: View, globals: Option<seq<Declared>>, trace: Option<Node>): seq<Line> {
    (if globals.Some? then BlockLines(view, globals.value, Global, 0) else []) +
    (if trace.Some? then Lines(view, trace.value, Number(0), if globals.Some? then 1 else 0) else [])
  }

  function PageShown(view: View, globals: Option<seq<Declared>>, trace: Option<Node>): set<Scope> {
    (if globals.Some? then {Global} else {}) +
    if trace.Some? then
      If(Relevant(view, trace.value), Number(0)) + Inner(view, trace.value, if globals.Some? then 1 else 0)
    else {}
  }

  method Render(view: View, globals: Option<seq<Declared>>, trace: Option<Node>)
    returns (lines: seq<Line>, shown: set<Scope>)
    ensures lines == PageLines(view, globals, trace) && shown == PageShown(view, globals, trace)
  {
    hide Lines, BlockLines, Inner, Relevant;
    var page := new ErrorTrace(view);
    lines := [];
    if globals.Some? {
      page.shown := page.shown + {Global};
      lines := page.ParseDeclarations(globals.value, Global);
    }
    if trace.Some? {
      var rest := page.ParseNode(trace.value, Number(0));
      lines := lines + rest;
    }
    shown := page.shown;
  }

  method CountIn(lines: seq<Line>, block: Scope) returns (number: nat)
    ensures number == |LinesIn(lines, block)|
  {
    number := 0;
    for i := 0 to |lines|
      invariant number == |LinesIn(lines[..i], block)|
    {
      assert lines[..i + 1][..i] == lines[..i];
      if lines[i].DeclarationLine? && lines[i].scope == block {
        number := number + 1;
      }
    }
    assert lines[..|lines|] == lines;
  }

  method MoveTo(lines: seq<Line>, scope: Scope) returns (moved: seq<Line>)
    ensures |moved| == |lines| && forall i | 0 <= i < |lines| :: moved[i] == lines[i].(scope := scope)
  {
    moved := [];
    for i := 0 to |lines|
      invariant |moved| == i && forall j | 0 <= j < i :: moved[j] == lines[j].(scope := scope)
    {
      moved := moved + [lines[i].(scope := scope)];
    }
  }
}
