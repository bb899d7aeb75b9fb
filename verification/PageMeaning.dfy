/** The page said without the renderer: walk around the trace once, and write down for every node what
    is due when it is entered and when it is left. */
module PageMeaning {
  import opened Options
  import opened Visibility

  // ---------------------------------------------------------------- notes

  /** The notes up to the given level, in order. */
  function UpTo(level: int, notes: seq<int>): seq<int> {
    if notes == [] then [] else (if notes[0] <= level then [notes[0]] else []) + UpTo(level, notes[1..])
  }

  lemma {:induction false} UpToLast(level: int, notes: seq<int>)
    requires notes != []
    ensures UpTo(level, notes) == UpTo(level, notes[..|notes| - 1]) + if notes[|notes| - 1] <= level then [notes[|notes| - 1]] else []
  {
    if |notes| > 1 {
      assert notes[1..][..|notes| - 2] == notes[..|notes| - 1][1..];
      UpToLast(level, notes[1..]);
    } else {
      assert notes[1..] == [] && notes[..0] == [];
    }
  }

  lemma {:induction false} KeptIsUpTo(view: View, notes: seq<int>)
    ensures Kept(view, notes) == UpTo(view.notesLevel, notes)
  {
    if notes != [] {
      KeptIsUpTo(view, notes[..|notes| - 1]);
      UpToLast(view.notesLevel, notes);
    }
  }

  /** One line per note; only the last one folds what follows. */
  function NotesPart(view: View, notes: seq<int>, hidden: bool, scope: Scope): seq<Line> {
    var seen := UpTo(view.notesLevel, notes);
    seq(|seen|, i requires 0 <= i < |seen| => NoteLine(scope, seen[i], hidden && i == |seen| - 1))
  }

  function Noted(view: View, notes: seq<int>): bool {
    UpTo(view.notesLevel, notes) != []
  }

  lemma NotesPartIs(view: View, notes: seq<int>, hidden: bool, scope: Scope)
    ensures NotesPart(view, notes, hidden, scope) == NoteLines(view, notes, hidden, scope)
    ensures Noted(view, notes) <==> Kept(view, notes) != []
  {
    KeptIsUpTo(view, notes);
  }

  // ---------------------------------------------------------------- what unfolds a body

  /** A note of level 0 or 1 that the user sees. */
  ghost predicate Striking(view: View, notes: seq<int>) {
    exists i | 0 <= i < |notes| :: notes[i] in {0, 1} && notes[i] <= view.notesLevel
  }

  /** The node itself is worth showing. */
  ghost predicate Live(view: View, node: Node) {
    match node
    case Statement(notes, _) => Striking(view, notes)
    case Call(notes, _, _) => Striking(view, notes)
    case Action(relevant, _) => relevant
    case Thread(_) => false
    case Declarations(ds) => exists i | 0 <= i < |ds| :: ds[i].Declaration? && Striking(view, ds[i].notes)
  }

  /** A path of child positions, through calls and actions, to a node worth showing. */
  ghost predicate Leads(view: View, node: Node, path: seq<nat>)
    decreases |path|
  {
    if path == [] then Live(view, node)
    else (node.Call? || node.Action?) && path[0] < |node.children| && Leads(view, node.children[path[0]], path[1..])
  }

  ghost predicate Leading(view: View, node: Node) {
    exists path :: Leads(view, node, path)
  }

  /** Something below the call or action is worth showing. */
  ghost predicate Opens(view: View, node: Node) {
    (node.Call? || node.Action?) && exists path | Leads(view, node, path) :: path != []
  }

  lemma StrikingIs(view: View, notes: seq<int>)
    ensures Striking(view, notes) <==> Marked(view, notes)
  {
    if Marked(view, notes) {
      var level :| level in notes && level <= view.notesLevel && RelevantLevel(level);
      var i :| 0 <= i < |notes| && notes[i] == level;
      assert notes[i] in {0, 1} && notes[i] <= view.notesLevel;
    }
    if i :| 0 <= i < |notes| && notes[i] in {0, 1} && notes[i] <= view.notesLevel {
      assert notes[i] in notes && RelevantLevel(notes[i]);
    }
  }

  lemma LiveDeclarations(view: View, ds: seq<Declared>)
    ensures Live(view, Declarations(ds)) <==> Relevant(view, Declarations(ds))
  {
    hide Striking, Marked;
    forall i | 0 <= i < |ds| && ds[i].Declaration? ensures Striking(view, ds[i].notes) <==> Marked(view, ds[i].notes) {
      StrikingIs(view, ds[i].notes);
    }
  }

  lemma {:induction false} RelevantByPath(view: View, node: Node)
    ensures Relevant(view, node) <==> Leading(view, node)
    ensures node.Call? || node.Action? ==> (AnyRelevant(view, node.children) <==> Opens(view, node))
    decreases node, 1
  {
    hide Striking, Marked, Leading, Opens;
    if node.Call? || node.Action? {
      AnyRelevantByPath(view, node.children);
      OpensByStep(view, node);
      LeadsByStep(view, node);
      if node.Call? { StrikingIs(view, node.notes); }
    } else {
      LeadsHere(view, node);
      if node.Statement? { StrikingIs(view, node.notes); }
      if node.Declarations? { LiveDeclarations(view, node.declared); }
    }
  }

  lemma LeadsHere(view: View, node: Node)
    requires !node.Call? && !node.Action?
    ensures Leading(view, node) <==> Live(view, node)
  {
    if Leading(view, node) {
      var path :| Leads(view, node, path);
      assert path == [];
    }
    if Live(view, node) {
      assert Leads(view, node, []);
    }
  }

  lemma LeadsByStep(view: View, node: Node)
    requires node.Call? || node.Action?
    ensures Leading(view, node) <==> Live(view, node) || Opens(view, node)
  {
    if Leading(view, node) {
      var path :| Leads(view, node, path);
      assert path == [] ==> Live(view, node);
    }
    if Live(view, node) {
      assert Leads(view, node, []);
    }
    if Opens(view, node) {
      var path :| Leads(view, node, path) && path != [];
      assert Leads(view, node, path);
    }
  }

  lemma OpensByStep(view: View, node: Node)
    requires node.Call? || node.Action?
    ensures Opens(view, node) <==> exists i | 0 <= i < |node.children| :: Leading(view, node.children[i])
  {
    if Opens(view, node) {
      var path :| Leads(view, node, path) && path != [];
      assert Leads(view, node.children[path[0]], path[1..]);
    }
    if i :| 0 <= i < |node.children| && Leading(view, node.children[i]) {
      var path :| Leads(view, node.children[i], path);
      assert ([i] + path)[1..] == path;
      assert Leads(view, node, [i] + path) && [i] + path != [];
    }
  }

  lemma {:induction false} AnyRelevantByPath(view: View, nodes: seq<Node>)
    ensures AnyRelevant(view, nodes) <==> exists i | 0 <= i < |nodes| :: Leading(view, nodes[i])
    decreases nodes, 0
  {
    hide Leading, Relevant;
    if nodes != [] {
      var init, last := nodes[..|nodes| - 1], nodes[|nodes| - 1];
      AnyRelevantByPath(view, init);
      RelevantByPath(view, last);
      assert forall i | 0 <= i < |init| :: init[i] == nodes[i];
    }
  }

  // ---------------------------------------------------------------- the walk

  /** A node is entered or left; the depth counts the bodies around it. */
  datatype Stop = Down(depth: nat, node: Node) | Up(depth: nat, node: Node)

  function Walk(node: Node, depth: nat): seq<Stop>
    decreases node, 1
  {
    [Down(depth, node)] + (if HasBody(node) then WalkAll(node.children, depth + 1) else []) + [Up(depth, node)]
  }

  function WalkAll(nodes: seq<Node>, depth: nat): seq<Stop>
    decreases nodes, 0
  {
    if nodes == [] then [] else WalkAll(nodes[..|nodes| - 1], depth) + Walk(nodes[|nodes| - 1], depth)
  }

  predicate HasBody(node: Node) {
    node.Thread? || node.Call? || node.Action?
  }

  /** The last node before position i that was entered at the given depth. */
  function LastDown(w: seq<Stop>, i: nat, depth: int): Option<nat>
    requires i <= |w|
  {
    if i == 0 then None
    else if w[i - 1].Down? && w[i - 1].depth == depth then Some(i - 1)
    else LastDown(w, i - 1, depth)
  }

  /** How many nodes with a scope of their own are entered before position i. */
  function Taken(w: seq<Stop>, i: nat): nat
    requires i <= |w|
  {
    if i == 0 then 0 else Taken(w, i - 1) + if w[i - 1].Down? && !w[i - 1].node.Statement? then 1 else 0
  }

  /** The scope of the node entered at position i, when n scopes were taken before the walk. */
  function OwnScope(w: seq<Stop>, i: nat, n: nat): Scope
    requires i <= |w|
  {
    Number(n + 1 + Taken(w, i))
  }

  /** The scope of the nearest enclosing body; `root` where there is none. */
  function Enclosing(w: seq<Stop>, i: nat, root: Scope, n: nat): Scope
    requires i < |w|
  {
    match LastDown(w, i, w[i].depth as int - 1)
    case None => root
    case Some(j) => assert j < |w| by { LastDownBefore(w, i, w[i].depth as int - 1); } OwnScope(w, j, n)
  }

  lemma {:induction false} LastDownBefore(w: seq<Stop>, i: nat, depth: int)
    requires i <= |w|
    ensures LastDown(w, i, depth).Some? ==> LastDown(w, i, depth).value < i
  {
    if i > 0 {
      LastDownBefore(w, i - 1, depth);
    }
  }

  // ---------------------------------------------------------------- what is due at a stop

  /** The declaration belongs inside the block: its last visible note is not a striking one. */
  predicate InBlock(view: View, d: Declared) {
    d.Declaration? &&
    var seen := UpTo(view.notesLevel, d.notes);
    seen == [] || seen[|seen| - 1] !in {0, 1}
  }

  function InBlockSet(view: View, ds: seq<Declared>): set<nat> {
    set i: nat | i < |ds| && InBlock(view, ds[i])
  }

  function Join<T>(parts: seq<seq<T>>): seq<T> {
    if parts == [] then [] else Join(parts[..|parts| - 1]) + parts[|parts| - 1]
  }

  function DeclaredPart(view: View, d: Declared, block: Scope, scope: Scope): seq<Line> {
    if d.Other? then []
    else
      NotesPart(view, d.notes, d.hidden, scope) +
      [DeclarationLine(if InBlock(view, d) then block else scope, Noted(view, d.notes), Noted(view, d.notes) && d.hidden)]
  }

  /** A block has a header if it is the global one or hides more declarations than the user tolerates; without a
      header its declarations stand where the block does. */
  function BlockPart(view: View, ds: seq<Declared>, scope: Scope, own: Scope): seq<Line> {
    var header := scope == Global || |InBlockSet(view, ds)| > view.declarationsNumber;
    (if header then [Block(scope, own)] else []) +
    Join(seq(|ds|, i requires 0 <= i < |ds| => DeclaredPart(view, ds[i], if header then own else scope, scope)))
  }

  /** The lines due on entering a node that stands in `scope`, and on leaving it; `own` is the scope of the node. */
  ghost function Due(view: View, stop: Stop, scope: Scope, own: Scope): seq<Line> {
    match stop
    case Down(_, Statement(notes, hidden)) =>
      NotesPart(view, notes, hidden, scope) + [StatementLine(scope, Noted(view, notes), Noted(view, notes) && hidden)]
    case Down(_, Thread(_)) => []
    case Down(_, Call(notes, hidden, _)) =>
      NotesPart(view, notes, hidden, scope) + [Enter(scope, own, Opens(view, stop.node), Noted(view, notes) && hidden)]
    case Down(_, Action(_, _)) => [Enter(scope, own, Opens(view, stop.node), false)]
    case Down(_, Declarations(ds)) => BlockPart(view, ds, scope, own)
    case Up(_, node) => if view.triangles && (node.Call? || node.Action?) then [Exit(own, Opens(view, node))] else []
  }

  /** The scope of the node that is entered or left at position i. */
  function ScopeAt(w: seq<Stop>, i: nat, n: nat): Scope
    requires i < |w|
  {
    if w[i].Down? then OwnScope(w, i, n)
    else match LastDown(w, i, w[i].depth)
      case None => OwnScope(w, i, n)
      case Some(j) => assert j < |w| by { LastDownBefore(w, i, w[i].depth); } OwnScope(w, j, n)
  }

  /** The lines due at one stop. */
  ghost function Part(view: View, w: seq<Stop>, i: nat, root: Scope, n: nat): seq<Line>
    requires i < |w|
  {
    Due(view, w[i], Enclosing(w, i, root, n), ScopeAt(w, i, n))
  }

  /** The lines due at the first k stops. */
  ghost function Parts(view: View, w: seq<Stop>, k: nat, root: Scope, n: nat): seq<Line>
    requires k <= |w|
  {
    if k == 0 then [] else Parts(view, w, k - 1, root, n) + Part(view, w, k - 1, root, n)
  }

  // ---------------------------------------------------------------- walks in context

  /** Every stop of the walk is at the base depth or deeper; below it the enclosing body, and on the way up the node
      itself, was entered within the walk. */
  ghost predicate Whole(w: seq<Stop>, base: nat) {
    forall i | 0 <= i < |w| :: Within(w, i, base)
  }

  ghost predicate Within(w: seq<Stop>, i: nat, base: nat)
    requires i < |w|
  {
    && w[i].depth >= base
    && (w[i].depth > base ==> LastDown(w, i, w[i].depth as int - 1).Some?)
    && (w[i].Up? ==> LastDown(w, i, w[i].depth).Some?)
  }

  lemma Deep(w: seq<Stop>, base: nat)
    requires Whole(w, base)
    ensures forall k | 0 <= k < |w| :: w[k].depth >= base
  {
    hide LastDown;
    forall k | 0 <= k < |w| ensures w[k].depth >= base {
      assert Within(w, k, base);
    }
  }

  lemma {:induction false} LastDownConcat(a: seq<Stop>, b: seq<Stop>, i: nat, depth: int)
    requires i <= |b|
    ensures LastDown(a + b, |a| + i, depth) ==
      if LastDown(b, i, depth).Some? then Some(|a| + LastDown(b, i, depth).value) else LastDown(a, |a|, depth)
    decreases i
  {
    if i == 0 {
      LastDownPrefix(a, b, |a|, depth);
    } else {
      assert (a + b)[|a| + i - 1] == b[i - 1];
      LastDownConcat(a, b, i - 1, depth);
    }
  }

  lemma {:induction false} LastDownPrefix(a: seq<Stop>, b: seq<Stop>, i: nat, depth: int)
    requires i <= |a|
    ensures LastDown(a + b, i, depth) == LastDown(a, i, depth)
    decreases i
  {
    if i > 0 {
      assert (a + b)[i - 1] == a[i - 1];
      LastDownPrefix(a, b, i - 1, depth);
    }
  }

  lemma {:induction false} LastDownAbove(a: seq<Stop>, i: nat, depth: int)
    requires i <= |a| && forall k | 0 <= k < i :: a[k].depth > depth
    ensures LastDown(a, i, depth).None?
  {
    if i > 0 {
      LastDownAbove(a, i - 1, depth);
    }
  }

  lemma {:induction false} TakenConcat(a: seq<Stop>, b: seq<Stop>, i: nat)
    requires i <= |b|
    ensures Taken(a + b, |a| + i) == Taken(a, |a|) + Taken(b, i)
    decreases i
  {
    if i == 0 {
      TakenPrefix(a, b, |a|);
    } else {
      assert (a + b)[|a| + i - 1] == b[i - 1];
      TakenConcat(a, b, i - 1);
    }
  }

  lemma {:induction false} TakenPrefix(a: seq<Stop>, b: seq<Stop>, i: nat)
    requires i <= |a|
    ensures Taken(a + b, i) == Taken(a, i)
    decreases i
  {
    if i > 0 {
      assert (a + b)[i - 1] == a[i - 1];
      TakenPrefix(a, b, i - 1);
    }
  }

  /** What is due at a stop does not depend on what comes after it. */
  lemma PartPrefix(view: View, a: seq<Stop>, b: seq<Stop>, i: nat, root: Scope, n: nat)
    requires i < |a|
    ensures Part(view, a + b, i, root, n) == Part(view, a, i, root, n)
  {
    hide Due, LastDown, Taken;
    assert (a + b)[i] == a[i];
    var outer, self := a[i].depth as int - 1, a[i].depth as int;
    LastDownPrefix(a, b, i, outer);
    LastDownPrefix(a, b, i, self);
    LastDownBefore(a, i, outer);
    LastDownBefore(a, i, self);
    TakenPrefix(a, b, i);
    if LastDown(a, i, outer).Some? { TakenPrefix(a, b, LastDown(a, i, outer).value); }
    if LastDown(a, i, self).Some? { TakenPrefix(a, b, LastDown(a, i, self).value); }
  }

  /** The enclosing scope that the stops of the second walk see: the one last entered above them, or the root. */
  function Above(a: seq<Stop>, base: nat, root: Scope, n: nat): Scope {
    match LastDown(a, |a|, base as int - 1)
    case None => root
    case Some(j) => assert j < |a| by { LastDownBefore(a, |a|, base as int - 1); } OwnScope(a, j, n)
  }

  lemma EnclosingConcat(a: seq<Stop>, b: seq<Stop>, i: nat, base: nat, root: Scope, n: nat)
    requires Whole(b, base) && i < |b|
    ensures Enclosing(a + b, |a| + i, root, n) == Enclosing(b, i, Above(a, base, root, n), n + Taken(a, |a|))
  {
    hide LastDown, Taken;
    assert (a + b)[|a| + i] == b[i] && Within(b, i, base);
    var outer := b[i].depth as int - 1;
    LastDownConcat(a, b, i, outer);
    LastDownBefore(b, i, outer);
    LastDownBefore(a, |a|, outer);
    if LastDown(b, i, outer).Some? {
      TakenConcat(a, b, LastDown(b, i, outer).value);
    } else if LastDown(a, |a|, outer).Some? {
      TakenPrefix(a, b, LastDown(a, |a|, outer).value);
    }
  }

  lemma ScopeConcat(a: seq<Stop>, b: seq<Stop>, i: nat, base: nat, n: nat)
    requires Whole(b, base) && i < |b|
    ensures ScopeAt(a + b, |a| + i, n) == ScopeAt(b, i, n + Taken(a, |a|))
  {
    hide LastDown, Taken;
    assert (a + b)[|a| + i] == b[i] && Within(b, i, base);
    TakenConcat(a, b, i);
    LastDownConcat(a, b, i, b[i].depth);
    LastDownBefore(b, i, b[i].depth);
    if LastDown(b, i, b[i].depth).Some? { TakenConcat(a, b, LastDown(b, i, b[i].depth).value); }
  }

  /** A whole walk after another one: the counter goes on, and the root is what was last entered above it. */
  lemma PartConcat(view: View, a: seq<Stop>, b: seq<Stop>, i: nat, base: nat, root: Scope, n: nat)
    requires Whole(b, base) && i < |b|
    ensures Part(view, a + b, |a| + i, root, n) == Part(view, b, i, Above(a, base, root, n), n + Taken(a, |a|))
  {
    hide Due, Taken, Whole, Enclosing, ScopeAt, Above;
    EnclosingConcat(a, b, i, base, root, n);
    ScopeConcat(a, b, i, base, n);
  }

  lemma {:induction false} PartsPrefix(view: View, a: seq<Stop>, b: seq<Stop>, k: nat, root: Scope, n: nat)
    requires k <= |a|
    ensures Parts(view, a + b, k, root, n) == Parts(view, a, k, root, n)
    decreases k
  {
    hide Part;
    if k > 0 {
      PartPrefix(view, a, b, k - 1, root, n);
      PartsPrefix(view, a, b, k - 1, root, n);
    }
  }

  lemma {:induction false} PartsConcat(view: View, a: seq<Stop>, b: seq<Stop>, k: nat, base: nat, root: Scope, n: nat)
    requires Whole(b, base) && k <= |b|
    ensures Parts(view, a + b, |a| + k, root, n) ==
      Parts(view, a, |a|, root, n) + Parts(view, b, k, Above(a, base, root, n), n + Taken(a, |a|))
    decreases k
  {
    hide Part, Whole;
    if k == 0 {
      PartsPrefix(view, a, b, |a|, root, n);
    } else {
      PartConcat(view, a, b, k - 1, base, root, n);
      PartsConcat(view, a, b, k - 1, base, root, n);
    }
  }

  // ---------------------------------------------------------------- walks are whole

  lemma {:induction false} WholeConcat(a: seq<Stop>, b: seq<Stop>, base: nat)
    requires Whole(a, base) && Whole(b, base)
    ensures Whole(a + b, base)
  {
    hide LastDown;
    forall i | 0 <= i < |a + b| ensures Within(a + b, i, base) {
      var outer, self := (a + b)[i].depth as int - 1, (a + b)[i].depth as int;
      if i < |a| {
        assert Within(a, i, base);
        LastDownPrefix(a, b, i, outer);
        LastDownPrefix(a, b, i, self);
      } else {
        assert Within(b, i - |a|, base);
        LastDownConcat(a, b, i - |a|, outer);
        LastDownConcat(a, b, i - |a|, self);
      }
    }
  }

  lemma {:induction false} WalkWhole(node: Node, depth: nat)
    ensures Whole(Walk(node, depth), depth)
    decreases node, 1
  {
    hide Whole, LastDown;
    if HasBody(node) {
      WalkAllWhole(node.children, depth + 1);
      Wrapped(node, depth, WalkAll(node.children, depth + 1));
    } else {
      EmptyWhole(depth + 1);
      Wrapped(node, depth, []);
    }
  }

  lemma EmptyWhole(depth: nat)
    ensures Whole([], depth)
  {}

  /** After the children, the node itself is the last one entered at its depth. */
  lemma EnteredFirst(node: Node, depth: nat, inside: seq<Stop>)
    requires Whole(inside, depth + 1)
    ensures LastDown([Down(depth, node)] + inside, 1 + |inside|, depth) == Some(0)
  {
    var a := [Down(depth, node)];
    assert LastDown(a, 1, depth) == Some(0);
    hide LastDown;
    Deep(inside, depth + 1);
    LastDownAbove(inside, |inside|, depth);
    LastDownConcat(a, inside, |inside|, depth);
  }

  lemma WrappedStop(node: Node, depth: nat, inside: seq<Stop>, i: nat)
    requires Whole(inside, depth + 1) && i < |inside|
    ensures Within([Down(depth, node)] + inside + [Up(depth, node)], 1 + i, depth)
  {
    var a, z := [Down(depth, node)], [Up(depth, node)];
    assert LastDown(a, 1, depth) == Some(0);
    hide LastDown;
    assert Within(inside, i, depth + 1) && (a + inside + z)[1 + i] == inside[i];
    var outer, self := inside[i].depth as int - 1, inside[i].depth as int;
    LastDownPrefix(a + inside, z, 1 + i, outer);
    LastDownPrefix(a + inside, z, 1 + i, self);
    LastDownConcat(a, inside, i, outer);
    LastDownConcat(a, inside, i, self);
  }

  lemma WrappedEnds(node: Node, depth: nat, inside: seq<Stop>)
    requires Whole(inside, depth + 1)
    ensures var w := [Down(depth, node)] + inside + [Up(depth, node)];
      Within(w, 0, depth) && Within(w, 1 + |inside|, depth)
  {
    hide LastDown, Whole;
    EnteredFirst(node, depth, inside);
    LastDownPrefix([Down(depth, node)] + inside, [Up(depth, node)], 1 + |inside|, depth);
  }

  /** A node around a whole walk of its children. */
  lemma Wrapped(node: Node, depth: nat, inside: seq<Stop>)
    requires Whole(inside, depth + 1)
    ensures Whole([Down(depth, node)] + inside + [Up(depth, node)], depth)
  {
    hide Within;
    WrappedEnds(node, depth, inside);
    var w := [Down(depth, node)] + inside + [Up(depth, node)];
    forall i | 0 <= i < |w| ensures Within(w, i, depth) {
      if 0 < i <= |inside| {
        WrappedStop(node, depth, inside, i - 1);
      }
    }
  }

  lemma {:induction false} WalkAllWhole(nodes: seq<Node>, depth: nat)
    ensures Whole(WalkAll(nodes, depth), depth)
    decreases nodes, 0
  {
    hide Whole, Walk;
    if nodes == [] {
      EmptyWhole(depth);
    } else {
      WalkAllWhole(nodes[..|nodes| - 1], depth);
      WalkWhole(nodes[|nodes| - 1], depth);
      WholeConcat(WalkAll(nodes[..|nodes| - 1], depth), Walk(nodes[|nodes| - 1], depth), depth);
    }
  }

  lemma {:induction false} WalkTakes(node: Node, depth: nat)
    ensures Taken(Walk(node, depth), |Walk(node, depth)|) == Size(node)
    decreases node, 1
  {
    var a, inside, z := [Down(depth, node)], if HasBody(node) then WalkAll(node.children, depth + 1) else [], [Up(depth, node)];
    if HasBody(node) {
      WalkAllTakes(node.children, depth + 1);
    }
    TakenConcat(a + inside, z, 1);
    TakenConcat(a, inside, |inside|);
    assert Taken(a, 1) == Taken(a, 0) + if node.Statement? then 0 else 1;
    assert Taken(z, 1) == Taken(z, 0);
  }

  lemma {:induction false} WalkAllTakes(nodes: seq<Node>, depth: nat)
    ensures Taken(WalkAll(nodes, depth), |WalkAll(nodes, depth)|) == Sizes(nodes)
    decreases nodes, 0
  {
    hide Walk, Size;
    if nodes != [] {
      var a, b := WalkAll(nodes[..|nodes| - 1], depth), Walk(nodes[|nodes| - 1], depth);
      WalkAllTakes(nodes[..|nodes| - 1], depth);
      WalkTakes(nodes[|nodes| - 1], depth);
      TakenConcat(a, b, |b|);
    }
  }

  // ---------------------------------------------------------------- declarations blocks

  lemma InBlockIs(view: View, d: Declared)
    ensures InBlock(view, d) <==> Buried(view, d)
  {
    if d.Declaration? {
      KeptIsUpTo(view, d.notes);
    }
  }

  lemma {:induction false} InBlockCount(view: View, ds: seq<Declared>)
    ensures |InBlockSet(view, ds)| == BuriedCount(view, ds)
  {
    hide InBlock, Buried;
    if ds == [] {
      assert InBlockSet(view, ds) == {};
    } else {
      var init, d := ds[..|ds| - 1], ds[|ds| - 1];
      InBlockCount(view, init);
      InBlockIs(view, d);
      var was := InBlockSet(view, init);
      assert |ds| - 1 !in was;
      assert InBlockSet(view, ds) == if InBlock(view, d) then was + {|ds| - 1} else was;
    }
  }

  lemma DeclaredPartIs(view: View, d: Declared, block: Scope, scope: Scope)
    ensures DeclaredPart(view, d, block, scope) == DeclarationLines(view, d, block, scope)
  {
    hide NotesPart, NoteLines, Kept, InBlock, Buried, Noted;
    InBlockIs(view, d);
    if d.Declaration? {
      NotesPartIs(view, d.notes, d.hidden, scope);
    }
  }

  function DeclaredParts(view: View, ds: seq<Declared>, block: Scope, scope: Scope): seq<seq<Line>> {
    seq(|ds|, i requires 0 <= i < |ds| => DeclaredPart(view, ds[i], block, scope))
  }

  lemma {:induction false} DeclaredPartsAre(view: View, ds: seq<Declared>, block: Scope, scope: Scope)
    ensures Join(DeclaredParts(view, ds, block, scope)) == AllDeclarationLines(view, ds, block, scope)
  {
    hide DeclaredPart, DeclarationLines;
    var parts := DeclaredParts(view, ds, block, scope);
    if ds != [] {
      DeclaredPartsAre(view, ds[..|ds| - 1], block, scope);
      assert parts[..|parts| - 1] == DeclaredParts(view, ds[..|ds| - 1], block, scope);
      DeclaredPartIs(view, ds[|ds| - 1], block, scope);
    }
  }

  lemma BlockPartIs(view: View, ds: seq<Declared>, scope: Scope, n: nat)
    ensures BlockPart(view, ds, scope, Number(n + 1)) == BlockLines(view, ds, scope, n)
  {
    hide InBlockSet, BuriedCount, AllDeclarationLines, Join, DeclaredPart;
    InBlockCount(view, ds);
    var header := scope == Global || |InBlockSet(view, ds)| > view.declarationsNumber;
    var block := if header then Number(n + 1) else scope;
    DeclaredPartsAre(view, ds, block, scope);
    assert DeclaredParts(view, ds, block, scope) ==
      seq(|ds|, i requires 0 <= i < |ds| => DeclaredPart(view, ds[i], if header then Number(n + 1) else scope, scope));
  }

  // ---------------------------------------------------------------- the page is the walk

  /** What is due on entering and leaving a node is what the renderer puts before and after its children. */
  lemma DueIs(view: View, node: Node, depth: nat, scope: Scope, n: nat)
    ensures var enter, leave := Due(view, Down(depth, node), scope, Number(n + 1)), Due(view, Up(depth, node), scope, Number(n + 1));
      Lines(view, node, scope, n) ==
        enter + (if HasBody(node) then AllLines(view, node.children, Number(n + 1), n + 1) else []) + leave
  {
    hide NotesPart, NoteLines, Kept, Noted, BlockPart, BlockLines, AllLines, AnyRelevant, Opens;
    match node
    case Statement(notes, hidden) => NotesPartIs(view, notes, hidden, scope);
    case Thread(_) =>
    case Call(notes, hidden, _) =>
      NotesPartIs(view, notes, hidden, scope);
      RelevantByPath(view, node);
    case Action(_, _) => RelevantByPath(view, node);
    case Declarations(ds) => BlockPartIs(view, ds, scope, n);
  }

  lemma {:induction false} WalkIsLines(view: View, node: Node, depth: nat, scope: Scope, n: nat)
    ensures Parts(view, Walk(node, depth), |Walk(node, depth)|, scope, n) == Lines(view, node, scope, n)
    decreases node, 1
  {
    hide Lines, Due, Part, Parts, Whole, AllLines;
    var inside := if HasBody(node) then WalkAll(node.children, depth + 1) else [];
    if HasBody(node) {
      WalkAllWhole(node.children, depth + 1);
      WalkAllIsLines(view, node.children, depth + 1, Number(n + 1), n + 1);
    } else {
      EmptyWhole(depth + 1);
      NoParts(view, Number(n + 1), n + 1);
    }
    WrappedParts(view, node, depth, inside, scope, n);
    DueIs(view, node, depth, scope, n);
  }

  lemma NoParts(view: View, scope: Scope, n: nat)
    ensures Parts(view, [], 0, scope, n) == []
  {}

  /** A node around the walk of its children: what is due on entering it, the children in its own scope, and what is
      due on leaving it. */
  lemma WrappedParts(view: View, node: Node, depth: nat, inside: seq<Stop>, scope: Scope, n: nat)
    requires Whole(inside, depth + 1) && (inside != [] ==> !node.Statement?)
    ensures var w := [Down(depth, node)] + inside + [Up(depth, node)];
      Parts(view, w, |w|, scope, n) ==
        Due(view, Down(depth, node), scope, Number(n + 1)) +
        Parts(view, inside, |inside|, Number(n + 1), n + 1) +
        Due(view, Up(depth, node), scope, Number(n + 1))
  {
    hide Due, Whole, LastDown, Taken, Parts, Part;
    var a, z := [Down(depth, node)], [Up(depth, node)];
    var w := a + inside + z;
    EnteredFirst(node, depth, inside);
    EnterPart(view, node, depth, scope, n);
    PartsConcat(view, a, inside, |inside|, depth + 1, scope, n);
    PartsPrefix(view, a + inside, z, |a + inside|, scope, n);
    LeavePart(view, node, depth, inside, scope, n);
    LastParts(view, w, scope, n);
    if inside == [] {
      NoParts(view, Number(n + 1), n + 1);
      NoParts(view, Above(a, depth + 1, scope, n), n + Taken(a, 1));
    }
  }

  lemma LastParts(view: View, w: seq<Stop>, scope: Scope, n: nat)
    requires w != []
    ensures Parts(view, w, |w|, scope, n) == Parts(view, w, |w| - 1, scope, n) + Part(view, w, |w| - 1, scope, n)
  {
    hide Part;
  }

  lemma EnterPart(view: View, node: Node, depth: nat, scope: Scope, n: nat)
    ensures var a := [Down(depth, node)];
      && Parts(view, a, 1, scope, n) == Due(view, Down(depth, node), scope, Number(n + 1))
      && Above(a, depth + 1, scope, n) == Number(n + 1)
      && (!node.Statement? ==> Taken(a, 1) == 1)
  {
    hide Due;
    var a := [Down(depth, node)];
    assert LastDown(a, 0, depth as int - 1).None? && Taken(a, 0) == 0;
    assert LastDown(a, 1, depth) == Some(0);
    assert Parts(view, a, 0, scope, n) == [];
    assert Part(view, a, 0, scope, n) == Due(view, Down(depth, node), scope, Number(n + 1));
  }

  lemma LeavePart(view: View, node: Node, depth: nat, inside: seq<Stop>, scope: Scope, n: nat)
    requires Whole(inside, depth + 1) && LastDown([Down(depth, node)] + inside, 1 + |inside|, depth) == Some(0)
    ensures var w := [Down(depth, node)] + inside + [Up(depth, node)];
      Part(view, w, 1 + |inside|, scope, n) == Due(view, Up(depth, node), scope, Number(n + 1))
  {
    hide Due, LastDown, Whole;
    var a, z := [Down(depth, node)] + inside, [Up(depth, node)];
    var w := a + z;
    assert w[1 + |inside|] == Up(depth, node);
    LastDownPrefix(a, z, 1 + |inside|, depth);
    LastDownPrefix(a, z, 1 + |inside|, depth as int - 1);
    NoneOutside(node, depth, inside);
    NoneTaken(w);
    hide Taken;
  }

  lemma NoneTaken(w: seq<Stop>)
    ensures Taken(w, 0) == 0
  {}

  lemma NoneOutside(node: Node, depth: nat, inside: seq<Stop>)
    requires Whole(inside, depth + 1)
    ensures LastDown([Down(depth, node)] + inside, 1 + |inside|, depth as int - 1).None?
  {
    hide LastDown;
    Deep(inside, depth + 1);
    LastDownAbove([Down(depth, node)] + inside, 1 + |inside|, depth as int - 1);
  }

  lemma {:induction false} WalkAllIsLines(view: View, nodes: seq<Node>, depth: nat, scope: Scope, n: nat)
    ensures Parts(view, WalkAll(nodes, depth), |WalkAll(nodes, depth)|, scope, n) == AllLines(view, nodes, scope, n)
    decreases nodes, 0
  {
    hide Parts, Lines, Walk, Whole, LastDown, Taken, Sizes;
    if nodes == [] {
      NoParts(view, scope, n);
    } else {
      var init, last := nodes[..|nodes| - 1], nodes[|nodes| - 1];
      var a, b := WalkAll(init, depth), Walk(last, depth);
      WalkAllIsLines(view, init, depth, scope, n);
      WalkIsLines(view, last, depth, scope, n + Sizes(init));
      WalkWhole(last, depth);
      WalkAllTakes(init, depth);
      NothingAbove(init, depth, scope, n);
      PartsConcat(view, a, b, |b|, depth, scope, n);
    }
  }

  lemma NothingAbove(nodes: seq<Node>, depth: nat, scope: Scope, n: nat)
    ensures Above(WalkAll(nodes, depth), depth, scope, n) == scope
  {
    hide LastDown, WalkAll;
    WalkAllWhole(nodes, depth);
    Deep(WalkAll(nodes, depth), depth);
    LastDownAbove(WalkAll(nodes, depth), |WalkAll(nodes, depth)|, depth as int - 1);
  }

  /** The trace part of a page, for every trace: exactly the lines due along the walk, in its order. So every
      statement, call, action and declaration has one line of its own, right after its notes up to the user's level,
      in the scope of the nearest body around it; every call and action is closed where it ends; and it is unfolded
      exactly when something worth showing lies below it. */
  lemma PageIsWalk(view: View, globals: Option<seq<Declared>>, trace: Option<Node>)
    ensures var n := if globals.Some? then 1 else 0;
      PageLines(view, globals, trace) ==
        (if globals.Some? then BlockPart(view, globals.value, Global, Number(1)) else []) +
        (if trace.Some? then Parts(view, Walk(trace.value, 0), |Walk(trace.value, 0)|, Number(0), n) else [])
  {
    hide BlockPart, BlockLines, Lines, Parts, Walk;
    if globals.Some? {
      BlockPartIs(view, globals.value, Global, 0);
    }
    if trace.Some? {
      WalkIsLines(view, trace.value, 0, Number(0), if globals.Some? then 1 else 0);
    }
  }

  // ---------------------------------------------------------------- the notes on the page

  /** The levels of the notes among the lines. */
  function Levels(lines: seq<Line>): seq<int> {
    if lines == [] then []
    else Levels(lines[..|lines| - 1]) + if lines[|lines| - 1].NoteLine? then [lines[|lines| - 1].level] else []
  }

  lemma {:induction false} LevelsConcat(a: seq<Line>, b: seq<Line>)
    ensures Levels(a + b) == Levels(a) + Levels(b)
    decreases |b|
  {
    if b == [] {
      assert a + b == a;
    } else {
      assert (a + b)[..|a + b| - 1] == a + b[..|b| - 1];
      LevelsConcat(a, b[..|b| - 1]);
    }
  }

  lemma {:induction false} LevelsOfNotes(lines: seq<Line>)
    requires forall i | 0 <= i < |lines| :: lines[i].NoteLine?
    ensures |Levels(lines)| == |lines| && forall i | 0 <= i < |lines| :: Levels(lines)[i] == lines[i].level
  {
    if lines != [] {
      LevelsOfNotes(lines[..|lines| - 1]);
    }
  }

  lemma NotesPartLevels(view: View, notes: seq<int>, hidden: bool, scope: Scope, line: Line)
    requires !line.NoteLine?
    ensures Levels(NotesPart(view, notes, hidden, scope) + [line]) == UpTo(view.notesLevel, notes)
    ensures Levels([line]) == []
  {
    hide UpTo;
    var part := NotesPart(view, notes, hidden, scope);
    LevelsOfNotes(part);
    assert [line][..0] == [];
    LevelsConcat(part, [line]);
    assert Levels(part) == UpTo(view.notesLevel, notes);
  }

  function DeclaredNotes(view: View, ds: seq<Declared>): seq<seq<int>> {
    seq(|ds|, i requires 0 <= i < |ds| => if ds[i].Declaration? then UpTo(view.notesLevel, ds[i].notes) else [])
  }

  lemma {:induction false} DeclaredLevels(view: View, ds: seq<Declared>, block: Scope, scope: Scope)
    ensures Levels(Join(DeclaredParts(view, ds, block, scope))) == Join(DeclaredNotes(view, ds))
  {
    hide UpTo, NotesPart, DeclaredPart, Levels;
    var parts, notes := DeclaredParts(view, ds, block, scope), DeclaredNotes(view, ds);
    if ds == [] {
      NoLevels();
    } else {
      var init, d := ds[..|ds| - 1], ds[|ds| - 1];
      DeclaredLevels(view, init, block, scope);
      assert parts[..|parts| - 1] == DeclaredParts(view, init, block, scope);
      assert notes[..|notes| - 1] == DeclaredNotes(view, init);
      LevelsConcat(Join(parts[..|parts| - 1]), parts[|parts| - 1]);
      OneDeclaredLevels(view, d, block, scope);
    }
  }

  lemma NoLevels()
    ensures Levels([]) == []
  {}

  lemma OneDeclaredLevels(view: View, d: Declared, block: Scope, scope: Scope)
    ensures Levels(DeclaredPart(view, d, block, scope)) == if d.Declaration? then UpTo(view.notesLevel, d.notes) else []
  {
    hide UpTo, NotesPart, Levels, InBlock;
    NoLevels();
    if d.Declaration? {
      var line := DeclarationLine(if InBlock(view, d) then block else scope, Noted(view, d.notes), Noted(view, d.notes) && d.hidden);
      NotesPartLevels(view, d.notes, d.hidden, scope, line);
    }
  }

  lemma BlockLevels(view: View, ds: seq<Declared>, scope: Scope, own: Scope)
    ensures Levels(BlockPart(view, ds, scope, own)) == Join(DeclaredNotes(view, ds))
  {
    hide Levels, Join, DeclaredPart, InBlockSet, DeclaredNotes;
    var header := scope == Global || |InBlockSet(view, ds)| > view.declarationsNumber;
    var block := if header then own else scope;
    DeclaredLevels(view, ds, block, scope);
    NoLevels();
    NotesPartLevels(view, [], false, scope, Block(scope, own));
    var first := if header then [Block(scope, own)] else [];
    assert BlockPart(view, ds, scope, own) == first + Join(DeclaredParts(view, ds, block, scope)) by {
      assert DeclaredParts(view, ds, block, scope) ==
        seq(|ds|, i requires 0 <= i < |ds| => DeclaredPart(view, ds[i], if header then own else scope, scope));
    }
    LevelsConcat(first, Join(DeclaredParts(view, ds, block, scope)));
  }

  /** The notes a node carries, up to the user's level. */
  function NotesOf(view: View, node: Node): seq<int> {
    match node
    case Statement(notes, _) => UpTo(view.notesLevel, notes)
    case Call(notes, _, _) => UpTo(view.notesLevel, notes)
    case Declarations(ds) => Join(DeclaredNotes(view, ds))
    case _ => []
  }

  /** The notes of all nodes below and at a node, in the order of the trace. */
  function AllNotes(view: View, node: Node): seq<int>
    decreases node, 1
  {
    NotesOf(view, node) + if HasBody(node) then NotesOfAll(view, node.children) else []
  }

  function NotesOfAll(view: View, nodes: seq<Node>): seq<int>
    decreases nodes, 0
  {
    if nodes == [] then [] else NotesOfAll(view, nodes[..|nodes| - 1]) + AllNotes(view, nodes[|nodes| - 1])
  }

  lemma DueLevels(view: View, stop: Stop, scope: Scope, own: Scope)
    ensures Levels(Due(view, stop, scope, own)) == if stop.Down? then NotesOf(view, stop.node) else []
  {
    hide Levels, NotesPart, UpTo, BlockPart, Join, DeclaredNotes, Opens;
    NoLevels();
    var node := stop.node;
    var enter := Enter(scope, own, Opens(view, node), false);
    NotesPartLevels(view, [], false, scope, enter);
    NotesPartLevels(view, [], false, scope, Exit(own, Opens(view, node)));
    match node
    case Statement(notes, hidden) =>
      NotesPartLevels(view, notes, hidden, scope, StatementLine(scope, Noted(view, notes), Noted(view, notes) && hidden));
    case Call(notes, hidden, _) =>
      NotesPartLevels(view, notes, hidden, scope, Enter(scope, own, Opens(view, node), Noted(view, notes) && hidden));
    case Declarations(ds) => BlockLevels(view, ds, scope, own);
    case _ =>
  }

  /** The note lines of a trace are all its notes up to the user's level, in the order of the trace. */
  lemma {:induction false} NotesComplete(view: View, node: Node, scope: Scope, n: nat)
    ensures Levels(Lines(view, node, scope, n)) == AllNotes(view, node)
    decreases node, 1
  {
    hide Levels, Lines, Due, NotesOf, AllLines;
    var enter, leave := Due(view, Down(0, node), scope, Number(n + 1)), Due(view, Up(0, node), scope, Number(n + 1));
    var body := if HasBody(node) then AllLines(view, node.children, Number(n + 1), n + 1) else [];
    DueIs(view, node, 0, scope, n);
    DueLevels(view, Down(0, node), scope, Number(n + 1));
    DueLevels(view, Up(0, node), scope, Number(n + 1));
    LevelsConcat(enter + body, leave);
    LevelsConcat(enter, body);
    NoLevels();
    if HasBody(node) {
      AllNotesComplete(view, node.children, Number(n + 1), n + 1);
    }
  }

  lemma {:induction false} AllNotesComplete(view: View, nodes: seq<Node>, scope: Scope, n: nat)
    ensures Levels(AllLines(view, nodes, scope, n)) == NotesOfAll(view, nodes)
    decreases nodes, 0
  {
    hide Levels, Lines, AllNotes;
    if nodes == [] {
      NoLevels();
    } else {
      var init, last := nodes[..|nodes| - 1], nodes[|nodes| - 1];
      AllNotesComplete(view, init, scope, n);
      NotesComplete(view, last, scope, n + Sizes(init));
      LevelsConcat(AllLines(view, init, scope, n), Lines(view, last, scope, n + Sizes(init)));
    }
  }

  // ---------------------------------------------------------------- the shown scopes

  /** Threads are always shown; calls and actions when they open. */
  ghost predicate Showing(view: View, stop: Stop) {
    stop.Down? && (stop.node.Thread? || Opens(view, stop.node))
  }

  ghost function ShownAlong(view: View, w: seq<Stop>, n: nat): set<Scope> {
    set i: nat | i < |w| && Showing(view, w[i]) :: OwnScope(w, i, n)
  }

  lemma ShownConcat(view: View, a: seq<Stop>, b: seq<Stop>, n: nat)
    ensures ShownAlong(view, a + b, n) == ShownAlong(view, a, n) + ShownAlong(view, b, n + Taken(a, |a|))
  {
    hide Showing, Taken;
    var w, left, right := a + b, ShownAlong(view, a, n), ShownAlong(view, b, n + Taken(a, |a|));
    forall i: nat | i < |a| ensures w[i] == a[i] && OwnScope(w, i, n) == OwnScope(a, i, n) {
      TakenPrefix(a, b, i);
    }
    forall i: nat | i < |b| ensures w[|a| + i] == b[i] && OwnScope(w, |a| + i, n) == OwnScope(b, i, n + Taken(a, |a|)) {
      TakenConcat(a, b, i);
    }
    forall s | s in ShownAlong(view, w, n) ensures s in left + right {
      var i: nat :| i < |w| && Showing(view, w[i]) && OwnScope(w, i, n) == s;
      if i >= |a| {
        assert b[i - |a|] == w[i] && OwnScope(b, i - |a|, n + Taken(a, |a|)) == s;
      }
    }
    forall s | s in right ensures s in ShownAlong(view, w, n) {
      var i: nat :| i < |b| && Showing(view, b[i]) && OwnScope(b, i, n + Taken(a, |a|)) == s;
      assert Showing(view, w[|a| + i]) && OwnScope(w, |a| + i, n) == s;
    }
    forall s | s in left ensures s in ShownAlong(view, w, n) {
      var i: nat :| i < |a| && Showing(view, a[i]) && OwnScope(a, i, n) == s;
      assert Showing(view, w[i]) && OwnScope(w, i, n) == s;
    }
  }

  lemma OneShown(view: View, stop: Stop, n: nat)
    ensures ShownAlong(view, [stop], n) == if Showing(view, stop) then {Number(n + 1)} else {}
    ensures Taken([stop], 1) == if stop.Down? && !stop.node.Statement? then 1 else 0
  {
    hide Showing;
    var w := [stop];
    NoneTaken(w);
    assert w[0] == stop && OwnScope(w, 0, n) == Number(n + 1);
    assert forall s :: s in ShownAlong(view, w, n) <==> Showing(view, stop) && s == Number(n + 1);
  }

  /** The scopes shown inside a node are those of its threads and of the calls and actions that open. */
  lemma {:induction false} InnerIsWalk(view: View, node: Node, depth: nat, n: nat)
    ensures Inner(view, node, n) == ShownAlong(view, Walk(node, depth), n)
    decreases node, 1
  {
    assert !node.Call? && !node.Action? ==> !Opens(view, node);
    hide ShownAlong, Taken, AllInner, AnyRelevant, Opens;
    var a, z := [Down(depth, node)], [Up(depth, node)];
    var inside := if HasBody(node) then WalkAll(node.children, depth + 1) else [];
    ShownConcat(view, a + inside, z, n);
    ShownConcat(view, a, inside, n);
    OneShown(view, Down(depth, node), n);
    OneShown(view, Up(depth, node), n + Taken(a + inside, |a + inside|));
    RelevantByPath(view, node);
    if HasBody(node) {
      AllInnerIsWalk(view, node.children, depth + 1, n + 1);
    } else {
      NoneShown(view, n + Taken(a, 1));
    }
  }

  lemma NoneShown(view: View, n: nat)
    ensures ShownAlong(view, [], n) == {}
  {}

  lemma {:induction false} AllInnerIsWalk(view: View, nodes: seq<Node>, depth: nat, n: nat)
    ensures AllInner(view, nodes, n) == ShownAlong(view, WalkAll(nodes, depth), n)
    decreases nodes, 0
  {
    hide ShownAlong, Taken, Inner, Walk, Sizes;
    if nodes == [] {
      NoneShown(view, n);
    } else {
      var init, last := nodes[..|nodes| - 1], nodes[|nodes| - 1];
      AllInnerIsWalk(view, init, depth, n);
      WalkAllTakes(init, depth);
      InnerIsWalk(view, last, depth, n + Sizes(init));
      ShownConcat(view, WalkAll(init, depth), Walk(last, depth), n);
    }
  }

  /** The scopes shown at first, no more and no fewer: the global declarations, every thread, every call and action
      below which something is worth showing, and the outermost scope if anything outside threads is. */
  lemma ShownIsWalk(view: View, globals: Option<seq<Declared>>, trace: Option<Node>)
    ensures var n := if globals.Some? then 1 else 0;
      PageShown(view, globals, trace) ==
        (if globals.Some? then {Global} else {}) +
        (if trace.Some? && Leading(view, trace.value) then {Number(0)} else {}) +
        (if trace.Some? then ShownAlong(view, Walk(trace.value, 0), n) else {})
  {
    hide Inner, Relevant, ShownAlong, Walk, Leading;
    if trace.Some? {
      InnerIsWalk(view, trace.value, 0, if globals.Some? then 1 else 0);
      RelevantByPath(view, trace.value);
    }
  }
}
