/** What the two converters guarantee, for every trace. */
module ForestTheorems {
  import opened Forests

  // ---------------------------------------------------------------- non-relevant actions are transparent

  /** Replace the chosen non-relevant actions by their children, at every depth. A node is named by
      the path of child positions that leads to it, so any set of occurrences can be chosen. */
  function Splice(n: Node, pick: seq<nat> -> bool, at: seq<nat>): seq<Node>
    decreases n, 1
  {
    match n
    case Plain(_) => [n]
    case Action(relevant, children) =>
      var inner := SpliceAll(children, pick, at, 0);
      if !relevant && pick(at) then inner else [Action(relevant, inner)]
    case Declarations(children) => [Declarations(SpliceAll(children, pick, at, 0))]
    case Thread(id, notes, children) => [Thread(id, notes, SpliceAll(children, pick, at, 0))]
    case Call(name, notes, children) => [Call(name, notes, SpliceAll(children, pick, at, 0))]
  }

  function SpliceAll(ns: seq<Node>, pick: seq<nat> -> bool, at: seq<nat>, i: nat): seq<Node>
    decreases ns, 0
  {
    if ns == [] then [] else Splice(ns[0], pick, at + [i]) + SpliceAll(ns[1..], pick, at, i + 1)
  }

  lemma {:induction false} SpliceTransparent(n: Node, pick: seq<nat> -> bool, at: seq<nat>)
    ensures TreesAll(Splice(n, pick, at)) == Trees(n)
    ensures EmittedAll(Splice(n, pick, at)) == Emitted(n)
    ensures AnyNote(Splice(n, pick, at)) == HasNote(n)
    decreases n, 1
  {
    if !n.Plain? {
      SpliceAllTransparent(n.children, pick, at, 0);
      var out := Splice(n, pick, at);
      if |out| == 1 {
        assert out[1..] == [];
      }
    }
  }

  lemma {:induction false} SpliceAllTransparent(ns: seq<Node>, pick: seq<nat> -> bool, at: seq<nat>, i: nat)
    ensures TreesAll(SpliceAll(ns, pick, at, i)) == TreesAll(ns)
    ensures EmittedAll(SpliceAll(ns, pick, at, i)) == EmittedAll(ns)
    ensures AnyNote(SpliceAll(ns, pick, at, i)) == AnyNote(ns)
    decreases ns, 0
  {
    if ns != [] {
      SpliceTransparent(ns[0], pick, at + [i]);
      SpliceAllTransparent(ns[1..], pick, at, i + 1);
      AllConcat(Splice(ns[0], pick, at + [i]), SpliceAll(ns[1..], pick, at, i + 1));
    }
  }

  lemma {:induction false} SpliceRecords(n: Node, pick: seq<nat> -> bool, at: seq<nat>, thread: Owner, d: Dict)
    ensures RecordAll(Splice(n, pick, at), thread, d) == Record(n, thread, d)
    decreases n, 1
  {
    if n.Plain? {
      assert Splice(n, pick, at)[1..] == [];
    } else {
      var out := Splice(n, pick, at);
      SpliceAllTransparent(n.children, pick, at, 0);
      if n.Thread? {
        SpliceAllRecords(n.children, pick, at, 0, Owner(n.id), SetDefault(d, n.id));
      } else if !n.Declarations? {
        SpliceAllRecords(n.children, pick, at, 0, thread, d);
      }
      if |out| == 1 && !(n.Action? && !n.relevant && pick(at)) {
        assert out[1..] == [];
        assert RecordAll(out, thread, d) == Record(out[0], thread, d);
      }
    }
  }

  lemma {:induction false} SpliceAllRecords(ns: seq<Node>, pick: seq<nat> -> bool, at: seq<nat>, i: nat, thread: Owner, d: Dict)
    ensures RecordAll(SpliceAll(ns, pick, at, i), thread, d) == RecordAll(ns, thread, d)
    decreases ns, 0
  {
    if ns != [] {
      SpliceRecords(ns[0], pick, at + [i], thread, d);
      RecordConcat(Splice(ns[0], pick, at + [i]), SpliceAll(ns[1..], pick, at, i + 1), thread, d);
      match Record(ns[0], thread, d)
      case KeyError =>
      case Done(d') => SpliceAllRecords(ns[1..], pick, at, i + 1, thread, d');
    }
  }

  /** Dropping any set of non-relevant action nodes, at any depth, changes neither converter's output. When
      the root itself is dropped, its children take its place one after another. */
  lemma ActionsAreTransparent(trace: Node, pick: seq<nat> -> bool)
    ensures var out := Splice(trace, pick, []);
      EmittedAll(out) == Emitted(trace) && RecordAll(out, Nobody, []) == Record(trace, Nobody, [])
    ensures !(trace.Action? && !trace.relevant && pick([])) ==>
      var out := Splice(trace, pick, []);
      |out| == 1 && Emitted(out[0]) == Emitted(trace) && Record(out[0], Nobody, []) == Record(trace, Nobody, [])
  {
    SpliceTransparent(trace, pick, []);
    SpliceRecords(trace, pick, [], Nobody, []);
    if !(trace.Action? && !trace.relevant && pick([])) {
      var out := Splice(trace, pick, []);
      assert out == [out[0]] && out[1..] == [];
    }
  }

  // ---------------------------------------------------------------- which calls are kept

  /** A path of child positions from a node to a note of level below 2. It may pass through calls,
      actions that are not relevant and declaration blocks; below a declaration block it may not
      enter the body of a call. It never enters a relevant action or the body of a thread. */
  ghost predicate Leads(n: Node, path: seq<nat>, inDeclarations: bool)
    decreases n
  {
    if path == [] then !n.Action? && !n.Declarations? && exists i | 0 <= i < |n.notes| :: n.notes[i] < 2
    else
      && (n.Declarations? || (n.Action? && !n.relevant) || (n.Call? && !inDeclarations))
      && path[0] < |n.children|
      && Leads(n.children[path[0]], path[1..], inDeclarations || n.Declarations?)
  }

  ghost predicate Noted(n: Node, inDeclarations: bool) {
    exists path :: Leads(n, path, inDeclarations)
  }

  ghost predicate AnyNoted(ns: seq<Node>, inDeclarations: bool) {
    exists i | 0 <= i < |ns| :: Noted(ns[i], inDeclarations)
  }

  /** Paths by their first step. */
  lemma NotedByStep(n: Node, inDeclarations: bool)
    ensures Noted(n, inDeclarations) <==>
      || (!n.Action? && !n.Declarations? && RelevantNote(n.notes))
      || (n.Declarations? && AnyNoted(n.children, true))
      || (n.Action? && !n.relevant && AnyNoted(n.children, inDeclarations))
      || (n.Call? && !inDeclarations && AnyNoted(n.children, inDeclarations))
  {
    if Noted(n, inDeclarations) {
      var path :| Leads(n, path, inDeclarations);
      if path != [] {
        var inside := inDeclarations || n.Declarations?;
        assert Leads(n.children[path[0]], path[1..], inside);
        assert Noted(n.children[path[0]], inside);
      }
    }
    if !n.Action? && !n.Declarations? && RelevantNote(n.notes) {
      assert Leads(n, [], inDeclarations);
    }
    if n.Declarations? || (n.Action? && !n.relevant) || (n.Call? && !inDeclarations) {
      var inside := inDeclarations || n.Declarations?;
      if AnyNoted(n.children, inside) {
        var i :| 0 <= i < |n.children| && Noted(n.children[i], inside);
        var path :| Leads(n.children[i], path, inside);
        assert ([i] + path)[1..] == path;
        assert Leads(n, [i] + path, inDeclarations);
      }
    }
  }

  lemma AnyNotedByHead(ns: seq<Node>, inDeclarations: bool)
    requires ns != []
    ensures AnyNoted(ns, inDeclarations) <==> Noted(ns[0], inDeclarations) || AnyNoted(ns[1..], inDeclarations)
  {
    if AnyNoted(ns[1..], inDeclarations) {
      var i :| 0 <= i < |ns[1..]| && Noted(ns[1..][i], inDeclarations);
      assert ns[1..][i] == ns[i + 1];
    }
    if AnyNoted(ns, inDeclarations) {
      var i :| 0 <= i < |ns| && Noted(ns[i], inDeclarations);
      if i > 0 {
        assert ns[1..][i - 1] == ns[i];
      }
    }
  }

  lemma {:induction false} NotesByPath(n: Node)
    ensures HasNote(n) <==> Noted(n, true)
    decreases n, 1
  {
    hide Noted;
    NotedByStep(n, true);
    if n.Action? || n.Declarations? {
      AnyNoteByPath(n.children);
    }
  }

  lemma {:induction false} AnyNoteByPath(ns: seq<Node>)
    ensures AnyNote(ns) <==> AnyNoted(ns, true)
    decreases ns, 0
  {
    hide Noted;
    if ns != [] {
      NotesByPath(ns[0]);
      AnyNoteByPath(ns[1..]);
      AnyNotedByHead(ns, true);
    }
  }

  /** A node shows something to its parent, a tree or a note, exactly when a path leads to a note. */
  lemma {:induction false} VisibleByPath(n: Node)
    ensures Trees(n) != [] || HasNote(n) <==> Noted(n, false)
    ensures n.Call? ==> (Trees(n) != [] <==> Noted(n, false))
    decreases n, 1
  {
    hide Noted;
    NotedByStep(n, false);
    if n.Action? || n.Call? {
      AnyVisibleByPath(n.children);
    } else if n.Declarations? {
      AnyNoteByPath(n.children);
    }
  }

  lemma {:induction false} AnyVisibleByPath(ns: seq<Node>)
    ensures TreesAll(ns) != [] || AnyNote(ns) <==> AnyNoted(ns, false)
    decreases ns, 0
  {
    hide Noted;
    if ns != [] {
      VisibleByPath(ns[0]);
      AnyVisibleByPath(ns[1..]);
      AnyNotedByHead(ns, false);
    }
  }

  /** A call is kept if and only if a relevant note is at the call or can be reached below it. */
  lemma CallKept(c: Node)
    requires c.Call?
    ensures Trees(c) != [] <==> Noted(c, false)
  {
    VisibleByPath(c);
  }

  // ---------------------------------------------------------------- emitted trees are justified

  /** The calls of a trace, at any depth. */
  ghost function Calls(n: Node): set<Node>
    decreases n, 1
  {
    (if n.Call? then {n} else {}) + (if n.Plain? then {} else CallsAll(n.children))
  }

  ghost function CallsAll(ns: seq<Node>): set<Node>
    decreases ns, 0
  {
    if ns == [] then {} else Calls(ns[0]) + CallsAll(ns[1..])
  }

  /** Every call tree in a forest, roots and inner trees, has the name of some call of the trace and is its
      tree, and a tree without branches has a note at that call or in its body. */
  ghost predicate FromCalls(f: Forest, calls: set<Node>)
    decreases f, 0
  {
    f == [] || (TreeFromCalls(f[0], calls) && FromCalls(f[1..], calls))
  }

  ghost predicate TreeFromCalls(t: Tree, calls: set<Node>)
    decreases t, 1
  {
    && (exists c :: c in calls && c.Call? && c.name == t.name && Trees(c) == [t] &&
          (t.children == [] ==> RelevantNote(c.notes) || AnyNote(c.children)))
    && FromCalls(t.children, calls)
  }

  lemma {:induction false} FromMoreCalls(f: Forest, calls: set<Node>, more: set<Node>)
    requires FromCalls(f, calls) && calls <= more
    ensures FromCalls(f, more)
    decreases f, 0
  {
    if f != [] {
      TreeFromMoreCalls(f[0], calls, more);
      FromMoreCalls(f[1..], calls, more);
    }
  }

  lemma {:induction false} TreeFromMoreCalls(t: Tree, calls: set<Node>, more: set<Node>)
    requires TreeFromCalls(t, calls) && calls <= more
    ensures TreeFromCalls(t, more)
    decreases t, 1
  {
    FromMoreCalls(t.children, calls, more);
  }

  lemma {:induction false} FromCallsConcat(f: Forest, g: Forest, calls: set<Node>)
    requires FromCalls(f, calls) && FromCalls(g, calls)
    ensures FromCalls(f + g, calls)
    decreases |f|
  {
    if f == [] {
      assert f + g == g;
    } else {
      assert (f + g)[0] == f[0] && (f + g)[1..] == f[1..] + g;
      FromCallsConcat(f[1..], g, calls);
    }
  }

  lemma {:induction false} TreesFromCalls(n: Node)
    ensures FromCalls(Trees(n), Calls(n))
    ensures forall f | f in Emitted(n) :: f != [] && FromCalls(f, Calls(n))
    decreases n, 1
  {
    if !n.Plain? {
      AllFromCalls(n.children);
      FromMoreCalls(TreesAll(n.children), CallsAll(n.children), Calls(n));
      forall f | f in Emitted(n) ensures f != [] && FromCalls(f, Calls(n)) {
        if f in EmittedAll(n.children) {
          FromMoreCalls(f, CallsAll(n.children), Calls(n));
        }
      }
      if n.Call? && Trees(n) != [] {
        assert Trees(n) == [Tree(n.name, TreesAll(n.children))];
        assert n in Calls(n) && Trees(n)[1..] == [];
      }
    }
  }

  lemma {:induction false} AllFromCalls(ns: seq<Node>)
    ensures FromCalls(TreesAll(ns), CallsAll(ns))
    ensures forall f | f in EmittedAll(ns) :: f != [] && FromCalls(f, CallsAll(ns))
    decreases ns, 0
  {
    if ns != [] {
      TreesFromCalls(ns[0]);
      AllFromCalls(ns[1..]);
      FromMoreCalls(Trees(ns[0]), Calls(ns[0]), CallsAll(ns));
      FromMoreCalls(TreesAll(ns[1..]), CallsAll(ns[1..]), CallsAll(ns));
      FromCallsConcat(Trees(ns[0]), TreesAll(ns[1..]), CallsAll(ns));
      forall f | f in EmittedAll(ns) ensures f != [] && FromCalls(f, CallsAll(ns)) {
        if f in Emitted(ns[0]) {
          FromMoreCalls(f, Calls(ns[0]), CallsAll(ns));
        } else {
          FromMoreCalls(f, CallsAll(ns[1..]), CallsAll(ns));
        }
      }
    }
  }

  // ---------------------------------------------------------------- the two converters compared

  function Flatten(d: Dict): seq<Forest> {
    if d == [] then [] else d[0].1 + Flatten(d[1..])
  }

  function Concat(fs: seq<seq<Forest>>): seq<Forest> {
    if fs == [] then [] else fs[0] + Concat(fs[1..])
  }

  lemma {:induction false} NonEmptyConcat(d: Dict)
    ensures Concat(NonEmpty(d)) == Flatten(d)
  {
    if d != [] {
      NonEmptyConcat(d[1..]);
      if d[0].1 != [] {
        assert NonEmpty(d)[1..] == NonEmpty(d[1..]);
      } else {
        assert NonEmpty(d) == NonEmpty(d[1..]);
      }
    }
  }

  lemma {:induction false} SetDefaultFacts(d: Dict, id: int)
    ensures Has(SetDefault(d, id), id)
    ensures forall k :: Get(SetDefault(d, id), k) == Get(d, k)
    ensures forall k :: Has(SetDefault(d, id), k) <==> Has(d, k) || k == id
    ensures Flatten(SetDefault(d, id)) == Flatten(d)
  {
    if !Has(d, id) {
      PushFacts(d, id);
    }
  }

  lemma {:induction false} PushFacts(d: Dict, id: int)
    requires !Has(d, id)
    ensures var d' := d + [(id, [])];
      && Has(d', id) && Flatten(d') == Flatten(d)
      && (forall k :: Get(d', k) == Get(d, k)) && (forall k :: Has(d', k) <==> Has(d, k) || k == id)
  {
    var d' := d + [(id, [])];
    if d == [] {
      assert d' == [(id, [])] && d'[1..] == [];
    } else {
      assert d'[0] == d[0] && d'[1..] == d[1..] + [(id, [])];
      PushFacts(d[1..], id);
    }
  }

  lemma {:induction false} AppendFacts(d: Dict, id: int, f: Forest)
    requires Has(d, id)
    ensures Append(d, id, f).Done?
    ensures var d' := Append(d, id, f).dict;
      && multiset(Flatten(d')) == multiset(Flatten(d)) + multiset{f}
      && Get(d', id) == Get(d, id) + [f]
      && (forall k | k != id :: Get(d', k) == Get(d, k)) && (forall k :: Has(d', k) <==> Has(d, k))
  {
    if d[0].0 == id {
      var d' := Append(d, id, f).dict;
      assert d'[1..] == d[1..];
      assert Flatten(d') == d[0].1 + [f] + Flatten(d[1..]);
      assert multiset(Flatten(d')) == multiset(d[0].1) + multiset{f} + multiset(Flatten(d[1..]));
      assert Flatten(d) == d[0].1 + Flatten(d[1..]);
    } else {
      AppendFacts(d[1..], id, f);
      var d' := Append(d, id, f).dict;
      assert d'[0] == d[0] && d'[1..] == Append(d[1..], id, f).dict;
      assert Flatten(d') == d[0].1 + Flatten(d'[1..]);
    }
  }

  /** The forests relevant actions emit for the innermost enclosing thread. */
  function Own(n: Node): seq<Forest>
    decreases n, 1
  {
    match n
    case Plain(_) => []
    case Declarations(_) => []
    case Thread(_, _, _) => []
    case Call(_, _, children) => OwnAll(children)
    case Action(relevant, children) =>
      OwnAll(children) + if relevant && TreesAll(children) != [] then [TreesAll(children)] else []
  }

  function OwnAll(ns: seq<Node>): seq<Forest>
    decreases ns, 0
  {
    if ns == [] then [] else Own(ns[0]) + OwnAll(ns[1..])
  }

  /** One forest for every thread that has call trees but emits no relevant forest of its own. */
  function Residual(n: Node): seq<Forest>
    decreases n, 1
  {
    match n
    case Plain(_) => []
    case Declarations(_) => []
    case Thread(_, _, children) =>
      ResidualAll(children) + if TreesAll(children) != [] && OwnAll(children) == [] then [TreesAll(children)] else []
    case _ => ResidualAll(n.children)
  }

  function ResidualAll(ns: seq<Node>): seq<Forest>
    decreases ns, 0
  {
    if ns == [] then [] else Residual(ns[0]) + ResidualAll(ns[1..])
  }

  function ThreadIds(n: Node): seq<int>
    decreases n, 1
  {
    match n
    case Plain(_) => []
    case Declarations(_) => []
    case Thread(id, _, children) => [id] + ThreadIdsAll(children)
    case _ => ThreadIdsAll(n.children)
  }

  function ThreadIdsAll(ns: seq<Node>): seq<int>
    decreases ns, 0
  {
    if ns == [] then [] else ThreadIds(ns[0]) + ThreadIdsAll(ns[1..])
  }

  ghost predicate Distinct(ids: seq<int>) {
    forall i, j | 0 <= i < j < |ids| :: ids[i] != ids[j]
  }

  /** The dictionary keeps its keys and gains at least the given forests. */
  ghost predicate Gains(d: Dict, d': Dict, emitted: seq<Forest>) {
    multiset(Flatten(d)) + multiset(emitted) <= multiset(Flatten(d')) && forall k | Has(d, k) :: Has(d', k)
  }

  lemma GainsChain(d: Dict, d1: Dict, d2: Dict, e1: seq<Forest>, e2: seq<Forest>)
    requires Gains(d, d1, e1) && Gains(d1, d2, e2)
    ensures Gains(d, d2, e1 + e2)
  {
    assert multiset(e1 + e2) == multiset(e1) + multiset(e2);
  }

  lemma GainsAppend(d: Dict, d1: Dict, e: seq<Forest>, id: int, f: Forest)
    requires Gains(d, d1, e) && Has(d, id)
    ensures Append(d1, id, f).Done? && Gains(d, Append(d1, id, f).dict, e + [f]) && Gains(d, Append(d1, id, f).dict, e)
  {
    AppendFacts(d1, id, f);
    GainsChain(d, d1, Append(d1, id, f).dict, e, [f]);
    GainsChain(d, d1, Append(d1, id, f).dict, e, []);
    assert e + [] == e;
  }

  /** Inside a thread the dictionary never lacks a key and gains every emitted forest. */
  lemma {:induction false} RecordGains(n: Node, thread: Owner, d: Dict)
    requires n.Thread? || (thread.Owner? && Has(d, thread.id))
    ensures Record(n, thread, d).Done? && Gains(d, Record(n, thread, d).dict, Emitted(n))
    decreases n, 1
  {
    hide Gains, Has;
    if n.Thread? {
      SetDefaultFacts(d, n.id);
      RecordAllGains(n.children, Owner(n.id), SetDefault(d, n.id));
      ThreadGains(n, thread, d);
    } else if n.Call? || n.Action? {
      RecordAllGains(n.children, thread, d);
      BodyGains(n, thread, d);
    } else {
      GainsNothing(d);
    }
  }

  lemma ThreadGains(n: Node, thread: Owner, d: Dict)
    requires n.Thread?
    requires var body := RecordAll(n.children, Owner(n.id), SetDefault(d, n.id));
      body.Done? && Gains(SetDefault(d, n.id), body.dict, EmittedAll(n.children))
    ensures Record(n, thread, d).Done? && Gains(d, Record(n, thread, d).dict, Emitted(n))
  {
    hide Gains, TreesAll, RecordAll, EmittedAll, Has, Get, SetDefault, Append;
    var d1 := SetDefault(d, n.id);
    SetDefaultFacts(d, n.id);
    GainsDefault(d, n.id);
    GainsAppend(d1, RecordAll(n.children, Owner(n.id), d1).dict, EmittedAll(n.children), n.id, TreesAll(n.children));
    GainsChain(d, d1, Record(n, thread, d).dict, [], Emitted(n));
    assert [] + Emitted(n) == Emitted(n);
  }

  lemma BodyGains(n: Node, thread: Owner, d: Dict)
    requires (n.Call? || n.Action?) && thread.Owner? && Has(d, thread.id)
    requires var body := RecordAll(n.children, thread, d);
      body.Done? && Gains(d, body.dict, EmittedAll(n.children))
    ensures Record(n, thread, d).Done? && Gains(d, Record(n, thread, d).dict, Emitted(n))
  {
    hide Gains, TreesAll, RecordAll, EmittedAll, Has, Get, Append;
    GainsAppend(d, RecordAll(n.children, thread, d).dict, EmittedAll(n.children), thread.id, TreesAll(n.children));
    assert EmittedAll(n.children) + [] == EmittedAll(n.children);
  }

  lemma GainsNothing(d: Dict)
    ensures Gains(d, d, [])
  {}

  lemma GainsDefault(d: Dict, id: int)
    ensures Gains(d, SetDefault(d, id), [])
  {
    SetDefaultFacts(d, id);
  }

  lemma {:induction false} RecordAllGains(ns: seq<Node>, thread: Owner, d: Dict)
    requires thread.Owner? && Has(d, thread.id)
    ensures RecordAll(ns, thread, d).Done? && Gains(d, RecordAll(ns, thread, d).dict, EmittedAll(ns))
    decreases ns, 0
  {
    if ns == [] {
      GainsNothing(d);
    } else {
      RecordGains(ns[0], thread, d);
      var d' := Record(ns[0], thread, d).dict;
      RecordAllGains(ns[1..], thread, d');
      GainsChain(d, d', RecordAll(ns, thread, d).dict, Emitted(ns[0]), EmittedAll(ns[1..]));
    }
  }

  /** For every trace rooted at a thread, the per-thread converter succeeds and its forests include,
      with multiplicity, those of the relevant-forest converter. */
  lemma RelevantWithinThreads(trace: Node)
    requires trace.Thread?
    ensures Record(trace, Nobody, []).Done?
    ensures multiset(Emitted(trace)) <= multiset(Concat(NonEmpty(Record(trace, Nobody, []).dict)))
  {
    RecordGains(trace, Nobody, []);
    NonEmptyConcat(Record(trace, Nobody, []).dict);
  }

  /** What a parse adds to the dictionary: forests in all, keys, and forests under the owner's key. */
  datatype Gain = Gain(forests: multiset<Forest>, ids: seq<int>, own: seq<Forest>)

  function Both(g: Gain, h: Gain): Gain {
    Gain(g.forests + h.forests, g.ids + h.ids, g.own + h.own)
  }

  ghost predicate Account(d: Dict, d': Dict, thread: Owner, g: Gain) {
    && multiset(Flatten(d')) == multiset(Flatten(d)) + g.forests
    && (forall k :: Has(d', k) <==> Has(d, k) || k in g.ids)
    && (forall k | Has(d, k) :: Get(d', k) == Get(d, k) + if thread == Owner(k) then g.own else [])
  }

  lemma AccountChain(d: Dict, d1: Dict, d2: Dict, thread: Owner, g: Gain, h: Gain)
    requires Account(d, d1, thread, g) && Account(d1, d2, thread, h)
    ensures Account(d, d2, thread, Both(g, h))
  {
    forall k | Has(d, k) ensures Get(d2, k) == Get(d, k) + if thread == Owner(k) then g.own + h.own else [] {
      assert Has(d1, k);
    }
  }

  lemma AccountAppend(d: Dict, id: int, f: Forest)
    requires Has(d, id)
    ensures Append(d, id, f).Done? && Account(d, Append(d, id, f).dict, Owner(id), Gain(multiset{f}, [], [f]))
  {
    AppendFacts(d, id, f);
  }

  /** A thread starts from a fresh key, so that key ends up with the thread's own forests. */
  lemma AccountThread(d: Dict, id: int, d2: Dict, thread: Owner, g: Gain)
    requires !Has(d, id) && Account(SetDefault(d, id), d2, Owner(id), g)
    ensures Get(d2, id) == g.own && Has(d2, id)
    ensures Account(d, d2, thread, Gain(g.forests, [id] + g.ids, []))
  {
    hide Flatten, SetDefault, Has, Get;
    SetDefaultFacts(d, id);
    AbsentEmpty(d, id);
  }

  function GainOf(n: Node): Gain {
    Gain(multiset(Emitted(n)) + multiset(Residual(n)), ThreadIds(n), Own(n))
  }

  function GainOfAll(ns: seq<Node>): Gain {
    Gain(multiset(EmittedAll(ns)) + multiset(ResidualAll(ns)), ThreadIdsAll(ns), OwnAll(ns))
  }

  /** With fresh, distinct thread identifiers the account is exact. */
  lemma {:induction false} RecordExact(n: Node, thread: Owner, d: Dict)
    requires n.Thread? || (thread.Owner? && Has(d, thread.id))
    requires Distinct(ThreadIds(n)) && forall id | id in ThreadIds(n) :: !Has(d, id)
    ensures Record(n, thread, d).Done? && Account(d, Record(n, thread, d).dict, thread, GainOf(n))
    decreases n, 1
  {
    hide Account, Has, GainOf;
    if n.Thread? {
      FirstThread(n.id, ThreadIdsAll(n.children));
      SetDefaultFacts(d, n.id);
      RecordAllExact(n.children, Owner(n.id), SetDefault(d, n.id));
      ThreadAccount(n, thread, d);
    } else if n.Call? || n.Action? {
      RecordAllExact(n.children, thread, d);
      BodyAccount(n, thread, d);
    } else {
      AccountNothing(d, thread);
      assert GainOf(n) == Gain(multiset{}, [], []) by { GainOfLeaf(n); }
    }
  }

  lemma GainOfLeaf(n: Node)
    requires n.Plain? || n.Declarations?
    ensures GainOf(n) == Gain(multiset{}, [], [])
  {}

  lemma ThreadAccount(n: Node, thread: Owner, d: Dict)
    requires n.Thread? && !Has(d, n.id)
    requires var body := RecordAll(n.children, Owner(n.id), SetDefault(d, n.id));
      body.Done? && Account(SetDefault(d, n.id), body.dict, Owner(n.id), GainOfAll(n.children))
    ensures Record(n, thread, d).Done? && Account(d, Record(n, thread, d).dict, thread, GainOf(n))
  {
    hide Account, TreesAll, RecordAll, EmittedAll, ResidualAll, ThreadIdsAll, OwnAll, Has, Get, SetDefault, Append;
    var id, f, g := n.id, TreesAll(n.children), GainOfAll(n.children);
    var d2 := RecordAll(n.children, Owner(id), SetDefault(d, id)).dict;
    AccountThread(d, id, d2, thread, g);
    if f != [] && g.own == [] {
      AccountAppend(d2, id, f);
      var d3 := Append(d2, id, f).dict;
      AccountChain(SetDefault(d, id), d2, d3, Owner(id), g, Gain(multiset{f}, [], [f]));
      AccountThread(d, id, d3, thread, Both(g, Gain(multiset{f}, [], [f])));
      assert GainOf(n) == Gain(g.forests + multiset{f}, [id] + (g.ids + []), []);
    } else {
      assert GainOf(n) == Gain(g.forests, [id] + g.ids, []);
    }
  }

  lemma BodyAccount(n: Node, thread: Owner, d: Dict)
    requires (n.Call? || n.Action?) && thread.Owner? && Has(d, thread.id)
    requires var body := RecordAll(n.children, thread, d);
      body.Done? && Account(d, body.dict, thread, GainOfAll(n.children))
    ensures Record(n, thread, d).Done? && Account(d, Record(n, thread, d).dict, thread, GainOf(n))
  {
    hide Account, TreesAll, RecordAll, GainOf, GainOfAll, Has, Get, Append;
    GainOfBody(n);
    var f, g := TreesAll(n.children), GainOfAll(n.children);
    var body := RecordAll(n.children, thread, d).dict;
    AccountKeeps(d, body, thread, g);
    if n.Action? && n.relevant && f != [] {
      AccountAppend(body, thread.id, f);
      AccountChain(d, body, Append(body, thread.id, f).dict, thread, g, Gain(multiset{f}, [], [f]));
    }
  }

  lemma GainOfBody(n: Node)
    requires n.Call? || n.Action?
    ensures var f, g := TreesAll(n.children), GainOfAll(n.children);
      GainOf(n) == if n.Action? && n.relevant && f != [] then Both(g, Gain(multiset{f}, [], [f])) else g
  {
    hide TreesAll, EmittedAll, ResidualAll, ThreadIdsAll, OwnAll;
  }

  lemma AccountNothing(d: Dict, thread: Owner)
    ensures Account(d, d, thread, Gain(multiset{}, [], []))
  {}

  lemma AccountKeeps(d: Dict, d': Dict, thread: Owner, g: Gain)
    requires Account(d, d', thread, g)
    ensures forall k :: Has(d', k) <==> Has(d, k) || k in g.ids
  {}

  lemma FirstThread(id: int, ids: seq<int>)
    requires Distinct([id] + ids)
    ensures id !in ids && Distinct(ids)
  {
    DistinctConcat([id], ids);
    assert id in [id];
  }

  lemma {:induction false} AbsentEmpty(d: Dict, id: int)
    requires !Has(d, id)
    ensures Get(d, id) == []
  {
    if d != [] {
      AbsentEmpty(d[1..], id);
    }
  }

  lemma {:induction false} RecordAllExact(ns: seq<Node>, thread: Owner, d: Dict)
    requires thread.Owner? && Has(d, thread.id)
    requires Distinct(ThreadIdsAll(ns)) && forall id | id in ThreadIdsAll(ns) :: !Has(d, id)
    ensures RecordAll(ns, thread, d).Done? && Account(d, RecordAll(ns, thread, d).dict, thread, GainOfAll(ns))
    decreases ns, 0
  {
    hide Account, Has, GainOf, Record;
    if ns == [] {
      AccountNothing(d, thread);
      assert GainOfAll(ns) == Gain(multiset{}, [], []);
    } else {
      DistinctConcat(ThreadIds(ns[0]), ThreadIdsAll(ns[1..]));
      GainSplits(ns);
      RecordExact(ns[0], thread, d);
      var d' := Record(ns[0], thread, d).dict;
      AccountKeeps(d, d', thread, GainOf(ns[0]));
      RecordAllExact(ns[1..], thread, d');
      AccountChain(d, d', RecordAll(ns, thread, d).dict, thread, GainOf(ns[0]), GainOfAll(ns[1..]));
    }
  }

  lemma GainSplits(ns: seq<Node>)
    requires ns != []
    ensures Both(GainOf(ns[0]), GainOfAll(ns[1..])) == GainOfAll(ns)
    ensures GainOf(ns[0]).ids == ThreadIds(ns[0])
  {}

  lemma DistinctConcat(a: seq<int>, b: seq<int>)
    requires Distinct(a + b)
    ensures Distinct(a) && Distinct(b) && forall x | x in b :: x !in a
  {
    assert forall i | 0 <= i < |a| :: (a + b)[i] == a[i];
    assert forall j | 0 <= j < |b| :: (a + b)[|a| + j] == b[j];
    forall i, j | 0 <= i < j < |b| ensures b[i] != b[j] {
      assert (a + b)[|a| + i] != (a + b)[|a| + j];
    }
    forall i, j | 0 <= i < j < |a| ensures a[i] != a[j] {
      assert (a + b)[i] != (a + b)[j];
    }
  }

  /** With distinct thread identifiers the per-thread converter yields exactly the relevant forests and
      one residual forest for every thread with call trees but no relevant forest of its own. */
  lemma ThreadsAreRelevantPlusResidual(trace: Node)
    requires trace.Thread? && Distinct(ThreadIds(trace))
    ensures Record(trace, Nobody, []).Done?
    ensures multiset(Concat(NonEmpty(Record(trace, Nobody, []).dict))) == multiset(Emitted(trace)) + multiset(Residual(trace))
  {
    RecordExact(trace, Nobody, []);
    NonEmptyConcat(Record(trace, Nobody, []).dict);
  }

  /** Without an enclosing thread the per-thread converter fails exactly when a relevant action emits
      a forest that belongs to no thread. */
  lemma {:induction false} FailsOutsideThreads(n: Node, d: Dict)
    ensures Record(n, Nobody, d).KeyError? <==> Own(n) != []
    decreases n, 1
  {
    if n.Thread? {
      RecordGains(n, Nobody, d);
    } else if n.Call? || n.Action? {
      AllFailOutsideThreads(n.children, d);
    }
  }

  lemma {:induction false} AllFailOutsideThreads(ns: seq<Node>, d: Dict)
    ensures RecordAll(ns, Nobody, d).KeyError? <==> OwnAll(ns) != []
    decreases ns, 0
  {
    if ns != [] {
      FailsOutsideThreads(ns[0], d);
      match Record(ns[0], Nobody, d)
      case KeyError =>
      case Done(d') => AllFailOutsideThreads(ns[1..], d');
    }
  }

  /** A relevant action with a noted call, at the root of a trace. */
  lemma ActionAtRoot()
    ensures Record(Action(true, [Call("f", [0], [])]), Nobody, []).KeyError?
  {
    hide Record;
    var call := Call("f", [0], []);
    var trace := Action(true, [call]);
    assert call.notes[0] < 2;
    CallKept(call);
    assert Leads(call, [], false);
    assert [call][1..] == [];
    assert TreesAll([call]) == Trees(call) + TreesAll([]);
    FailsOutsideThreads(trace, []);
  }
}
