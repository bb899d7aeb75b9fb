/** Error traces and the call forests the two converters extract from them. */
module Forests {

  /** A trace node. `Plain` is a statement or a declaration. Levels of notes are kept, texts are not. */
  datatype Node =
    | Plain(notes: seq<int>)
    | Declarations(children: seq<Node>)
    | Thread(id: int, notes: seq<int>, children: seq<Node>)
    | Call(name: string, notes: seq<int>, children: seq<Node>)
    | Action(relevant: bool, children: seq<Node>)

  datatype Tree = Tree(name: string, children: seq<Tree>)

  type Forest = seq<Tree>

  predicate RelevantNote(notes: seq<int>) {
    exists i | 0 <= i < |notes| :: notes[i] < 2
  }

  predicate HasNote(n: Node)
    decreases n, 1
  {
    match n
    case Action(relevant, children) => !relevant && AnyNote(children)
    case Declarations(children) => AnyNote(children)
    case _ => RelevantNote(n.notes)
  }

  predicate AnyNote(ns: seq<Node>)
    decreases ns, 0
  {
    ns != [] && (HasNote(ns[0]) || AnyNote(ns[1..]))
  }

  /** The call trees that parsing a node returns to its parent. */
  function Trees(n: Node): Forest
    decreases n, 1
  {
    match n
    case Plain(_) => []
    case Declarations(_) => []
    case Thread(_, _, _) => []
    case Call(name, notes, children) =>
      var kids := TreesAll(children);
      if kids != [] || AnyNote(children) || RelevantNote(notes) then [Tree(name, kids)] else []
    case Action(relevant, children) => if relevant then [] else TreesAll(children)
  }

  function TreesAll(ns: seq<Node>): Forest
    decreases ns, 0
  {
    if ns == [] then [] else Trees(ns[0]) + TreesAll(ns[1..])
  }

  /** The forests that relevant actions emit while a node is parsed, in order. */
  function Emitted(n: Node): seq<Forest>
    decreases n, 1
  {
    match n
    case Plain(_) => []
    case Declarations(_) => []
    case Thread(_, _, children) => EmittedAll(children)
    case Call(_, _, children) => EmittedAll(children)
    case Action(relevant, children) =>
      EmittedAll(children) + if relevant && TreesAll(children) != [] then [TreesAll(children)] else []
  }

  function EmittedAll(ns: seq<Node>): seq<Forest>
    decreases ns, 0
  {
    if ns == [] then [] else Emitted(ns[0]) + EmittedAll(ns[1..])
  }

  lemma {:induction false} AllConcat(a: seq<Node>, b: seq<Node>)
    ensures TreesAll(a + b) == TreesAll(a) + TreesAll(b)
    ensures EmittedAll(a + b) == EmittedAll(a) + EmittedAll(b)
    ensures AnyNote(a + b) <==> AnyNote(a) || AnyNote(b)
    decreases |a|
  {
    hide Trees, Emitted, HasNote;
    if a == [] {
      assert a + b == b;
    } else {
      assert (a + b)[0] == a[0] && (a + b)[1..] == a[1..] + b;
      AllConcat(a[1..], b);
    }
  }

  // ---------------------------------------------------------------- the relevant-forest converter

  class RelevantCallForests {
    var forests: seq<Forest>

    constructor (trace: Node)
      ensures forests == Emitted(trace)
    {
      forests := [];
      new;
      var _ := ParseChild(trace);
    }

    method ParseChild(node: Node) returns (trees: Forest)
      modifies this
      ensures trees == Trees(node)
      ensures forests == old(forests) + Emitted(node)
      decreases node
    {
      if node.Plain? || node.Declarations? { return []; }
      var hasBodyNote := false;
      trees := [];
      for i := 0 to |node.children|
        invariant hasBodyNote == AnyNote(node.children[..i])
        invariant trees == TreesAll(node.children[..i])
        invariant forests == old(forests) + EmittedAll(node.children[..i])
      {
        var child := node.children[i];
        assert node.children[..i + 1] == node.children[..i] + [child];
        AllConcat(node.children[..i], [child]);
        hasBodyNote := hasBodyNote || HasNote(child);
        var more := ParseChild(child);
        trees := trees + more;
      }
      assert node.children[..|node.children|] == node.children;
      if node.Thread? { return []; }
      if node.Call? {
        if trees != [] || hasBodyNote || RelevantNote(node.notes) {
          return [Tree(node.name, trees)];
        }
        return [];
      }
      if node.relevant {
        if trees != [] {
          forests := forests + [trees];
        }
        return [];
      }
    }
  }

  // ---------------------------------------------------------------- the per-thread converter

  /** The insertion-ordered dictionary from thread identifiers to forests. */
  type Dict = seq<(int, seq<Forest>)>

  datatype Outcome = KeyError | Done(dict: Dict)

  predicate Has(d: Dict, id: int) {
    d != [] && (d[0].0 == id || Has(d[1..], id))
  }

  function Get(d: Dict, id: int): seq<Forest> {
    if d == [] then [] else if d[0].0 == id then d[0].1 else Get(d[1..], id)
  }

  function SetDefault(d: Dict, id: int): Dict {
    if Has(d, id) then d else d + [(id, [])]
  }

  /** Append to the list stored under a key; a missing key is an error. */
  function Append(d: Dict, id: int, f: Forest): Outcome {
    if d == [] then KeyError
    else if d[0].0 == id then Done([(id, d[0].1 + [f])] + d[1..])
    else match Append(d[1..], id, f)
      case KeyError => KeyError
      case Done(rest) => Done([d[0]] + rest)
  }

  /** The thread whose children are being parsed. */
  datatype Owner = Nobody | Owner(id: int)

  /** What parsing a node does to the dictionary. */
  function Record(n: Node, thread: Owner, d: Dict): Outcome
    decreases n, 1
  {
    match n
    case Plain(_) => Done(d)
    case Declarations(_) => Done(d)
    case Thread(id, _, children) =>
      var body := RecordAll(children, Owner(id), SetDefault(d, id));
      if body.Done? && TreesAll(children) != [] && Get(body.dict, id) == [] then Append(body.dict, id, TreesAll(children))
      else body
    case Call(_, _, children) => RecordAll(children, thread, d)
    case Action(relevant, children) =>
      var body := RecordAll(children, thread, d);
      if body.Done? && relevant && TreesAll(children) != [] then
        if thread.Nobody? then KeyError else Append(body.dict, thread.id, TreesAll(children))
      else body
  }

  function RecordAll(ns: seq<Node>, thread: Owner, d: Dict): Outcome
    decreases ns, 0
  {
    if ns == [] then Done(d)
    else match Record(ns[0], thread, d)
      case KeyError => KeyError
      case Done(d') => RecordAll(ns[1..], thread, d')
  }

  lemma {:induction false} RecordConcat(a: seq<Node>, b: seq<Node>, thread: Owner, d: Dict)
    ensures RecordAll(a + b, thread, d) ==
      (match RecordAll(a, thread, d) case KeyError => KeyError case Done(d') => RecordAll(b, thread, d'))
    decreases |a|
  {
    hide Record;
    if a == [] {
      assert a + b == b;
    } else {
      assert (a + b)[0] == a[0] && (a + b)[1..] == a[1..] + b;
      match Record(a[0], thread, d)
      case KeyError =>
      case Done(d') => RecordConcat(a[1..], b, thread, d');
    }
  }

  class ThreadCallForests {
    var dict: Dict
    var failed: bool
    var forests: seq<seq<Forest>>

    constructor (trace: Node)
      ensures failed <==> Record(trace, Nobody, []).KeyError?
      ensures !failed ==> Record(trace, Nobody, []) == Done(dict) && forests == NonEmpty(dict)
    {
      dict, failed, forests := [], false, [];
      new;
      var ok, _ := ParseChild(trace, Nobody);
      if ok {
        forests := NonEmpty(dict);
      } else {
        failed := true;
      }
    }

    method ParseChild(node: Node, thread: Owner) returns (ok: bool, trees: Forest)
      modifies this`dict
      ensures ok ==> Record(node, thread, old(dict)) == Done(dict) && trees == Trees(node)
      ensures !ok ==> Record(node, thread, old(dict)).KeyError?
      decreases node
    {
      ok, trees := true, [];
      if node.Plain? || node.Declarations? { return; }
      var owner := thread;
      if node.Thread? {
        dict := SetDefault(dict, node.id);
        owner := Owner(node.id);
      }
      ghost var start := dict;
      var hasBodyNote := false;
      for i := 0 to |node.children|
        invariant hasBodyNote == AnyNote(node.children[..i])
        invariant trees == TreesAll(node.children[..i])
        invariant RecordAll(node.children[..i], owner, start) == Done(dict)
      {
        var child := node.children[i];
        assert node.children[..i + 1] == node.children[..i] + [child];
        AllConcat(node.children[..i], [child]);
        RecordConcat(node.children[..i], [child], owner, start);
        hasBodyNote := hasBodyNote || HasNote(child);
        var more;
        ok, more := ParseChild(child, owner);
        if !ok {
          assert node.children == node.children[..i + 1] + node.children[i + 1..];
          RecordConcat(node.children[..i + 1], node.children[i + 1..], owner, start);
          return;
        }
        trees := trees + more;
      }
      assert node.children[..|node.children|] == node.children;
      if node.Call? {
        trees := if trees != [] || hasBodyNote || RelevantNote(node.notes) then [Tree(node.name, trees)] else [];
      } else if node.Thread? || node.relevant {
        if trees != [] && (node.Action? || Get(dict, node.id) == []) {
          var outcome := if owner.Nobody? then KeyError else Append(dict, owner.id, trees);
          if outcome.KeyError? { return false, []; }
          dict := outcome.dict;
        }
        trees := [];
      }
    }
  }

  function NonEmpty(d: Dict): seq<seq<Forest>> {
    if d == [] then [] else (if d[0].1 == [] then [] else [d[0].1]) + NonEmpty(d[1..])
  }
}
