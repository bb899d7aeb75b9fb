/** What the forests of both converters are, in terms of the calls and actions of the trace. */
module ForestMeaning {
  import opened Forests
  import opened ForestTheorems

  // ---------------------------------------------------------------- the calls below a node

  /** The calls reached without passing another call, a relevant action, a thread or a block of
      declarations, in the order of the trace. */
  function Nearest(n: Node): seq<Node>
    decreases n, 1
  {
    if n.Call? then [n]
    else if n.Action? && !n.relevant then NearestAll(n.children)
    else []
  }

  function NearestAll(ns: seq<Node>): seq<Node>
    decreases ns, 0
  {
    if ns == [] then [] else Nearest(ns[0]) + NearestAll(ns[1..])
  }

  /** Those of the calls from which a path leads to a relevant note. */
  ghost function Kept(cs: seq<Node>): seq<Node> {
    if cs == [] then [] else (if Noted(cs[0], false) then [cs[0]] else []) + Kept(cs[1..])
  }

  /** The calls a body shows: nearest and noted. */
  ghost function Shown(n: Node): seq<Node> {
    if n.Plain? then [] else Kept(NearestAll(n.children))
  }

  /** The tree has the name of the call, and its branches belong one to one, in order, to the calls the
      call's body shows. */
  ghost predicate Belongs(t: Tree, c: Node)
    decreases t
  {
    && c.Call? && t.name == c.name
    && |t.children| == |Shown(c)|
    && forall i | 0 <= i < |t.children| :: Belongs(t.children[i], Shown(c)[i])
  }

  ghost predicate BelongAll(f: Forest, cs: seq<Node>) {
    |f| == |cs| && forall i | 0 <= i < |f| :: Belongs(f[i], cs[i])
  }

  /** Nothing is left to choose: a call has at most one tree. */
  lemma {:induction false} BelongsUnique(t: Tree, t': Tree, c: Node)
    requires Belongs(t, c) && Belongs(t', c)
    ensures t == t'
    decreases t
  {
    forall i | 0 <= i < |t.children| ensures t.children[i] == t'.children[i] {
      BelongsUnique(t.children[i], t'.children[i], Shown(c)[i]);
    }
    assert t.children == t'.children;
  }

  lemma {:induction false} KeptConcat(a: seq<Node>, b: seq<Node>)
    ensures Kept(a + b) == Kept(a) + Kept(b)
  {
    hide Noted;
    if a == [] {
      assert a + b == b;
    } else {
      assert (a + b)[0] == a[0] && (a + b)[1..] == a[1..] + b;
      KeptConcat(a[1..], b);
    }
  }

  lemma BelongConcat(f: Forest, cs: seq<Node>, g: Forest, ds: seq<Node>)
    requires BelongAll(f, cs) && BelongAll(g, ds)
    ensures BelongAll(f + g, cs + ds)
  {
    hide Belongs;
  }

  lemma OneKept(c: Node)
    ensures Kept([c]) == if Noted(c, false) then [c] else []
  {
    assert [c][1..] == [];
  }

  /** Parsing a node returns the trees of the calls it shows. A call without a reachable note gives nothing,
      any other call exactly its tree. */
  lemma {:induction false} TreesBelong(n: Node)
    ensures BelongAll(Trees(n), Kept(Nearest(n)))
    ensures n.Call? ==> if Noted(n, false) then |Trees(n)| == 1 && Belongs(Trees(n)[0], n) else Trees(n) == []
    decreases n, 1
  {
    hide Noted;
    if n.Call? {
      TreesAllBelong(n.children);
      CallKept(n);
      OneKept(n);
    } else if n.Action? && !n.relevant {
      TreesAllBelong(n.children);
    }
  }

  lemma {:induction false} TreesAllBelong(ns: seq<Node>)
    ensures BelongAll(TreesAll(ns), Kept(NearestAll(ns)))
    decreases ns, 0
  {
    hide Noted, Belongs;
    if ns != [] {
      TreesBelong(ns[0]);
      TreesAllBelong(ns[1..]);
      KeptConcat(Nearest(ns[0]), NearestAll(ns[1..]));
      BelongConcat(Trees(ns[0]), Kept(Nearest(ns[0])), TreesAll(ns[1..]), Kept(NearestAll(ns[1..])));
    }
  }

  // ---------------------------------------------------------------- what happens along a trace

  /** A thread begins, a relevant action with shown calls ends inside a thread (or outside all), or a
      thread with shown calls ends. */
  datatype Event = Opened(id: int) | Acted(owner: Owner, node: Node) | Closed(id: int, node: Node)

  ghost function Log(n: Node, thread: Owner): seq<Event>
    decreases n, 1
  {
    match n
    case Plain(_) => []
    case Declarations(_) => []
    case Thread(id, _, children) =>
      [Opened(id)] + LogAll(children, Owner(id)) + if Shown(n) != [] then [Closed(id, n)] else []
    case Call(_, _, children) => LogAll(children, thread)
    case Action(relevant, children) =>
      LogAll(children, thread) + if relevant && Shown(n) != [] then [Acted(thread, n)] else []
  }

  ghost function LogAll(ns: seq<Node>, thread: Owner): seq<Event>
    decreases ns, 0
  {
    if ns == [] then [] else Log(ns[0], thread) + LogAll(ns[1..], thread)
  }

  /** The forests belong, one to one and in order, to the calls the nodes show. */
  ghost predicate ShownBy(fs: seq<Forest>, ns: seq<Node>) {
    |fs| == |ns| && forall i | 0 <= i < |fs| :: BelongAll(fs[i], Shown(ns[i]))
  }

  lemma ShownConcat(fs: seq<Forest>, ns: seq<Node>, gs: seq<Forest>, ms: seq<Node>)
    requires ShownBy(fs, ns) && ShownBy(gs, ms)
    ensures ShownBy(fs + gs, ns + ms)
  {
    hide BelongAll, Shown;
  }

  /** The relevant actions of a log, in order. */
  ghost function Actions(log: seq<Event>): seq<Node> {
    if log == [] then []
    else Actions(log[..|log| - 1]) + if log[|log| - 1].Acted? then [log[|log| - 1].node] else []
  }

  lemma {:induction false} ActionsConcat(a: seq<Event>, b: seq<Event>)
    ensures Actions(a + b) == Actions(a) + Actions(b)
    decreases |b|
  {
    if b == [] {
      assert a + b == a;
    } else {
      assert (a + b)[..|a + b| - 1] == a + b[..|b| - 1];
      ActionsConcat(a, b[..|b| - 1]);
    }
  }

  lemma OneAction(e: Event)
    ensures Actions([e]) == if e.Acted? then [e.node] else []
  {
    assert [e][..0] == [];
  }

  /** The relevant-forest converter yields one forest for every relevant action that shows a call, in the order
      in which they end, and that forest is the trees of the calls it shows. */
  lemma {:induction false} EmittedShown(n: Node, thread: Owner)
    ensures ShownBy(Emitted(n), Actions(Log(n, thread)))
    decreases n, 1
  {
    hide BelongAll;
    match n
    case Plain(_) =>
    case Declarations(_) =>
    case Thread(id, _, children) =>
      EmittedAllShown(children, Owner(id));
      ThreadActions(n, thread);
    case Call(_, _, children) => EmittedAllShown(children, thread);
    case Action(_, children) =>
      EmittedAllShown(children, thread);
      ActionActions(n, thread);
  }

  lemma ThreadActions(n: Node, thread: Owner)
    requires n.Thread?
    ensures Actions(Log(n, thread)) == Actions(LogAll(n.children, Owner(n.id)))
  {
    hide Actions, Shown, LogAll;
    var body, last := LogAll(n.children, Owner(n.id)), if Shown(n) != [] then [Closed(n.id, n)] else [];
    OneAction(Opened(n.id));
    OneAction(Closed(n.id, n));
    NoActions();
    ActionsConcat([Opened(n.id)] + body, last);
    ActionsConcat([Opened(n.id)], body);
  }

  lemma NoActions()
    ensures Actions([]) == []
  {}

  lemma ActionActions(n: Node, thread: Owner)
    requires n.Action? && ShownBy(EmittedAll(n.children), Actions(LogAll(n.children, thread)))
    ensures ShownBy(Emitted(n), Actions(Log(n, thread)))
  {
    hide BelongAll, Actions, LogAll, TreesAll, EmittedAll;
    ShownTrees(n);
    if n.relevant && Shown(n) != [] {
      OneAction(Acted(thread, n));
      ActionsConcat(LogAll(n.children, thread), [Acted(thread, n)]);
      OneShown(n);
      ShownConcat(EmittedAll(n.children), Actions(LogAll(n.children, thread)), [TreesAll(n.children)], [n]);
    } else {
      assert Emitted(n) == EmittedAll(n.children) && Log(n, thread) == LogAll(n.children, thread);
    }
  }

  lemma ShownTrees(n: Node)
    requires !n.Plain?
    ensures BelongAll(TreesAll(n.children), Shown(n)) && (TreesAll(n.children) == [] <==> Shown(n) == [])
  {
    hide Belongs;
    TreesAllBelong(n.children);
  }

  lemma {:induction false} EmittedAllShown(ns: seq<Node>, thread: Owner)
    ensures ShownBy(EmittedAll(ns), Actions(LogAll(ns, thread)))
    decreases ns, 0
  {
    hide BelongAll, Actions;
    if ns == [] {
      NoActions();
    } else {
      EmittedShown(ns[0], thread);
      EmittedAllShown(ns[1..], thread);
      ActionsConcat(Log(ns[0], thread), LogAll(ns[1..], thread));
      ShownConcat(Emitted(ns[0]), Actions(Log(ns[0], thread)), EmittedAll(ns[1..]), Actions(LogAll(ns[1..], thread)));
    }
  }

  // ---------------------------------------------------------------- the per-thread converter

  /** The threads, in the order in which they first begin. */
  ghost function Threads(log: seq<Event>): seq<int> {
    if log == [] then []
    else
      var before, e := Threads(log[..|log| - 1]), log[|log| - 1];
      if e.Opened? && e.id !in before then before + [e.id] else before
  }

  /** The nodes whose forests are stored for a thread: its relevant actions and, in front of them, the thread
      itself if it ended before the first of them did. */
  ghost function Stored(log: seq<Event>, id: int): seq<Node> {
    if log == [] then []
    else StoredNext(Stored(log[..|log| - 1], id), log[|log| - 1], id)
  }

  function StoredNext(before: seq<Node>, e: Event, id: int): seq<Node> {
    if e.Acted? && e.owner == Owner(id) then before + [e.node]
    else if e.Closed? && e.id == id && before == [] then [e.node]
    else before
  }

  function Keys(d: Dict): seq<int> {
    if d == [] then [] else [d[0].0] + Keys(d[1..])
  }

  /** The dictionary holds what happened so far. */
  ghost predicate Holds(d: Dict, log: seq<Event>) {
    && Keys(d) == Threads(log)
    && forall id :: ShownBy(Get(d, id), Stored(log, id))
  }

  lemma LastEvent(log: seq<Event>, e: Event)
    ensures Threads(log + [e]) == if e.Opened? && e.id !in Threads(log) then Threads(log) + [e.id] else Threads(log)
    ensures forall id :: Stored(log + [e], id) == StoredNext(Stored(log, id), e, id)
  {
    assert (log + [e])[..|log|] == log;
  }

  lemma {:induction false} HasKey(d: Dict, id: int)
    ensures Has(d, id) <==> id in Keys(d)
  {
    if d != [] {
      HasKey(d[1..], id);
    }
  }

  lemma {:induction false} KeysPushed(d: Dict, id: int)
    ensures Keys(d + [(id, [])]) == Keys(d) + [id]
  {
    if d == [] {
      assert (d + [(id, [])])[1..] == [];
    } else {
      assert (d + [(id, [])])[0] == d[0] && (d + [(id, [])])[1..] == d[1..] + [(id, [])];
      KeysPushed(d[1..], id);
    }
  }

  lemma {:induction false} KeysAppended(d: Dict, id: int, f: Forest)
    requires Has(d, id)
    ensures Append(d, id, f).Done? && Keys(Append(d, id, f).dict) == Keys(d)
  {
    if d[0].0 != id {
      KeysAppended(d[1..], id, f);
    }
  }

  lemma OpenedHolds(d: Dict, log: seq<Event>, id: int)
    requires Holds(d, log)
    ensures Holds(SetDefault(d, id), log + [Opened(id)]) && Has(SetDefault(d, id), id)
  {
    hide ShownBy, Has;
    LastEvent(log, Opened(id));
    SetDefaultFacts(d, id);
    HasKey(d, id);
    KeysPushed(d, id);
    forall k ensures ShownBy(Get(SetDefault(d, id), k), Stored(log + [Opened(id)], k)) {
      assert ShownBy(Get(d, k), Stored(log, k));
    }
  }

  lemma ActedHolds(d: Dict, log: seq<Event>, id: int, n: Node)
    requires Holds(d, log) && Has(d, id) && !n.Plain?
    ensures Append(d, id, TreesAll(n.children)).Done?
    ensures Holds(Append(d, id, TreesAll(n.children)).dict, log + [Acted(Owner(id), n)])
  {
    hide ShownBy, Has, Get, TreesAll;
    var f := TreesAll(n.children);
    LastEvent(log, Acted(Owner(id), n));
    AppendFacts(d, id, f);
    KeysAppended(d, id, f);
    var d' := Append(d, id, f).dict;
    forall k ensures ShownBy(Get(d', k), Stored(log + [Acted(Owner(id), n)], k)) {
      assert ShownBy(Get(d, k), Stored(log, k));
      if k == id {
        OneShown(n);
        ShownConcat(Get(d, k), Stored(log, k), [f], [n]);
      }
    }
  }

  lemma OneShown(n: Node)
    requires !n.Plain?
    ensures ShownBy([TreesAll(n.children)], [n])
  {
    hide BelongAll, TreesAll, Shown;
    ShownTrees(n);
  }

  lemma ClosedHolds(d: Dict, log: seq<Event>, id: int, n: Node)
    requires Holds(d, log) && Has(d, id) && !n.Plain?
    ensures Append(d, id, TreesAll(n.children)).Done?
    ensures Holds(if Get(d, id) == [] then Append(d, id, TreesAll(n.children)).dict else d, log + [Closed(id, n)])
  {
    hide Has, Get, TreesAll, BelongAll, Shown;
    var f := TreesAll(n.children);
    LastEvent(log, Closed(id, n));
    AppendFacts(d, id, f);
    KeysAppended(d, id, f);
    assert ShownBy(Get(d, id), Stored(log, id));
    OneShown(n);
    var d' := if Get(d, id) == [] then Append(d, id, f).dict else d;
    forall k ensures ShownBy(Get(d', k), Stored(log + [Closed(id, n)], k)) {
      assert ShownBy(Get(d, k), Stored(log, k));
    }
  }

  /** A relevant action ends outside all threads. */
  ghost predicate Orphaned(log: seq<Event>) {
    exists i | 0 <= i < |log| :: log[i].Acted? && log[i].owner == Nobody
  }

  lemma OrphanedConcat(a: seq<Event>, b: seq<Event>)
    ensures Orphaned(a + b) <==> Orphaned(a) || Orphaned(b)
  {
    if Orphaned(a) {
      var i :| 0 <= i < |a| && a[i].Acted? && a[i].owner == Nobody;
      assert (a + b)[i] == a[i];
    }
    if Orphaned(b) {
      var i :| 0 <= i < |b| && b[i].Acted? && b[i].owner == Nobody;
      assert (a + b)[|a| + i] == b[i];
    }
  }

  lemma {:induction false} ThreadsGrow(a: seq<Event>, b: seq<Event>, id: int)
    requires id in Threads(a)
    ensures id in Threads(a + b)
    decreases |b|
  {
    if b == [] {
      assert a + b == a;
    } else {
      assert (a + b)[..|a + b| - 1] == a + b[..|b| - 1];
      ThreadsGrow(a, b[..|b| - 1], id);
    }
  }

  lemma StillHas(d: Dict, log: seq<Event>, d': Dict, more: seq<Event>, id: int)
    requires Holds(d, log) && Holds(d', log + more) && Has(d, id)
    ensures Has(d', id)
  {
    hide ShownBy;
    HasKey(d, id);
    HasKey(d', id);
    ThreadsGrow(log, more, id);
  }

  ghost predicate Inside(d: Dict, thread: Owner) {
    thread.Owner? ==> Has(d, thread.id)
  }

  /** Parsing a node extends what the dictionary holds by what happens in the node; it fails exactly when a
      relevant action ends outside all threads. */
  lemma {:induction false} RecordHolds(n: Node, thread: Owner, d: Dict, log: seq<Event>)
    requires Holds(d, log) && Inside(d, thread)
    ensures Record(n, thread, d).KeyError? <==> Orphaned(Log(n, thread))
    ensures Record(n, thread, d).Done? ==> Holds(Record(n, thread, d).dict, log + Log(n, thread))
    decreases n, 1
  {
    hide Holds, Has, Orphaned;
    match n
    case Plain(_) => NothingHappens(log);
    case Declarations(_) => NothingHappens(log);
    case Thread(id, _, children) =>
      OpenedHolds(d, log, id);
      RecordAllHolds(children, Owner(id), SetDefault(d, id), log + [Opened(id)]);
      ThreadHolds(n, thread, d, log);
    case Call(_, _, children) => RecordAllHolds(children, thread, d, log);
    case Action(_, children) =>
      RecordAllHolds(children, thread, d, log);
      ActionHolds(n, thread, d, log);
  }

  lemma NothingHappens(log: seq<Event>)
    ensures log + [] == log && !Orphaned([])
  {}

  lemma OneOrphaned(e: Event)
    ensures Orphaned([e]) <==> e.Acted? && e.owner == Nobody
  {
    assert [e][0] == e;
  }

  lemma ThreadHolds(n: Node, thread: Owner, d: Dict, log: seq<Event>)
    requires n.Thread? && Holds(SetDefault(d, n.id), log + [Opened(n.id)]) && Has(SetDefault(d, n.id), n.id)
    requires var body, events := RecordAll(n.children, Owner(n.id), SetDefault(d, n.id)), LogAll(n.children, Owner(n.id));
      && (body.KeyError? <==> Orphaned(events))
      && (body.Done? ==> Holds(body.dict, log + [Opened(n.id)] + events))
    ensures Record(n, thread, d).KeyError? <==> Orphaned(Log(n, thread))
    ensures Record(n, thread, d).Done? ==> Holds(Record(n, thread, d).dict, log + Log(n, thread))
  {
    hide Holds, Has, Orphaned, Shown, TreesAll, LogAll, RecordAll, SetDefault, Get, Append;
    var body, events := RecordAll(n.children, Owner(n.id), SetDefault(d, n.id)), LogAll(n.children, Owner(n.id));
    var last := if Shown(n) != [] then [Closed(n.id, n)] else [];
    ShownTrees(n);
    OrphanedConcat([Opened(n.id)] + events, last);
    OrphanedConcat([Opened(n.id)], events);
    OneOrphaned(Opened(n.id));
    OneOrphaned(Closed(n.id, n));
    NothingHappens(log);
    assert log + Log(n, thread) == log + [Opened(n.id)] + events + last;
    if body.Done? {
      StillHas(SetDefault(d, n.id), log + [Opened(n.id)], body.dict, events, n.id);
      ClosedHolds(body.dict, log + [Opened(n.id)] + events, n.id, n);
      assert last == [] ==> log + [Opened(n.id)] + events + last == log + [Opened(n.id)] + events;
    }
  }

  lemma ActionHolds(n: Node, thread: Owner, d: Dict, log: seq<Event>)
    requires n.Action? && Holds(d, log) && Inside(d, thread)
    requires var body, events := RecordAll(n.children, thread, d), LogAll(n.children, thread);
      && (body.KeyError? <==> Orphaned(events))
      && (body.Done? ==> Holds(body.dict, log + events))
    ensures Record(n, thread, d).KeyError? <==> Orphaned(Log(n, thread))
    ensures Record(n, thread, d).Done? ==> Holds(Record(n, thread, d).dict, log + Log(n, thread))
  {
    hide Holds, Has, Orphaned, Shown, TreesAll, LogAll, RecordAll, Append;
    var body, events := RecordAll(n.children, thread, d), LogAll(n.children, thread);
    ShownTrees(n);
    if n.relevant && Shown(n) != [] {
      OrphanedConcat(events, [Acted(thread, n)]);
      OneOrphaned(Acted(thread, n));
      assert log + Log(n, thread) == log + events + [Acted(thread, n)];
      if body.Done? && thread.Owner? {
        StillHas(d, log, body.dict, events, thread.id);
        ActedHolds(body.dict, log + events, thread.id, n);
      }
    } else {
      assert Log(n, thread) == events;
    }
  }

  lemma {:induction false} RecordAllHolds(ns: seq<Node>, thread: Owner, d: Dict, log: seq<Event>)
    requires Holds(d, log) && Inside(d, thread)
    ensures RecordAll(ns, thread, d).KeyError? <==> Orphaned(LogAll(ns, thread))
    ensures RecordAll(ns, thread, d).Done? ==> Holds(RecordAll(ns, thread, d).dict, log + LogAll(ns, thread))
    decreases ns, 0
  {
    hide Holds, Has, Orphaned, Record, Log;
    if ns == [] {
      NothingHappens(log);
    } else {
      var first, rest := Log(ns[0], thread), LogAll(ns[1..], thread);
      RecordHolds(ns[0], thread, d, log);
      OrphanedConcat(first, rest);
      assert log + LogAll(ns, thread) == log + first + rest;
      match Record(ns[0], thread, d)
      case KeyError =>
      case Done(d') =>
        if thread.Owner? {
          StillHas(d, log, d', first, thread.id);
        }
        RecordAllHolds(ns[1..], thread, d', log + first);
    }
  }

  /** The per-thread converter on any trace: it fails if and only if a relevant action that shows a call ends outside
      all threads. Otherwise its dictionary lists the threads in the order in which they begin, and under each the trees
      of the calls shown by its relevant actions, and by the thread itself where it ends before any of them. */
  lemma ThreadsHold(trace: Node)
    ensures Record(trace, Nobody, []).KeyError? <==> Orphaned(Log(trace, Nobody))
    ensures Record(trace, Nobody, []).Done? ==> Holds(Record(trace, Nobody, []).dict, Log(trace, Nobody))
  {
    hide Record, Log, Orphaned;
    assert Holds([], []);
    RecordHolds(trace, Nobody, [], []);
    assert [] + Log(trace, Nobody) == Log(trace, Nobody);
  }

  /** The lists of forests are those of the threads that have any, in the order of the threads. */
  ghost predicate Listed(lists: seq<seq<Forest>>, ids: seq<int>, log: seq<Event>)
    decreases |ids|
  {
    if ids == [] then lists == []
    else if Stored(log, ids[0]) == [] then Listed(lists, ids[1..], log)
    else lists != [] && ShownBy(lists[0], Stored(log, ids[0])) && Listed(lists[1..], ids[1..], log)
  }

  lemma {:induction false} ThreadsOnce(log: seq<Event>)
    ensures forall i, j | 0 <= i < j < |Threads(log)| :: Threads(log)[i] != Threads(log)[j]
  {
    if log != [] {
      ThreadsOnce(log[..|log| - 1]);
    }
  }

  lemma {:induction false} NonEmptyListed(d: Dict, log: seq<Event>)
    requires forall i, j | 0 <= i < j < |Keys(d)| :: Keys(d)[i] != Keys(d)[j]
    requires forall k | k in Keys(d) :: ShownBy(Get(d, k), Stored(log, k))
    ensures Listed(NonEmpty(d), Keys(d), log)
  {
    hide ShownBy, Stored;
    if d != [] {
      var keys, rest := Keys(d), d[1..];
      assert keys[0] == d[0].0 && keys[1..] == Keys(rest);
      forall i, j | 0 <= i < j < |Keys(rest)| ensures Keys(rest)[i] != Keys(rest)[j] {
        assert keys[i + 1] != keys[j + 1];
      }
      forall k | k in Keys(rest) ensures Get(rest, k) == Get(d, k) {
        var i :| 0 <= i < |Keys(rest)| && Keys(rest)[i] == k;
        assert keys[i + 1] == k && keys[0] != keys[i + 1];
      }
      NonEmptyListed(rest, log);
      assert ShownBy(Get(d, keys[0]), Stored(log, keys[0]));
      SameEmptiness(d[0].1, Stored(log, keys[0]));
      if d[0].1 == [] {
        assert NonEmpty(d) == NonEmpty(rest);
      } else {
        assert NonEmpty(d)[0] == d[0].1 && NonEmpty(d)[1..] == NonEmpty(rest);
      }
    }
  }

  lemma SameEmptiness(fs: seq<Forest>, ns: seq<Node>)
    requires ShownBy(fs, ns)
    ensures fs == [] <==> ns == []
  {}

  /** The lists of forests the per-thread converter keeps, one for every thread that has any. */
  lemma ThreadForestsListed(trace: Node)
    requires !Orphaned(Log(trace, Nobody))
    ensures Record(trace, Nobody, []).Done?
    ensures Listed(NonEmpty(Record(trace, Nobody, []).dict), Threads(Log(trace, Nobody)), Log(trace, Nobody))
  {
    hide Record, Log, Orphaned, ShownBy, Threads, Stored;
    ThreadsHold(trace);
    ThreadsOnce(Log(trace, Nobody));
    NonEmptyListed(Record(trace, Nobody, []).dict, Log(trace, Nobody));
  }
}
