/** Marks, reports and the rows that attach one to the other.

  The three families of the system (safe, unsafe, unknown) keep three tables with the same life
  cycle. They are modelled as one table: a mark never links to a report of another family, so the
  table here is the disjoint union of the three.
 */
module Associations {
  import opened Options
  import opened Verdicts

  type MarkId = nat
  type ReportId = nat
  type Key = (MarkId, ReportId)
  type Attributes = map<string, string>

  // ---------------------------------------------------------------- marks and reports

  /** How an unsafe mark recognises a trace. A trace identifier stands for one stored conversion. */
  datatype Comparison =
    | Regexp(pattern: string)
    | Forests(perThread: bool, trace: nat, hashes: set<string>)

  datatype Mark =
    | SafeMark(attrs: Attributes, verdict: Verdict, tags: set<string>)
    | UnsafeMark(attrs: Attributes, verdict: Verdict, tags: set<string>, comparison: Comparison, threshold: real)
    | UnknownMark(attrs: Attributes, component: string, searchFor: string, pattern: string, isRegexp: bool)

  /** The conversions of one error trace; a conversion that fails is None. Regular expressions are
      opaque: `found` tells which ones the raw text contains. */
  datatype Trace = Trace(relevant: Option<set<string>>, threads: Option<set<string>>, found: Option<string -> bool>)

  /** A problem description; `searched` is the opaque regular-expression search. */
  datatype Description = Unreadable | Text(text: string, searched: (string, string) -> Option<string>)

  datatype Report =
    | SafeReport(attrs: Attributes)
    | UnsafeReport(attrs: Attributes, trace: Trace)
    | UnknownReport(attrs: Attributes, component: string, description: Description)

  predicate Contained(inner: Attributes, outer: Attributes) {
    forall k | k in inner :: k in outer && outer[k] == inner[k]
  }

  // ---------------------------------------------------------------- comparison

  /** Outcome of matching a mark against a report: no row at all, or what the row will say. */
  datatype Link = NoLink | Link(similar: bool, result: real, problem: string)

  function Jaccard(forest1: set<string>, forest2: set<string>): real {
    var similar := |forest1 * forest2|;
    var all := |forest1| + |forest2| - similar;
    UnionSize(forest1, forest2);
    if all == 0 then 1.0 else similar as real / all as real
  }

  /** The index is symmetric, total on equal traces (two empty ones included), and zero exactly on
      traces that share nothing. */
  lemma JaccardMeaning(a: set<string>, b: set<string>)
    ensures Jaccard(a, b) == Jaccard(b, a)
    ensures 0.0 <= Jaccard(a, b) <= 1.0
    ensures Jaccard(a, b) == 1.0 <==> a == b
    ensures Jaccard(a, b) == 0.0 <==> a !! b && a + b != {}
  {
    UnionSize(a, b);
    assert a * b == b * a;
    assert a !! b <==> a * b == {};
    if a + b != {} {
      Ratio(|a * b|, |a + b|);
      assert |a * b| == 0 <==> a * b == {};
    }
  }

  lemma Ratio(n: nat, d: nat)
    requires n <= d && d != 0
    ensures 0.0 <= n as real / d as real <= 1.0
    ensures n as real / d as real == 1.0 <==> n == d
    ensures n as real / d as real == 0.0 <==> n == 0
  {
    var q := n as real / d as real;
    assert q * d as real == n as real;
  }

  lemma UnionSize(a: set<string>, b: set<string>)
    ensures |a + b| == |a| + |b| - |a * b|
    ensures |a * b| <= |a + b|
    ensures |a * b| == |a + b| <==> a == b
  {
    var onlyB := b - a * b;
    assert a + b == a + onlyB && a !! onlyB;
    assert b == a * b + onlyB && a * b !! onlyB;
    var rest := (a + b) - a * b;
    assert a + b == a * b + rest && a * b !! rest;
    if |a * b| == |a + b| {
      assert rest == {};
      assert a == a * b == b;
    }
  }

  /** The similarity of a trace, None when the conversion of the trace failed. */
  function Similarity(c: Comparison, t: Trace): Option<real> {
    match c
    case Regexp(pattern) =>
      if t.found.None? then None else Some(if t.found.value(pattern) then 1.0 else 0.0)
    case Forests(perThread, _, hashes) =>
      var forests := if perThread then t.threads else t.relevant;
      if forests.None? then None else Some(Jaccard(hashes, forests.value))
  }

  predicate Passes(result: real, threshold: real) {
    result > 0.0 && result >= threshold
  }

  function UnsafeLink(m: Mark, t: Trace): Link
    requires m.UnsafeMark?
  {
    match Similarity(m.comparison, t)
    case None => Link(false, 0.0, "")
    case Some(result) => Link(Passes(result, m.threshold), result, "")
  }

  const MAX_PROBLEM_LEN := 20

  predicate Occurs(needle: string, text: string) {
    exists i | 0 <= i <= |text| :: needle <= text[i..]
  }

  /** The problem a mark sees in a description; an empty problem is no problem. */
  function MatchUnknown(text: string, searched: (string, string) -> Option<string>, m: Mark): Option<string>
    requires m.UnknownMark?
  {
    var found :=
      if m.isRegexp then searched(m.searchFor, m.pattern)
      else if Occurs(m.searchFor, text) then Some(m.pattern)
      else None;
    if found.None? || found.value == "" then None
    else if |found.value| > MAX_PROBLEM_LEN then Some("Too long!")
    else found
  }

  function UnknownLink(problem: Option<string>): Link {
    if problem.None? then NoLink else Link(true, 1.0, problem.value)
  }

  /** The link found when a mark is connected to the stored reports. */
  function MarkLink(m: Mark, r: Report): Link {
    if !Contained(m.attrs, r.attrs) then NoLink
    else match (m, r)
      case (SafeMark(_, _, _), SafeReport(_)) => Link(true, 1.0, "")
      case (UnsafeMark(_, _, _, _, _), UnsafeReport(_, trace)) => UnsafeLink(m, trace)
      case (UnknownMark(_, component, _, _, _), UnknownReport(_, component', description)) =>
        if component != component' || description.Unreadable? || description.text == "" then NoLink
        else UnknownLink(MatchUnknown(description.text, description.searched, m))
      case _ => NoLink
  }

  /** The link found when a report is connected to the stored marks. */
  function ReportLink(m: Mark, r: Report): Link {
    if !Contained(m.attrs, r.attrs) then NoLink
    else match (m, r)
      case (SafeMark(_, _, _), SafeReport(_)) => Link(true, 1.0, "")
      case (UnsafeMark(_, _, _, _, _), UnsafeReport(_, trace)) => UnsafeLink(m, trace)
      case (UnknownMark(_, component, _, _, _), UnknownReport(_, component', description)) =>
        if component != component' || description.Unreadable? then NoLink
        else UnknownLink(MatchUnknown(description.text, description.searched, m))
      case _ => NoLink
  }

  /** Connecting a report whose problem description cannot be read ends in an error. */
  predicate Legible(r: Report) {
    r.UnknownReport? ==> !r.description.Unreadable?
  }

  /** No mark, from either side, links to a report that cannot be read. */
  lemma LinksAreLegible(m: Mark, r: Report)
    ensures MarkLink(m, r).Link? || ReportLink(m, r).Link? ==> Legible(r)
  {
    hide MatchUnknown, UnsafeLink, Contained;
  }

  // ---------------------------------------------------------------- rows

  datatype Kind = Dissimilar | Unconfirmed | Automatic | Confirmed

  datatype Row = Row(kind: Kind, result: real, problem: string, associated: bool)

  type Table = map<Key, Row>

  predicate HasConfirmed(rows: Table, r: ReportId) {
    exists k | k in rows :: k.1 == r && rows[k].kind.Confirmed?
  }

  predicate HasAssociated(rows: Table, r: ReportId) {
    exists k | k in rows :: k.1 == r && rows[k].associated
  }

  /** Bulk updates of the association flag of automatic rows. */
  function SetAutomatic(rows: Table, rs: set<ReportId>, associated: bool): Table {
    map k | k in rows :: if k.1 in rs && rows[k].kind.Automatic? then rows[k].(associated := associated) else rows[k]
  }

  function LinksOf(rows: Table, m: MarkId): set<ReportId> {
    set k | k in rows && k.0 == m :: k.1
  }

  function WithoutMark(rows: Table, m: MarkId): Table {
    map k | k in rows && k.0 != m :: rows[k]
  }

  function WithoutReports(rows: Table, rs: set<ReportId>): Table {
    map k | k in rows && k.1 !in rs :: rows[k]
  }

  /** The row inserted by the mark-side connection. */
  function Attach(link: Link, confirmed: nat, prime: bool): Row
    requires link.Link?
  {
    if prime && link.similar then Row(Confirmed, link.result, link.problem, true)
    else Row(if link.similar then Automatic else Dissimilar, link.result, link.problem, link.similar && confirmed == 0)
  }

  // ---------------------------------------------------------------- caches

  datatype Cache = Cache(total: nat, confirmed: nat, automatic: nat, verdict: Verdict, labels: map<string, nat>)

  const EMPTY_CACHE := Cache(0, 0, 0, WithoutMarks, map[])

  /** What a row contributes to its report's cache: a verdict and tags, or a problem. */
  function VoiceOf(m: Mark): Verdict {
    if m.UnknownMark? then WithoutMarks else m.verdict
  }

  function LabelsOf(m: Mark, row: Row): set<string> {
    if m.UnknownMark? then {row.problem} else m.tags
  }

  /** One more occurrence of every label. */
  function AddLabels(labels: map<string, nat>, added: set<string>): map<string, nat> {
    map l | l in labels.Keys + added ::
      (if l in labels then labels[l] else 0) + (if l in added then 1 else 0)
  }

  function ActiveOn(rows: Table, r: ReportId): set<Key> {
    set k | k in rows && k.1 == r && rows[k].associated
  }

  function CountedOn(rows: Table, r: ReportId): set<Key> {
    set k | k in rows && k.1 == r && rows[k].associated && (rows[k].kind.Automatic? || rows[k].kind.Confirmed?)
  }

  function AutomaticOn(rows: Table, r: ReportId): set<Key> {
    set k | k in rows && k.1 == r && rows[k].kind.Automatic?
  }

  function ConfirmedOn(rows: Table, r: ReportId): set<Key> {
    set k | k in rows && k.1 == r && rows[k].kind.Confirmed?
  }

  ghost predicate Closed(marks: map<MarkId, Mark>, rows: Table, keys: set<Key>) {
    forall k | k in keys :: k in rows && k.0 in marks
  }

  ghost function Voices(marks: map<MarkId, Mark>, rows: Table, keys: set<Key>): set<Verdict>
    requires Closed(marks, rows, keys)
  {
    set k | k in keys :: VoiceOf(marks[k.0])
  }

  ghost function Carriers(marks: map<MarkId, Mark>, rows: Table, keys: set<Key>, l: string): set<Key>
    requires Closed(marks, rows, keys)
  {
    set k | k in keys && l in LabelsOf(marks[k.0], rows[k])
  }

  ghost function Tally(marks: map<MarkId, Mark>, rows: Table, keys: set<Key>): map<string, nat>
    requires Closed(marks, rows, keys)
  {
    map l | l in (set k, l | k in keys && l in LabelsOf(marks[k.0], rows[k]) :: l) ::
      |Carriers(marks, rows, keys, l)|
  }

  /** The cache a set of contributing rows gives: cardinalities, a consensus and a tally, no order. */
  ghost function Digest(marks: map<MarkId, Mark>, rows: Table, keys: set<Key>, automatic: nat): Cache
    requires Closed(marks, rows, keys)
  {
    Cache(
      |keys|,
      |set k | k in keys && rows[k].kind.Confirmed?|,
      automatic,
      Consensus(Voices(marks, rows, keys)),
      Tally(marks, rows, keys))
  }

  /** One more contributing row, as every cache loop adds it. */
  function AddRow(c: Cache, m: Mark, row: Row): Cache {
    Cache(
      c.total + 1,
      c.confirmed + (if row.kind.Confirmed? then 1 else 0),
      c.automatic,
      Plus(c.verdict, VoiceOf(m)),
      AddLabels(c.labels, LabelsOf(m, row)))
  }
}
