/** The mark life cycle as a state machine: what every operation does to the association rows and
    to the report caches. Each operation is one atomic step. */
module Machine {
  import opened Options
  import opened Associations

  datatype State = State(
    marks: map<MarkId, Mark>,
    reports: map<ReportId, Report>,
    rows: Table,
    caches: map<ReportId, Cache>)

  const EMPTY := State(map[], map[], map[], map[])

  /** Foreign keys are resolved, rows are on reports that can be read, and every report has a cache row. */
  ghost predicate WellFormed(s: State) {
    && Closed(s.marks, s.rows, s.rows.Keys)
    && (forall k | k in s.rows :: k.1 in s.reports && Legible(s.reports[k.1]))
    && s.caches.Keys == s.reports.Keys
  }

  // ---------------------------------------------------------------- cache algorithms

  /** Full recalculation: rows of the two counting types, then the association flag. */
  ghost function RecalculatedCache(marks: map<MarkId, Mark>, rows: Table, r: ReportId): Cache
    requires Closed(marks, rows, rows.Keys)
  {
    Digest(marks, rows, CountedOn(rows, r), |AutomaticOn(rows, r)|)
  }

  /** The affected-set update: associated rows of any type. */
  ghost function UpdatedCache(marks: map<MarkId, Mark>, rows: Table, r: ReportId): Cache
    requires Closed(marks, rows, rows.Keys)
  {
    Digest(marks, rows, ActiveOn(rows, r), |AutomaticOn(rows, r)|)
  }

  /** The incremental step for one new automatic row. */
  function PopulatedCache(c: Cache, m: Mark, row: Row): Cache {
    var counted := c.(automatic := c.automatic + 1);
    if c.confirmed == 0 then AddRow(counted, m, row) else counted
  }

  ghost function Recalculate(s: State, rs: set<ReportId>): State
    requires WellFormed(s)
  {
    s.(caches := map r | r in s.caches :: if r in rs then RecalculatedCache(s.marks, s.rows, r) else s.caches[r])
  }

  ghost function UpdateAll(s: State, rs: set<ReportId>): State
    requires WellFormed(s)
  {
    s.(caches := map r | r in s.caches :: if r in rs then UpdatedCache(s.marks, s.rows, r) else s.caches[r])
  }

  ghost function UpdateVerdicts(s: State, rs: set<ReportId>): State
    requires WellFormed(s)
  {
    s.(caches := map r | r in s.caches ::
      if r in rs then s.caches[r].(verdict := UpdatedCache(s.marks, s.rows, r).verdict) else s.caches[r])
  }

  ghost function UpdateLabels(s: State, rs: set<ReportId>): State
    requires WellFormed(s)
  {
    s.(caches := map r | r in s.caches ::
      if r in rs then s.caches[r].(labels := UpdatedCache(s.marks, s.rows, r).labels) else s.caches[r])
  }

  // ---------------------------------------------------------------- operations on rows

  /** Reports a mark links to. */
  function Targets(s: State, m: MarkId): set<ReportId>
    requires m in s.marks
  {
    set r | r in s.reports && MarkLink(s.marks[m], s.reports[r]).Link?
  }

  /** Connect*Mark: drop the mark's rows, insert one row per linked report (reading the cached number
      of confirmed marks), then switch off the automatic rows of the prime report, if there is one. */
  function ConnectRows(s: State, m: MarkId, prime: Option<ReportId>): Table
    requires m in s.marks && s.reports.Keys <= s.caches.Keys
  {
    var inserted := map k | k in WithoutMark(s.rows, m).Keys + (set r | r in Targets(s, m) :: (m, r)) ::
      if k.0 == m then Attach(MarkLink(s.marks[m], s.reports[k.1]), s.caches[k.1].confirmed, prime == Some(k.1))
      else s.rows[k];
    if prime.None? then inserted else SetAutomatic(inserted, {prime.value}, false)
  }

  lemma ConnectKeys(s: State, m: MarkId, prime: Option<ReportId>)
    requires m in s.marks && s.reports.Keys <= s.caches.Keys
    ensures ConnectRows(s, m, prime).Keys == WithoutMark(s.rows, m).Keys + (set r | r in Targets(s, m) :: (m, r))
  {
    hide MarkLink, Attach;
  }

  /** Connecting a mark, new or edited, keeps the tables well-formed. */
  lemma ConnectWellFormed(s: State, s1: State, m: MarkId, prime: Option<ReportId>)
    requires WellFormed(s) && m in s1.marks && s1 == s.(marks := s.marks[m := s1.marks[m]])
    ensures WellFormed(s1.(rows := ConnectRows(s1, m, prime)))
  {
    hide MarkLink, ConnectRows, Legible;
    ConnectKeys(s1, m, prime);
    forall r | r in Targets(s1, m) ensures Legible(s.reports[r]) {
      LinksAreLegible(s1.marks[m], s.reports[r]);
    }
  }

  /** UpdateAssociated: re-read the stored results against a new threshold. */
  function Rethresholded(rows: Table, m: MarkId, threshold: real): Table {
    map k | k in rows ::
      if k.0 != m then rows[k]
      else if !Passes(rows[k].result, threshold) && !rows[k].kind.Dissimilar? then
        rows[k].(kind := Dissimilar, associated := false)
      else if Passes(rows[k].result, threshold) && rows[k].kind.Dissimilar? then
        rows[k].(kind := Automatic)
      else rows[k]
  }

  function UpdateAssociated(rows: Table, m: MarkId, threshold: real): Table {
    var changed := Rethresholded(rows, m, threshold);
    if changed == rows then rows
    else SetAutomatic(changed, set r | r in LinksOf(rows, m) && !HasConfirmed(changed, r), true)
  }

  /** Remove*Mark: drop the mark; reports left without any association count automatic rows again. */
  function DestroyRows(rows: Table, m: MarkId): Table {
    var kept := WithoutMark(rows, m);
    SetAutomatic(kept, set r | r in LinksOf(rows, m) && !HasAssociated(kept, r), true)
  }

  // ---------------------------------------------------------------- operations

  /** Creation from a report: the mark is connected with that report as the prime one. */
  ghost function Create(s: State, m: MarkId, mark: Mark, prime: ReportId): State
    requires WellFormed(s) && m !in s.marks
  {
    var s1 := s.(marks := s.marks[m := mark]);
    ConnectWellFormed(s, s1, m, Some(prime));
    UpdateAll(s1.(rows := ConnectRows(s1, m, Some(prime))), Targets(s1, m))
  }

  /** Population or upload of a fresh mark: no prime report, incremental caches. */
  ghost function Populate(s: State, m: MarkId, mark: Mark): State
    requires WellFormed(s) && m !in s.marks
  {
    var s1 := s.(marks := s.marks[m := mark]);
    var rows := ConnectRows(s1, m, None);
    s1.(rows := rows, caches := map r | r in s.caches ::
      if (m, r) in rows && rows[(m, r)].kind.Automatic? then PopulatedCache(s.caches[r], mark, rows[(m, r)])
      else s.caches[r])
  }

  /** What an edit may not change: the family, the comparison function, the component. */
  predicate SameFamily(before: Mark, mark: Mark) {
    match (before, mark)
    case (SafeMark(_, _, _), SafeMark(_, _, _)) => true
    case (UnsafeMark(_, _, _, c, _), UnsafeMark(_, _, _, c', _)) =>
      c.Regexp? == c'.Regexp? && (c.Forests? ==> c.perThread == c'.perThread)
    case (UnknownMark(_, c, _, _, _), UnknownMark(_, c', _, _, _)) => c == c'
    case _ => false
  }

  /** The changes after which the code rebuilds the rows of the mark. */
  predicate Reconnects(before: Mark, mark: Mark)
    requires SameFamily(before, mark)
  {
    || before.attrs != mark.attrs
    || (mark.UnsafeMark? && before.comparison != mark.comparison)
    || (mark.UnknownMark? && before != mark)
  }

  ghost function Edit(s: State, m: MarkId, mark: Mark): State
    requires WellFormed(s) && m in s.marks && SameFamily(s.marks[m], mark)
  {
    var before := s.marks[m];
    var links := LinksOf(s.rows, m);
    var s1 := s.(marks := s.marks[m := mark]);
    if Reconnects(before, mark) then
      ConnectWellFormed(s, s1, m, None);
      UpdateAll(s1.(rows := ConnectRows(s1, m, None)), links + Targets(s1, m))
    else if mark.UnknownMark? then s1
    else if mark.UnsafeMark? && before.threshold != mark.threshold then
      UpdateAll(s1.(rows := UpdateAssociated(s.rows, m, mark.threshold)), links)
    else
      var s2 := if before.tags != mark.tags then UpdateLabels(s1, links) else s1;
      if before.verdict != mark.verdict then UpdateVerdicts(s2, links) else s2
  }

  predicate CanConfirm(row: Row) { row.kind.Unconfirmed? || row.kind.Automatic? }

  predicate CanUnconfirm(row: Row) { row.kind.Confirmed? || row.kind.Automatic? }

  ghost function Confirm(s: State, k: Key): State
    requires WellFormed(s) && k in s.rows
  {
    if !CanConfirm(s.rows[k]) then s
    else
      var confirmed := s.rows[k := s.rows[k].(kind := Confirmed, associated := true)];
      Recalculate(s.(rows := SetAutomatic(confirmed, {k.1}, false)), {k.1})
  }

  ghost function Unconfirm(s: State, k: Key): State
    requires WellFormed(s) && k in s.rows
  {
    if !CanUnconfirm(s.rows[k]) then s
    else
      var rejected := s.rows[k := s.rows[k].(kind := Unconfirmed, associated := false)];
      var rows :=
        if s.rows[k].kind.Confirmed? && !HasConfirmed(rejected, k.1) then SetAutomatic(rejected, {k.1}, true)
        else rejected;
      Recalculate(s.(rows := rows), {k.1})
  }

  /** Removal of one mark without any cache work. */
  function Destroy(s: State, m: MarkId): State {
    s.(marks := s.marks - {m}, rows := DestroyRows(s.rows, m))
  }

  function DestroyAll(s: State, ms: seq<MarkId>): State
    decreases |ms|
  {
    if ms == [] then s else DestroyAll(Destroy(s, ms[0]), ms[1..])
  }

  /** The reports a batch touches: each mark's rows at the moment it is removed. */
  function Touched(s: State, ms: seq<MarkId>): set<ReportId>
    decreases |ms|
  {
    if ms == [] then {} else LinksOf(s.rows, ms[0]) + Touched(Destroy(s, ms[0]), ms[1..])
  }

  /** Removal of a batch of marks; the caches are recalculated once, at the end. */
  ghost function Delete(s: State, ms: seq<MarkId>): State
    requires WellFormed(s)
  {
    DestroyAllWellFormed(s, ms);
    Recalculate(DestroyAll(s, ms), Touched(s, ms))
  }

  lemma {:induction false} DestroyAllWellFormed(s: State, ms: seq<MarkId>)
    requires WellFormed(s)
    ensures WellFormed(DestroyAll(s, ms))
    decreases |ms|
  {
    if ms != [] {
      DestroyAllWellFormed(Destroy(s, ms[0]), ms[1..]);
    }
  }

  /** The rows the report-side connection inserts. */
  function ReportRows(s: State, rs: set<ReportId>): Table
    requires rs <= s.reports.Keys
  {
    map m, r | m in s.marks && r in rs && ReportLink(s.marks[m], s.reports[r]).Link? ::
      (m, r) := Attach(ReportLink(s.marks[m], s.reports[r]), 0, false)
  }

  function RelinkedRows(s: State, rs: set<ReportId>): Table
    requires rs <= s.reports.Keys
  {
    WithoutReports(s.rows, rs) + ReportRows(s, rs)
  }

  /** The reports whose connection gets as far as the recalculation. */
  function Reconnected(s: State, rs: set<ReportId>): set<ReportId>
    requires rs <= s.reports.Keys
  {
    set r | r in rs && Legible(s.reports[r])
  }

  lemma RelinkedWellFormed(s: State, rs: set<ReportId>)
    requires WellFormed(s) && rs <= s.reports.Keys
    ensures WellFormed(s.(rows := RelinkedRows(s, rs)))
  {
    hide ReportLink, Attach, Legible;
    forall k | k in RelinkedRows(s, rs) ensures k.0 in s.marks && k.1 in s.reports && Legible(s.reports[k.1]) {
      if k in ReportRows(s, rs) {
        LinksAreLegible(s.marks[k.0], s.reports[k.1]);
      }
    }
  }

  /** Re-linking of stored reports: all their rows are dropped and inserted again; the caches of those
      that can be read are recalculated. */
  ghost function Relink(s: State, rs: set<ReportId>): State
    requires WellFormed(s) && rs <= s.reports.Keys
  {
    RelinkedWellFormed(s, rs);
    Recalculate(s.(rows := RelinkedRows(s, rs)), Reconnected(s, rs))
  }

  /** Arrival of a report: it is stored with a default cache, then connected. */
  ghost function AddReport(s: State, r: ReportId, report: Report): State
    requires WellFormed(s) && r !in s.reports
  {
    Relink(s.(reports := s.reports[r := report], caches := s.caches[r := EMPTY_CACHE]), {r})
  }
}
