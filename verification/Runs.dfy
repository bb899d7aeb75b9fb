/** Whole runs: every sequence of operations, from the empty database on. */
module Runs {
  import opened Associations
  import opened Machine
  import opened Invariants
  import opened Insertion
  import opened Changes

  datatype Step =
    | CreateFrom(m: MarkId, mark: Mark, prime: ReportId)
    | Upload(m: MarkId, mark: Mark)
    | EditMark(m: MarkId, mark: Mark)
    | ConfirmRow(k: Key)
    | RejectRow(k: Key)
    | DeleteMarks(ms: seq<MarkId>)
    | ReportArrives(r: ReportId, report: Report)
    | RelinkReports(rs: set<ReportId>)

  /** Identifiers are fresh or known as the operation needs. */
  ghost predicate Enabled(s: State, step: Step) {
    match step
    case CreateFrom(m, _, prime) => m !in s.marks && prime in s.reports
    case Upload(m, _) => m !in s.marks
    case EditMark(m, mark) => m in s.marks && SameFamily(s.marks[m], mark)
    case ConfirmRow(k) => k in s.rows
    case RejectRow(k) => k in s.rows
    case DeleteMarks(_) => true
    case ReportArrives(r, _) => r !in s.reports
    case RelinkReports(rs) => rs <= s.reports.Keys
  }

  ghost function Apply(s: State, step: Step): State
    requires WellFormed(s) && Enabled(s, step)
  {
    match step
    case CreateFrom(m, mark, prime) => Create(s, m, mark, prime)
    case Upload(m, mark) => Populate(s, m, mark)
    case EditMark(m, mark) => Edit(s, m, mark)
    case ConfirmRow(k) => Confirm(s, k)
    case RejectRow(k) => Unconfirm(s, k)
    case DeleteMarks(ms) => Delete(s, ms)
    case ReportArrives(r, report) => AddReport(s, r, report)
    case RelinkReports(rs) => Relink(s, rs)
  }

  ghost predicate Reaches(s: State, steps: seq<Step>, s': State)
    decreases |steps|
  {
    if steps == [] then s' == s
    else WellFormed(s) && Enabled(s, steps[0]) && Reaches(Apply(s, steps[0]), steps[1..], s')
  }

  // ---------------------------------------------------------------- what a step does to caches and flags

  /** The reports whose caches the step computes anew. */
  ghost function Refreshed(s: State, step: Step): set<ReportId>
    requires WellFormed(s) && Enabled(s, step)
  {
    match step
    case CreateFrom(_, mark, _) => Linked(s, mark)
    case Upload(_, _) => {}
    case EditMark(m, mark) =>
      if Rebuilds(s, m, mark) then LinksOf(s.rows, m) + Linked(s, mark)
      else if Rethresholds(s, m, mark) then LinksOf(s.rows, m)
      else {}
    case ConfirmRow(k) => if CanConfirm(s.rows[k]) then {k.1} else {}
    case RejectRow(k) => if CanUnconfirm(s.rows[k]) then {k.1} else {}
    case DeleteMarks(ms) => Touched(s, ms)
    case ReportArrives(r, _) => {r}
    case RelinkReports(rs) => Reconnected(s, rs)
  }

  /** The report whose cache the step leaves behind: at most one, and only by a creation from a report the
      mark does not link to. */
  ghost function LeftBehind(s: State, step: Step): set<ReportId> {
    if step.CreateFrom? then Forgotten(s, step.mark, step.prime) else {}
  }

  ghost function StaleNext(s: State, step: Step, stale: set<ReportId>): set<ReportId>
    requires WellFormed(s) && Enabled(s, step)
  {
    stale - Refreshed(s, step) + LeftBehind(s, step)
  }

  /** The stale caches at the end of a run. */
  ghost function StaleAfter(s: State, steps: seq<Step>, stale: set<ReportId>): set<ReportId>
    decreases |steps|
  {
    if steps == [] || !WellFormed(s) || !Enabled(s, steps[0]) then stale
    else StaleAfter(Apply(s, steps[0]), steps[1..], StaleNext(s, steps[0], stale))
  }

  /** The step leaves automatic rows switched off under no confirmation: a rebuilding edit that removes the
      only confirmation of a report, or a creation from a report that the mark does not recognise. */
  ghost predicate Orphans(s: State, step: Step) {
    || (step.EditMark? && Rebuilds(s, step.m, step.mark) && OrphaningEdit(s, step.m, step.mark))
    || (step.CreateFrom? && !Recognised(s, step.mark, step.prime) && !HasConfirmed(s.rows, step.prime) &&
        AutomaticOn(s.rows, step.prime) != {})
  }

  ghost predicate OrphaningEdit(s: State, m: MarkId, mark: Mark) {
    exists r | r in s.reports :: SoleConfirmation(s.rows, m, r) && (AutomaticOn(s.rows, r) != {} || Recognised(s, mark, r))
  }

  /** No step of the run orphans a report. */
  ghost predicate Gentle(s: State, steps: seq<Step>)
    decreases |steps|
  {
    steps == [] ||
    (WellFormed(s) && Enabled(s, steps[0]) && !Orphans(s, steps[0]) && Gentle(Apply(s, steps[0]), steps[1..]))
  }

  /** No step of the run leaves a cache behind. */
  ghost predicate Attentive(s: State, steps: seq<Step>)
    decreases |steps|
  {
    steps == [] ||
    (WellFormed(s) && Enabled(s, steps[0]) && LeftBehind(s, steps[0]) == {} && Attentive(Apply(s, steps[0]), steps[1..]))
  }

  // ---------------------------------------------------------------- every step

  lemma StepSound(s: State, step: Step, stale: set<ReportId>)
    requires SoundBut(s, stale) && Enabled(s, step)
    ensures SoundBut(Apply(s, step), StaleNext(s, step, stale))
    ensures Exact(s.rows) ==> (Exact(Apply(s, step).rows) <==> !Orphans(s, step))
  {
    hide Judged, Create, Populate, Edit, Confirm, Unconfirm, Delete, AddReport, Relink, Exact, OneSided, Closed,
      HasConfirmed, SameFamily, Reconnects, AutomaticOn, Linked, Forgotten, LinksOf, Touched, Reconnected, Recognised, OrphaningEdit;
    match step {
      case CreateFrom(m, mark, prime) =>
        CreateSound(s, m, mark, prime, stale);
        SoundSteady(s, stale);
        if Exact(s.rows) {
          CreateExact(s, m, mark, prime);
        }
      case Upload(m, mark) => PopulateSound(s, m, mark, stale); SameStale(s, step, stale);
      case EditMark(m, mark) => EditSound(s, m, mark, stale);
      case ConfirmRow(k) => ConfirmSound(s, k, stale); SameStale(s, step, stale);
      case RejectRow(k) => UnconfirmSound(s, k, stale); SameStale(s, step, stale);
      case DeleteMarks(ms) => DeleteSound(s, ms, stale); SameStale(s, step, stale);
      case ReportArrives(r, report) => AddReportSound(s, r, report, stale); SameStale(s, step, stale);
      case RelinkReports(rs) => RelinkSound(s, rs, stale); SameStale(s, step, stale);
    }
  }

  lemma SameStale(s: State, step: Step, stale: set<ReportId>)
    requires WellFormed(s) && Enabled(s, step) && !step.CreateFrom?
    ensures StaleNext(s, step, stale) == stale - Refreshed(s, step)
    ensures Refreshed(s, step) == {} ==> StaleNext(s, step, stale) == stale
  {
    hide Refreshed;
  }

  lemma EditSound(s: State, m: MarkId, mark: Mark, stale: set<ReportId>)
    requires SoundBut(s, stale) && m in s.marks && SameFamily(s.marks[m], mark)
    ensures SoundBut(Edit(s, m, mark), StaleNext(s, EditMark(m, mark), stale))
    ensures Exact(s.rows) ==> (Exact(Edit(s, m, mark).rows) <==> !Orphans(s, EditMark(m, mark)))
  {
    hide Judged, Edit, Exact, OneSided, HasConfirmed, SameFamily, Reconnects, LinksOf, Linked, Recognised, SoleConfirmation, AutomaticOn;
    SameStale(s, EditMark(m, mark), stale);
    if Rebuilds(s, m, mark) {
      RebuildSound(s, m, mark, stale);
      SoundSteady(s, stale);
      if Exact(s.rows) {
        RebuildExact(s, m, mark);
      }
    } else if Rethresholds(s, m, mark) {
      ThresholdSound(s, m, mark, stale);
    } else {
      RelabelSound(s, m, mark, stale);
    }
  }

  // ---------------------------------------------------------------- safety of every run

  /** In every reachable state of every run the one-sided invariant holds and exactly the predicted caches
      are stale; the others equal a recalculation. */
  lemma {:induction false} EveryRunIsSound(s: State, steps: seq<Step>, s': State, stale: set<ReportId>)
    requires SoundBut(s, stale) && Reaches(s, steps, s')
    ensures SoundBut(s', StaleAfter(s, steps, stale))
    decreases |steps|
  {
    hide SoundBut, Enabled, WellFormed, Apply, StaleNext;
    if steps != [] {
      StepSound(s, steps[0], stale);
      EveryRunIsSound(Apply(s, steps[0]), steps[1..], s', StaleNext(s, steps[0], stale));
    }
  }

  /** From a sound state on, whatever happens: nothing is counted that should not be, every cache has the
      right numbers of confirmed and of automatic rows, and a cache differs from a recalculation if and
      only if it was left behind and not refreshed since. */
  lemma EveryRunIsSteady(s: State, steps: seq<Step>, s': State)
    requires Sound(s) && Reaches(s, steps, s')
    ensures Steady(s')
    ensures forall r | r in s'.caches ::
      s'.caches[r] == RecalculatedCache(s'.marks, s'.rows, r) <==> r !in StaleAfter(s, steps, {})
  {
    hide Judged, OneSided, Reaches, StaleAfter, RecalculatedCache, Coherent;
    SoundIsNoneStale(s);
    EveryRunIsSound(s, steps, s', {});
    SoundSteady(s', StaleAfter(s, steps, {}));
    StaleExactly(s', StaleAfter(s, steps, {}));
  }

  ghost predicate SoundThroughout(s: State, steps: seq<Step>)
    decreases |steps|
  {
    Sound(s) &&
    (steps == [] || (WellFormed(s) && Enabled(s, steps[0]) && SoundThroughout(Apply(s, steps[0]), steps[1..])))
  }

  lemma StepCoherent(s: State, step: Step)
    requires Sound(s) && Enabled(s, step)
    ensures Sound(Apply(s, step)) <==> LeftBehind(s, step) == {}
  {
    hide Judged, OneSided, Apply, RecalculatedCache, Refreshed, Coherent, Forgotten;
    SoundIsNoneStale(s);
    StepSound(s, step, {});
    var stale := StaleNext(s, step, {});
    assert stale == LeftBehind(s, step);
    StaleExactly(Apply(s, step), stale);
    LeftBehindIsStored(s, step);
  }

  lemma LeftBehindIsStored(s: State, step: Step)
    requires WellFormed(s) && Enabled(s, step)
    ensures forall r | r in LeftBehind(s, step) :: r in Apply(s, step).caches
  {
    hide MarkLink, AutomaticOn, ActiveOn, ConnectRows, Targets, UpdatedCache;
  }

  /** All caches are coherent in all states of a run if and only if no creation leaves one behind. */
  lemma {:induction false} CoherentRuns(s: State, steps: seq<Step>, s': State)
    requires Sound(s) && Reaches(s, steps, s')
    ensures SoundThroughout(s, steps) <==> Attentive(s, steps)
    ensures Attentive(s, steps) ==> Sound(s')
    decreases |steps|
  {
    hide Sound, Enabled, WellFormed, Apply, LeftBehind;
    if steps != [] {
      StepCoherent(s, steps[0]);
      if LeftBehind(s, steps[0]) == {} {
        CoherentRuns(Apply(s, steps[0]), steps[1..], s');
      }
    }
  }

  /** The exact invariant holds in every state the run passes through. */
  ghost predicate ExactThroughout(s: State, steps: seq<Step>)
    decreases |steps|
  {
    Exact(s.rows) &&
    (steps == [] || (WellFormed(s) && Enabled(s, steps[0]) && ExactThroughout(Apply(s, steps[0]), steps[1..])))
  }

  /** A run keeps the exact invariant throughout if and only if none of its steps orphans a report. */
  lemma {:induction false} ExactRuns(s: State, steps: seq<Step>, s': State, stale: set<ReportId>)
    requires SoundBut(s, stale) && Exact(s.rows) && Reaches(s, steps, s')
    ensures ExactThroughout(s, steps) <==> Gentle(s, steps)
    ensures Gentle(s, steps) ==> Exact(s'.rows)
    decreases |steps|
  {
    hide SoundBut, Enabled, WellFormed, Apply, Exact, Orphans, StaleNext;
    if steps != [] {
      StepSound(s, steps[0], stale);
      if !Orphans(s, steps[0]) {
        ExactRuns(Apply(s, steps[0]), steps[1..], s', StaleNext(s, steps[0], stale));
      }
    }
  }

  lemma EmptyIsSound()
    ensures Sound(EMPTY) && Exact(EMPTY.rows)
  {}
}
