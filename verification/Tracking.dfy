/** Rows track the comparison: what a row says is what comparing the mark with the report says now.
    From this follow the agreement of the fast and the slow way to apply a threshold and the
    independence from the order in which marks and reports arrive. */
module Tracking {
  import opened Options
  import opened Associations
  import opened Machine
  import opened Invariants
  import opened Insertion
  import opened Changes
  import opened Runs

  // ---------------------------------------------------------------- the two comparers

  predicate Blank(r: Report) {
    r.UnknownReport? && r.description.Text? && r.description.text == ""
  }

  /** The mark side and the report side agree except on one family of inputs: an empty problem
      description, which the mark side skips and the report side matches. */
  lemma SidesAgree(m: Mark, r: Report)
    ensures MarkLink(m, r) == ReportLink(m, r) <==>
      !(m.UnknownMark? && Blank(r) && m.component == r.component && Contained(m.attrs, r.attrs) &&
        MatchUnknown("", r.description.searched, m).Some?)
  {
    if m.UnknownMark? && Blank(r) && m.component == r.component && Contained(m.attrs, r.attrs) {
      assert MarkLink(m, r).NoLink?;
    }
  }

  /** An input on which they differ: a mark that looks for the empty text. */
  lemma SidesDiffer()
    ensures exists m, r :: MarkLink(m, r).NoLink? && ReportLink(m, r) == Link(true, 1.0, "Timeout")
  {
    var m := UnknownMark(map[], "VTG", "", "Timeout", false);
    var r := UnknownReport(map[], "VTG", Text("", (needle, pattern) => None));
    assert "" <= r.description.text[0..];
    assert MarkLink(m, r).NoLink? && ReportLink(m, r) == Link(true, 1.0, "Timeout");
  }

  /** Where the mark side links, both sides agree; elsewhere only a blank description can make them differ. */
  lemma SidesMeet(m: Mark, r: Report)
    ensures MarkLink(m, r).Link? ==> ReportLink(m, r) == MarkLink(m, r)
    ensures !Blank(r) || !m.UnknownMark? ==> ReportLink(m, r) == MarkLink(m, r)
  {
    hide MatchUnknown, UnsafeLink, Contained;
  }

  // ---------------------------------------------------------------- tracking

  /** The row says what a comparison made now says, and it is there if connecting the mark would make it. */
  ghost predicate Tracked(mark: Mark, report: Report, rows: Table, k: Key) {
    var link := ReportLink(mark, report);
    && (MarkLink(mark, report).Link? ==> k in rows)
    && (k in rows ==>
          && link.Link? && rows[k].result == link.result && rows[k].problem == link.problem
          && (rows[k].kind.Dissimilar? <==> !link.similar))
  }

  ghost predicate Tracks(s: State) {
    forall m, r | m in s.marks && r in s.reports :: Tracked(s.marks[m], s.reports[r], s.rows, (m, r))
  }

  /** Unless the description is blank, a row exists exactly when mark and report link. */
  lemma TrackedMeaning(mark: Mark, report: Report, rows: Table, k: Key)
    requires Tracked(mark, report, rows, k) && !Blank(report)
    ensures k in rows <==> MarkLink(mark, report).Link?
    ensures k in rows ==> rows[k].result == MarkLink(mark, report).result && (rows[k].kind.Dissimilar? <==> !MarkLink(mark, report).similar)
  {
    hide MarkLink, ReportLink;
    SidesMeet(mark, report);
  }

  /** Only these fields of a mark decide what it links to. */
  lemma LinkInputs(before: Mark, mark: Mark, r: Report)
    requires SameFamily(before, mark) && !Reconnects(before, mark)
    ensures MarkLink(before, r).Link? <==> MarkLink(mark, r).Link?
    ensures MarkLink(mark, r).Link? ==>
      MarkLink(mark, r).result == MarkLink(before, r).result && MarkLink(mark, r).problem == MarkLink(before, r).problem
    ensures mark.UnsafeMark? && MarkLink(mark, r).Link? ==>
      (MarkLink(mark, r).similar <==> Passes(MarkLink(mark, r).result, mark.threshold))
    ensures MarkLink(mark, r).Link? && (mark.UnsafeMark? ==> before.threshold == mark.threshold) ==>
      MarkLink(mark, r) == MarkLink(before, r)
  {
  }

  lemma StepTracks(s: State, step: Step)
    requires Steady(s) && Tracks(s) && Enabled(s, step)
    ensures Tracks(Apply(s, step))
  {
    hide MarkLink, ReportLink, RecalculatedCache, Coherent, OneSided, HasConfirmed, SameFamily, Reconnects;
    match step {
      case CreateFrom(m, mark, prime) => CreateTracks(s, m, mark, prime);
      case Upload(m, mark) => PopulateTracks(s, m, mark);
      case EditMark(m, mark) => EditTracks(s, m, mark);
      case ConfirmRow(k) => ConfirmTracks(s, k);
      case RejectRow(k) => UnconfirmTracks(s, k);
      case DeleteMarks(ms) => DeleteTracks(s, ms);
      case ReportArrives(r, report) => AddReportTracks(s, r, report);
      case RelinkReports(rs) => RelinkTracks(s, rs);
    }
  }

  lemma CreateTracks(s: State, m: MarkId, mark: Mark, prime: ReportId)
    requires Steady(s) && Tracks(s) && m !in s.marks
    ensures Tracks(Create(s, m, mark, prime))
  {
    hide MarkLink, ReportLink, RecalculatedCache, OneSided, HasConfirmed, ConfirmedOn, AutomaticOn, Legible, Create;
    var s' := Create(s, m, mark, prime);
    CreatedRow(s, m, mark, prime, (m, 0));
    forall i, r | i in s'.marks && r in s'.reports ensures Tracked(s'.marks[i], s'.reports[r], s'.rows, (i, r)) {
      CreatedRow(s, m, mark, prime, (i, r));
      SidesMeet(s'.marks[i], s.reports[r]);
      if i != m {
        assert Tracked(s.marks[i], s.reports[r], s.rows, (i, r));
      }
    }
  }

  lemma PopulateTracks(s: State, m: MarkId, mark: Mark)
    requires Steady(s) && Tracks(s) && m !in s.marks
    ensures Tracks(Populate(s, m, mark))
  {
    hide MarkLink, ReportLink, RecalculatedCache, OneSided, HasConfirmed, ConfirmedOn, AutomaticOn, Legible, Populate;
    var s' := Populate(s, m, mark);
    PopulatedRow(s, m, mark, (m, 0));
    forall i, r | i in s'.marks && r in s'.reports ensures Tracked(s'.marks[i], s'.reports[r], s'.rows, (i, r)) {
      PopulatedRow(s, m, mark, (i, r));
      SidesMeet(s'.marks[i], s.reports[r]);
      if i != m {
        assert Tracked(s.marks[i], s.reports[r], s.rows, (i, r));
      }
    }
  }

  lemma EditTracks(s: State, m: MarkId, mark: Mark)
    requires Steady(s) && Tracks(s) && m in s.marks && SameFamily(s.marks[m], mark)
    ensures Tracks(Edit(s, m, mark))
  {
    hide MarkLink, ReportLink, RecalculatedCache, OneSided, HasConfirmed, ConfirmedOn, AutomaticOn, Legible, Edit, SameFamily, Reconnects, LinksOf;
    if Rebuilds(s, m, mark) {
      RebuildTracks(s, m, mark);
    } else if Rethresholds(s, m, mark) {
      ThresholdTracks(s, m, mark);
    } else {
      RelabelTracks(s, m, mark);
    }
  }

  lemma RebuildTracks(s: State, m: MarkId, mark: Mark)
    requires Steady(s) && Tracks(s) && Rebuilds(s, m, mark)
    ensures Tracks(Edit(s, m, mark))
  {
    hide MarkLink, ReportLink, RecalculatedCache, OneSided, HasConfirmed, ConfirmedOn, AutomaticOn, Legible, Edit, SameFamily, Reconnects;
    var s' := Edit(s, m, mark);
    RebuiltRow(s, m, mark, (m, 0));
    forall i, r | i in s'.marks && r in s'.reports ensures Tracked(s'.marks[i], s'.reports[r], s'.rows, (i, r)) {
      RebuiltRow(s, m, mark, (i, r));
      SidesMeet(s'.marks[i], s.reports[r]);
      if i != m {
        assert Tracked(s.marks[i], s.reports[r], s.rows, (i, r));
      }
    }
  }

  lemma ThresholdRow(rows: Table, m: MarkId, threshold: real, k: Key)
    ensures var rows' := UpdateAssociated(rows, m, threshold);
      && (k in rows' <==> k in rows)
      && (k in rows ==>
            && rows'[k].result == rows[k].result && rows'[k].problem == rows[k].problem
            && (k.0 == m && !Passes(rows[k].result, threshold) ==> rows'[k].kind.Dissimilar?)
            && (k.0 == m && Passes(rows[k].result, threshold) && rows[k].kind.Dissimilar? ==> rows'[k].kind.Automatic?)
            && (k.0 == m && Passes(rows[k].result, threshold) && !rows[k].kind.Dissimilar? ==> rows'[k].kind == rows[k].kind)
            && (k.0 != m ==> rows'[k].kind == rows[k].kind))
  {
    hide HasConfirmed, Passes, LinksOf;
    var changed := Rethresholded(rows, m, threshold);
    assert k in rows ==> changed[k].kind == UpdateAssociated(rows, m, threshold)[k].kind;
  }

  lemma ThresholdTracks(s: State, m: MarkId, mark: Mark)
    requires Steady(s) && Tracks(s) && Rethresholds(s, m, mark)
    ensures Tracks(Edit(s, m, mark))
  {
    hide MarkLink, ReportLink, RecalculatedCache, UpdatedCache, OneSided, HasConfirmed, ConfirmedOn, AutomaticOn, Legible, Edit, SameFamily, Reconnects, LinksOf, UpdateAssociated, Untouched;
    ThresholdEdit(s, m, mark);
    SameKindOfMark(s.marks[m], mark);
    var s' := WithThreshold(s, m, mark);
    forall i, r | i in s'.marks && r in s'.reports ensures Tracked(s'.marks[i], s'.reports[r], s'.rows, (i, r)) {
      ThresholdRow(s.rows, m, mark.threshold, (i, r));
      assert Tracked(s.marks[i], s.reports[r], s.rows, (i, r));
      if i == m {
        LinkInputs(s.marks[m], mark, s.reports[r]);
        SidesMeet(s.marks[m], s.reports[r]);
        SidesMeet(mark, s.reports[r]);
      }
    }
  }

  lemma SameKindOfMark(before: Mark, mark: Mark)
    requires SameFamily(before, mark)
    ensures before.UnknownMark? <==> mark.UnknownMark?
    ensures before.UnsafeMark? <==> mark.UnsafeMark?
  {}

  lemma RelabelTracks(s: State, m: MarkId, mark: Mark)
    requires Steady(s) && Tracks(s) && Retouches(s, m, mark) && !Rethresholds(s, m, mark)
    ensures Tracks(Edit(s, m, mark))
  {
    hide MarkLink, ReportLink, RecalculatedCache, UpdatedCache, OneSided, HasConfirmed, ConfirmedOn, AutomaticOn, Legible, Edit, SameFamily, Reconnects, LinksOf;
    var s' := Edit(s, m, mark);
    if mark.UnknownMark? {
      UnknownRelabel(s, m, mark);
      return;
    }
    RelabelledState(s, m, mark);
    SameKindOfMark(s.marks[m], mark);
    forall i, r | i in s'.marks && r in s'.reports ensures Tracked(s'.marks[i], s'.reports[r], s'.rows, (i, r)) {
      assert Tracked(s.marks[i], s.reports[r], s.rows, (i, r));
      if i == m {
        LinkInputs(s.marks[m], mark, s.reports[r]);
        SidesMeet(s.marks[m], s.reports[r]);
        SidesMeet(mark, s.reports[r]);
      }
    }
  }

  lemma ConfirmTracks(s: State, k: Key)
    requires Steady(s) && Tracks(s) && k in s.rows
    ensures Tracks(Confirm(s, k))
  {
    hide MarkLink, ReportLink, RecalculatedCache, OneSided, HasConfirmed, ConfirmedOn, AutomaticOn, Legible, Confirm;
    ConfirmIdle(s, k);
    if CanConfirm(s.rows[k]) {
      var s' := Confirm(s, k);
      ConfirmedRows(s, k, k);
      forall i, r | i in s.marks && r in s.reports ensures Tracked(s'.marks[i], s'.reports[r], s'.rows, (i, r)) {
        ConfirmedRows(s, k, (i, r));
        assert Tracked(s.marks[i], s.reports[r], s.rows, (i, r));
      }
    }
  }

  lemma ConfirmIdle(s: State, k: Key)
    requires WellFormed(s) && k in s.rows
    ensures !CanConfirm(s.rows[k]) ==> Confirm(s, k) == s
  {
    hide Digest, HasConfirmed;
  }

  lemma UnconfirmTracks(s: State, k: Key)
    requires Steady(s) && Tracks(s) && k in s.rows
    ensures Tracks(Unconfirm(s, k))
  {
    hide MarkLink, ReportLink, RecalculatedCache, OneSided, HasConfirmed, ConfirmedOn, AutomaticOn, Legible, Unconfirm;
    UnconfirmIdle(s, k);
    if CanUnconfirm(s.rows[k]) {
      var s' := Unconfirm(s, k);
      UnconfirmedRows(s, k, k);
      forall i, r | i in s.marks && r in s.reports ensures Tracked(s'.marks[i], s'.reports[r], s'.rows, (i, r)) {
        UnconfirmedRows(s, k, (i, r));
        assert Tracked(s.marks[i], s.reports[r], s.rows, (i, r));
      }
    }
  }

  lemma UnconfirmIdle(s: State, k: Key)
    requires WellFormed(s) && k in s.rows
    ensures !CanUnconfirm(s.rows[k]) ==> Unconfirm(s, k) == s
  {
    hide Digest, HasConfirmed;
  }

  lemma {:induction false} DestroyAllTracks(s: State, ms: seq<MarkId>)
    requires Tracks(s)
    ensures Tracks(DestroyAll(s, ms))
    decreases |ms|
  {
    if ms != [] {
      hide MarkLink, ReportLink, HasConfirmed, DestroyRows;
      var s' := Destroy(s, ms[0]);
      forall i, r | i in s'.marks && r in s'.reports ensures Tracked(s'.marks[i], s'.reports[r], s'.rows, (i, r)) {
        DestroyedRows(s.rows, ms[0], (i, r));
        assert Tracked(s.marks[i], s.reports[r], s.rows, (i, r));
      }
      DestroyAllTracks(s', ms[1..]);
    }
  }

  lemma DeleteTracks(s: State, ms: seq<MarkId>)
    requires Steady(s) && Tracks(s)
    ensures Tracks(Delete(s, ms))
  {
    hide MarkLink, RecalculatedCache, HasConfirmed, DestroyAll, Touched, Coherent, OneSided;
    DestroyAllTracks(s, ms);
  }

  lemma RelinkTracks(s: State, rs: set<ReportId>)
    requires WellFormed(s) && rs <= s.reports.Keys
    requires forall m, r | m in s.marks && r in s.reports && r !in rs :: Tracked(s.marks[m], s.reports[r], s.rows, (m, r))
    ensures Tracks(Relink(s, rs))
  {
    var s' := Relink(s, rs);
    assert s'.marks == s.marks && s'.reports == s.reports;
    hide MarkLink, ReportLink, RecalculatedCache, HasConfirmed, Relink;
    forall i, r | i in s.marks && r in s.reports ensures Tracked(s'.marks[i], s'.reports[r], s'.rows, (i, r)) {
      RelinkedRow(s, rs, (i, r));
      SidesMeet(s.marks[i], s.reports[r]);
    }
  }

  lemma AddReportTracks(s: State, r: ReportId, report: Report)
    requires Steady(s) && Tracks(s) && r !in s.reports
    ensures Tracks(AddReport(s, r, report))
  {
    hide MarkLink, ReportLink, RecalculatedCache, HasConfirmed, Relink, Coherent, OneSided;
    var s1 := s.(reports := s.reports[r := report], caches := s.caches[r := EMPTY_CACHE]);
    forall i, j | i in s1.marks && j in s1.reports && j != r ensures Tracked(s1.marks[i], s1.reports[j], s1.rows, (i, j)) {
      assert Tracked(s.marks[i], s.reports[j], s.rows, (i, j));
    }
    RelinkTracks(s1, {r});
  }

  /** In every state of every run, every row says what a comparison made now says, and every row that
      connecting its mark would make is there. */
  lemma {:induction false} EveryRunTracks(s: State, steps: seq<Step>, s': State, stale: set<ReportId>)
    requires SoundBut(s, stale) && Tracks(s) && Reaches(s, steps, s')
    ensures Tracks(s')
    decreases |steps|
  {
    hide SoundBut, Tracks, Enabled, WellFormed, Apply, StaleNext;
    if steps != [] {
      SoundSteady(s, stale);
      StepSound(s, steps[0], stale);
      StepTracks(s, steps[0]);
      EveryRunTracks(Apply(s, steps[0]), steps[1..], s', StaleNext(s, steps[0], stale));
    }
  }

  lemma EmptyTracks()
    ensures Tracks(EMPTY)
  {}

  // ---------------------------------------------------------------- fast path and slow path

  /** No user has confirmed or rejected a row of the mark. */
  ghost predicate Undecided(rows: Table, m: MarkId) {
    forall k | k in rows && k.0 == m :: rows[k].kind.Automatic? || rows[k].kind.Dissimilar?
  }

  /** A row as a comparison alone makes it. */
  function FreshRow(similar: bool, result: real, problem: string, confirmed: bool): Row {
    Row(if similar then Automatic else Dissimilar, result, problem, similar && !confirmed)
  }

  lemma FastConfirmed(rows: Table, m: MarkId, threshold: real, r: ReportId)
    requires Undecided(rows, m)
    ensures HasConfirmed(UpdateAssociated(rows, m, threshold), r) <==> HasConfirmed(rows, r)
  {
    hide UpdateAssociated;
    var fast := UpdateAssociated(rows, m, threshold);
    forall k: Key
      ensures k in fast <==> k in rows
      ensures k in rows ==> (fast[k].kind.Confirmed? <==> rows[k].kind.Confirmed?)
    {
      ThresholdRow(rows, m, threshold, k);
    }
  }

  lemma FastRow(rows: Table, m: MarkId, threshold: real, k: Key)
    requires Exact(rows) && Undecided(rows, m) && k in rows
    ensures k in UpdateAssociated(rows, m, threshold)
    ensures k.0 != m ==> UpdateAssociated(rows, m, threshold)[k] == rows[k]
    ensures var row := FreshRow(Passes(rows[k].result, threshold), rows[k].result, rows[k].problem, HasConfirmed(rows, k.1));
      k.0 == m ==> UpdateAssociated(rows, m, threshold)[k] == row
  {
    hide UpdateAssociated, HasConfirmed;
    ThresholdRow(rows, m, threshold, k);
    FastConfirmed(rows, m, threshold, k.1);
    ThresholdFlags(rows, m, threshold);
  }

  lemma SlowRow(s: State, m: MarkId, mark: Mark, k: Key)
    requires Steady(s) && Tracks(s) && Rethresholds(s, m, mark)
    ensures var slow := ConnectRows(s.(marks := s.marks[m := mark]), m, None);
      && (k in slow <==> k in s.rows)
      && (k in slow && k.0 != m ==> slow[k] == s.rows[k])
      && (k in slow && k.0 == m ==>
            var row := s.rows[k];
            slow[k] == FreshRow(Passes(row.result, mark.threshold), row.result, row.problem, HasConfirmed(s.rows, k.1)))
  {
    hide MarkLink, ReportLink, RecalculatedCache, HasConfirmed, ConfirmedOn, AutomaticOn, Legible, OneSided, SameFamily, Reconnects;
    var s1 := s.(marks := s.marks[m := mark]);
    assert k in ConnectRows(s1, m, None) <==> (k.0 != m && k in s.rows) || (k.0 == m && k.1 in Targets(s1, m));
    if k.0 == m && k.1 in s.reports {
      assert Tracked(s.marks[m], s.reports[k.1], s.rows, (m, k.1));
      LinkInputs(s.marks[m], mark, s.reports[k.1]);
      SameKindOfMark(s.marks[m], mark);
      SidesMeet(s.marks[m], s.reports[k.1]);
      CachedConfirmed(s, k.1);
    }
  }

  /** Re-reading stored results against a new threshold gives the table that dropping and rebuilding
      the rows of the mark would give, as long as no user has confirmed or rejected one of them. */
  lemma FastPathIsSlowPath(s: State, m: MarkId, mark: Mark)
    requires Steady(s) && Exact(s.rows) && Tracks(s) && Rethresholds(s, m, mark) && Undecided(s.rows, m)
    ensures UpdateAssociated(s.rows, m, mark.threshold) == ConnectRows(s.(marks := s.marks[m := mark]), m, None)
  {
    hide MarkLink, RecalculatedCache, HasConfirmed, UpdateAssociated, ConnectRows, OneSided, ConfirmedOn, AutomaticOn, Tracks, Exact, SameFamily, Reconnects;
    var fast := UpdateAssociated(s.rows, m, mark.threshold);
    var slow := ConnectRows(s.(marks := s.marks[m := mark]), m, None);
    ThresholdFlags(s.rows, m, mark.threshold);
    forall k: Key
      ensures k in fast <==> k in slow
      ensures k in fast ==> fast[k] == slow[k]
    {
      SlowRow(s, m, mark, k);
      if k in s.rows {
        FastRow(s.rows, m, mark.threshold, k);
      }
    }
  }

  // ---------------------------------------------------------------- arrival order

  predicate IsArrival(step: Step) {
    step.Upload? || step.ReportArrives?
  }

  /** Mark and report link alike from both sides; by SidesAgree all do but those with a matched blank description. */
  predicate Compatible(mark: Mark, report: Report) {
    MarkLink(mark, report) == ReportLink(mark, report)
  }

  /** What an arrival compares: marks already stored meet a new report, a new mark meets stored reports. */
  function MeetingLink(s: State, marks: map<MarkId, Mark>, reports: map<ReportId, Report>, k: Key): Link
    requires k.0 in marks && k.1 in reports
  {
    if k.0 in s.marks then ReportLink(marks[k.0], reports[k.1]) else MarkLink(marks[k.0], reports[k.1])
  }

  ghost predicate Extends(s: State, s': State) {
    && (forall m | m in s.marks :: m in s'.marks && s'.marks[m] == s.marks[m])
    && (forall r | r in s.reports :: r in s'.reports && s'.reports[r] == s.reports[r])
  }

  /** The rows after any arrivals, as a function of the state before and of what is stored now: old pairs
      keep their rows, new pairs get what a comparison says, under the confirmations there were before. */
  ghost predicate GrownRow(s: State, s': State, k: Key) {
    var old0 := k.0 in s.marks && k.1 in s.reports;
    && (old0 ==> (k in s'.rows <==> k in s.rows) && (k in s.rows && k in s'.rows ==> s'.rows[k] == s.rows[k]))
    && (!old0 && k.0 in s'.marks && k.1 in s'.reports ==>
          var link := MeetingLink(s, s'.marks, s'.reports, k);
          && (k in s'.rows <==> link.Link?)
          && (k in s'.rows ==> s'.rows[k] == FreshRow(link.similar, link.result, link.problem, HasConfirmed(s.rows, k.1))))
  }

  ghost predicate Grown(s: State, s': State) {
    && Extends(s, s')
    && (forall r :: HasConfirmed(s'.rows, r) <==> HasConfirmed(s.rows, r))
    && (forall k: Key :: GrownRow(s, s', k))
  }

  lemma UploadStep(s: State, step: Step)
    requires Steady(s) && Enabled(s, step) && step.Upload?
    ensures Grown(s, Apply(s, step))
    ensures Apply(s, step).marks == s.marks[step.m := step.mark] && Apply(s, step).reports == s.reports
  {
    hide MarkLink, ReportLink, Populate, HasConfirmed, ConfirmedOn, AutomaticOn, OneSided, Legible;
    var m, mark := step.m, step.mark;
    var s' := Populate(s, m, mark);
    PopulatedRow(s, m, mark, (m, 0));
    forall r ensures HasConfirmed(s'.rows, r) <==> HasConfirmed(s.rows, r) {
      PopulatedConfirmed(s, m, mark, r);
    }
    forall k: Key ensures GrownRow(s, s', k) {
      PopulatedRow(s, m, mark, k);
      if k in s'.rows && k.0 == m {
        CachedConfirmed(s, k.1);
      }
    }
  }

  lemma ReportStep(s: State, step: Step)
    requires WellFormed(s) && Enabled(s, step) && step.ReportArrives?
    ensures Grown(s, Apply(s, step))
    ensures Apply(s, step).marks == s.marks && Apply(s, step).reports == s.reports[step.r := step.report]
  {
    hide MarkLink, ReportLink, Relink, HasConfirmed, Legible, Closed;
    var r, report := step.r, step.report;
    var s1 := s.(reports := s.reports[r := report], caches := s.caches[r := EMPTY_CACHE]);
    var s' := Relink(s1, {r});
    RelinkStores(s1, {r});
    NoneConfirmed(s, r);
    forall q ensures HasConfirmed(s'.rows, q) <==> HasConfirmed(s.rows, q) {
      RelinkedConfirmed(s1, {r}, q);
    }
    forall k: Key ensures GrownRow(s, s', k) {
      RelinkedRow(s1, {r}, k);
    }
  }

  lemma RelinkStores(s: State, rs: set<ReportId>)
    requires WellFormed(s) && rs <= s.reports.Keys
    ensures Relink(s, rs).marks == s.marks && Relink(s, rs).reports == s.reports
  {
    hide RecalculatedCache, ReportLink;
  }

  lemma NoneConfirmed(s: State, r: ReportId)
    requires WellFormed(s) && r !in s.reports
    ensures !HasConfirmed(s.rows, r)
  {}

  lemma ArrivalStep(s: State, step: Step)
    requires Steady(s) && Enabled(s, step) && IsArrival(step)
    ensures Grown(s, Apply(s, step))
    ensures step.Upload? ==> Apply(s, step).marks == s.marks[step.m := step.mark] && Apply(s, step).reports == s.reports
    ensures step.ReportArrives? ==> Apply(s, step).marks == s.marks && Apply(s, step).reports == s.reports[step.r := step.report]
    ensures forall stale :: StaleNext(s, step, stale) == if step.Upload? then stale else stale - {step.r}
  {
    hide Grown, Apply, Steady;
    if step.Upload? {
      UploadStep(s, step);
    } else {
      assert WellFormed(s) by { SteadyWellFormed(s); }
      ReportStep(s, step);
    }
  }

  lemma SteadyWellFormed(s: State)
    requires Steady(s)
    ensures WellFormed(s)
  {}

  /** New marks and new reports are compatible. */
  ghost predicate NewCompatible(s: State, s': State) {
    forall m, r | m in s'.marks && m !in s.marks && r in s'.reports && r !in s.reports :: Compatible(s'.marks[m], s'.reports[r])
  }

  lemma GrownChain(s: State, s1: State, s': State)
    requires WellFormed(s1) && Grown(s, s1) && Grown(s1, s') && NewCompatible(s, s')
    ensures Grown(s, s')
  {
    hide MarkLink, ReportLink, HasConfirmed, Legible;
    forall k: Key ensures GrownRow(s, s', k) {
      assert GrownRow(s, s1, k) && GrownRow(s1, s', k);
      if k.0 in s'.marks && k.1 in s'.reports && k.0 !in s.marks && k.1 !in s.reports {
        assert Compatible(s'.marks[k.0], s'.reports[k.1]);
      }
    }
  }

  lemma GrownNothing(s: State)
    ensures Grown(s, s)
  {
    hide MarkLink, ReportLink, HasConfirmed;
  }

  /** The marks and reports stored at the end of a run of arrivals are those that were there and those that
      arrived. */
  ghost predicate Stored(s: State, steps: seq<Step>, s': State) {
    && (forall m :: m in s'.marks <==> m in s.marks || exists mark :: Upload(m, mark) in steps)
    && (forall r :: r in s'.reports <==> r in s.reports || exists report :: ReportArrives(r, report) in steps)
    && (forall m, mark | Upload(m, mark) in steps :: m !in s.marks && m in s'.marks && s'.marks[m] == mark)
    && (forall r, report | ReportArrives(r, report) in steps :: r !in s.reports && r in s'.reports && s'.reports[r] == report)
  }

  /** A run of arrivals keeps every row and every decision it finds, and keeps caches coherent. */
  lemma {:induction false} ArrivalsStored(s: State, steps: seq<Step>, s': State)
    requires Sound(s) && Reaches(s, steps, s')
    requires forall step | step in steps :: IsArrival(step)
    ensures Sound(s') && Extends(s, s') && Stored(s, steps, s')
    decreases |steps|
  {
    hide Sound, WellFormed, Apply, Grown;
    if steps != [] {
      hide Stored, Extends;
      var first, rest := steps[0], steps[1..];
      var s1 := Apply(s, first);
      assert steps == [first] + rest && first in steps;
      ArrivalSound(s, first);
      GrownExtends(s, s1);
      ArrivalsStored(s1, rest, s');
      StoredFirst(s, first, s1, rest, s');
    }
  }

  lemma StoredFirst(s: State, first: Step, s1: State, rest: seq<Step>, s': State)
    requires Extends(s, s1) && Extends(s1, s') && Stored(s1, rest, s') && IsArrival(first)
    requires first.Upload? ==> first.m !in s.marks && s1.marks == s.marks[first.m := first.mark] && s1.reports == s.reports
    requires first.ReportArrives? ==> first.r !in s.reports && s1.marks == s.marks && s1.reports == s.reports[first.r := first.report]
    ensures Extends(s, s') && Stored(s, [first] + rest, s')
  {
    var steps := [first] + rest;
    assert forall step :: step in steps <==> step == first || step in rest;
    if first.Upload? {
      assert Upload(first.m, first.mark) in steps;
    } else {
      assert ReportArrives(first.r, first.report) in steps;
    }
  }

  lemma GrownExtends(s: State, s': State)
    requires Grown(s, s')
    ensures Extends(s, s')
  {}

  lemma ArrivalSound(s: State, step: Step)
    requires Sound(s) && Enabled(s, step) && IsArrival(step)
    ensures WellFormed(s) && Sound(Apply(s, step)) && Grown(s, Apply(s, step))
    ensures step.Upload? ==> Apply(s, step).marks == s.marks[step.m := step.mark] && Apply(s, step).reports == s.reports
    ensures step.ReportArrives? ==> Apply(s, step).marks == s.marks && Apply(s, step).reports == s.reports[step.r := step.report]
  {
    hide Grown, Apply, Steady, SoundBut, RecalculatedCache, OneSided;
    SoundIsNoneStale(s);
    SoundSteady(s, {});
    ArrivalStep(s, step);
    StepCoherent(s, step);
  }

  /** With compatible arrivals the final rows are a function of the state before and of what is stored. */
  lemma {:induction false} ArrivalsGrow(s: State, steps: seq<Step>, s': State)
    requires Sound(s) && Reaches(s, steps, s') && NewCompatible(s, s')
    requires forall step | step in steps :: IsArrival(step)
    ensures Grown(s, s')
    decreases |steps|
  {
    hide Sound, Apply, Grown, LeftBehind, Stored, IsArrival;
    if steps == [] {
      GrownNothing(s);
    } else {
      var first, rest := steps[0], steps[1..];
      var s1 := Apply(s, first);
      assert steps == [first] + rest && first in steps;
      ArrivalSound(s, first);
      GrownExtends(s, s1);
      ArrivalsStored(s1, rest, s');
      ArrivalsGrow(s1, rest, s');
      assert WellFormed(s1) by { SoundWellFormed(s1); }
      GrownChain(s, s1, s');
    }
  }

  lemma SoundWellFormed(s: State)
    requires Sound(s)
    ensures WellFormed(s)
  {}

  /** Same marks and reports, both grown from the same state: same rows. */
  lemma GrownSame(s: State, s1: State, s2: State)
    requires WellFormed(s1) && WellFormed(s2) && Grown(s, s1) && Grown(s, s2)
    requires s1.marks == s2.marks && s1.reports == s2.reports
    ensures s1.rows == s2.rows
  {
    hide MarkLink, ReportLink, HasConfirmed, Legible, Extends;
    forall k: Key
      ensures k in s1.rows <==> k in s2.rows
      ensures k in s1.rows && k in s2.rows ==> s1.rows[k] == s2.rows[k]
    {
      assert GrownRow(s, s1, k) && GrownRow(s, s2, k);
    }
  }

  lemma StoredSame(s: State, steps: seq<Step>, s1: State, steps': seq<Step>, s2: State)
    requires Stored(s, steps, s1) && Stored(s, steps', s2) && Extends(s, s1) && Extends(s, s2)
    requires forall step :: step in steps <==> step in steps'
    ensures s1.marks == s2.marks && s1.reports == s2.reports
  {
    forall m ensures m in s1.marks <==> m in s2.marks {}
    forall m | m in s1.marks ensures s2.marks[m] == s1.marks[m] {
      if m !in s.marks {
        var mark :| Upload(m, mark) in steps;
      }
    }
    forall r ensures r in s1.reports <==> r in s2.reports {}
    forall r | r in s1.reports ensures s2.reports[r] == s1.reports[r] {
      if r !in s.reports {
        var report :| ReportArrives(r, report) in steps;
      }
    }
  }

  /** From any sound state, with whatever decisions users have made: any two interleavings of the same arrivals
      of marks and reports end in the same state, rows and caches, if the arriving pairs are compatible. */
  lemma ArrivalOrderIrrelevant(s: State, steps: seq<Step>, s1: State, steps': seq<Step>, s2: State)
    requires Sound(s) && Reaches(s, steps, s1) && Reaches(s, steps', s2)
    requires forall step | step in steps :: IsArrival(step)
    requires forall step :: step in steps <==> step in steps'
    requires forall m, mark, r, report | Upload(m, mark) in steps && ReportArrives(r, report) in steps :: Compatible(mark, report)
    ensures s1 == s2
  {
    hide Reaches, IsArrival, OneSided, RecalculatedCache, Grown, Compatible, Closed;
    ArrivalsStored(s, steps, s1);
    ArrivalsStored(s, steps', s2);
    StoredSame(s, steps, s1, steps', s2);
    forall m, r | m in s1.marks && m !in s.marks && r in s1.reports && r !in s.reports
      ensures Compatible(s1.marks[m], s1.reports[r])
    {
      var mark :| Upload(m, mark) in steps;
      var report :| ReportArrives(r, report) in steps;
    }
    ArrivalsGrow(s, steps, s1);
    ArrivalsGrow(s, steps', s2);
    GrownSame(s, s1, s2);
    assert s1.caches == s2.caches;
  }

  /** A mark and a report that arrive in either order end in the same state if and only if they are compatible. */
  lemma TwoOrders(s: State, m: MarkId, mark: Mark, r: ReportId, report: Report)
    requires Sound(s) && m !in s.marks && r !in s.reports
    ensures WellFormed(Populate(s, m, mark)) && WellFormed(AddReport(s, r, report))
    ensures r !in Populate(s, m, mark).reports && m !in AddReport(s, r, report).marks
    ensures AddReport(Populate(s, m, mark), r, report) == Populate(AddReport(s, r, report), m, mark) <==> Compatible(mark, report)
  {
    hide MarkLink, ReportLink, Populate, AddReport, OneSided, RecalculatedCache, HasConfirmed, Closed, Grown;
    var a, b := Upload(m, mark), ReportArrives(r, report);
    ArrivalSound(s, a);
    ArrivalSound(s, b);
    var sa, sb := Apply(s, a), Apply(s, b);
    ArrivalSound(sa, b);
    ArrivalSound(sb, a);
    var sab, sba := Apply(sa, b), Apply(sb, a);
    TwoSteps(s, a, b);
    TwoSteps(s, b, a);
    if Compatible(mark, report) {
      ArrivalOrderIrrelevant(s, [a, b], sab, [b, a], sba);
    } else {
      GrownPair(sa, sab, m, r);
      GrownPair(sb, sba, m, r);
      SidesMeet(mark, report);
    }
  }

  lemma TwoSteps(s: State, a: Step, b: Step)
    requires WellFormed(s) && Enabled(s, a) && WellFormed(Apply(s, a)) && Enabled(Apply(s, a), b)
    ensures Reaches(s, [a, b], Apply(Apply(s, a), b))
  {
    hide Enabled, Apply, WellFormed;
    assert [a, b][1..] == [b] && [b][1..] == [];
    assert Reaches(Apply(s, a), [b], Apply(Apply(s, a), b));
  }

  lemma GrownPair(s: State, s': State, m: MarkId, r: ReportId)
    requires Grown(s, s') && m in s'.marks && r in s'.reports && !(m in s.marks && r in s.reports)
    ensures (m, r) in s'.rows <==> MeetingLink(s, s'.marks, s'.reports, (m, r)).Link?
  {
    hide MarkLink, ReportLink, HasConfirmed;
    assert GrownRow(s, s', (m, r));
  }

  // ---------------------------------------------------------------- tables without decisions

  /** The association table as a function of the stored marks and reports, with no history in it. */
  ghost function FreshTable(marks: map<MarkId, Mark>, reports: map<ReportId, Report>): Table {
    map m, r | m in marks && r in reports && MarkLink(marks[m], reports[r]).Link? :: (m, r) :=
      var link := MarkLink(marks[m], reports[r]);
      FreshRow(link.similar, link.result, link.problem, false)
  }

  ghost predicate NoDecisions(rows: Table) {
    forall k | k in rows :: rows[k].kind.Automatic? || rows[k].kind.Dissimilar?
  }

  /** Tracking, exact flags, no decision of a user and no blank description leave no freedom. */
  lemma TableDetermined(s: State)
    requires WellFormed(s) && Exact(s.rows) && Tracks(s) && NoDecisions(s.rows)
    requires forall m, r | m in s.marks && r in s.reports :: Compatible(s.marks[m], s.reports[r])
    ensures s.rows == FreshTable(s.marks, s.reports)
  {
    hide MarkLink, ReportLink, Legible;
    var table := FreshTable(s.marks, s.reports);
    forall k: Key
      ensures k in s.rows <==> k in table
      ensures k in s.rows ==> s.rows[k] == table[k]
    {
      if k.0 in s.marks && k.1 in s.reports {
        assert Tracked(s.marks[k.0], s.reports[k.1], s.rows, (k.0, k.1));
        assert Compatible(s.marks[k.0], s.reports[k.1]);
      }
    }
  }
}
