/** Runs from the empty database on which expected properties fail. */
module Witnesses {
  import opened Verdicts
  import opened Associations
  import opened Machine
  import opened Invariants
  import opened Insertion
  import opened Changes
  import opened Runs

  const REPORT := SafeReport(map[])

  /** A mark that links to every safe report. */
  const GENERAL := SafeMark(map[], Assessed(1), {})

  /** A mark that asks for an attribute the report does not have. */
  const SPECIAL := SafeMark(map["requirement" := "memory"], Assessed(1), {})

  lemma Links()
    ensures MarkLink(GENERAL, REPORT) == ReportLink(GENERAL, REPORT) == Link(true, 1.0, "")
    ensures MarkLink(SPECIAL, REPORT) == NoLink
    ensures SameFamily(GENERAL, SPECIAL) && Reconnects(GENERAL, SPECIAL)
  {
    assert "requirement" in SPECIAL.attrs && "requirement" !in REPORT.attrs && "requirement" !in GENERAL.attrs;
  }

  // ---------------------------------------------------------------- a report and a mark

  const ARRIVALS := [ReportArrives(0, REPORT), Upload(0, GENERAL)]

  ghost function Arrived(): State {
    EmptyIsSound();
    AddReport(EMPTY, 0, REPORT)
  }

  lemma ArrivedIs()
    ensures Sound(Arrived()) && Exact(Arrived().rows)
    ensures Arrived().marks == map[] && Arrived().reports == map[0 := REPORT] && Arrived().rows == map[]
    ensures Arrived().caches.Keys == {0} && Arrived().caches[0].confirmed == 0
  {
    hide Judged, RecalculatedCache, HasConfirmed, OneSided;
    EmptyIsSound();
    SoundIsNoneStale(EMPTY);
    AddReportSound(EMPTY, 0, REPORT, {});
    var s := Arrived();
    assert s.marks == map[] && s.reports == map[0 := REPORT] && s.caches.Keys == {0};
    assert s.rows == map[] by {
      hide AddReport;
      forall k: Key ensures k !in s.rows { assert k in s.rows ==> k.0 in s.marks; }
    }
    assert {} - {0} == {};
    SoundIsNoneStale(s);
    SoundSteady(s, {});
    CachedConfirmed(s, 0);
    assert !HasConfirmed(map[], 0) by { NoConfirmed(); }
  }

  lemma NoConfirmed()
    ensures !HasConfirmed(map[], 0)
  {}

  ghost function Marked(): State {
    ArrivedIs();
    Populate(Arrived(), 0, GENERAL)
  }

  lemma MarkedIs()
    ensures Sound(Marked()) && Exact(Marked().rows)
    ensures Marked().marks == map[0 := GENERAL] && Marked().reports == map[0 := REPORT] && Marked().caches.Keys == {0}
    ensures (0, 0) in Marked().rows && Marked().rows[(0, 0)] == Row(Automatic, 1.0, "", true)
    ensures forall k | k in Marked().rows :: k == (0, 0)
  {
    hide Judged, RecalculatedCache, HasConfirmed, OneSided, Populate, MarkLink, Arrived, Exact, Coherent;
    ArrivedIs();
    var s, s' := Arrived(), Marked();
    SoundIsNoneStale(s);
    PopulateSound(s, 0, GENERAL, {});
    SoundIsNoneStale(s');
    Links();
    PopulatedRow(s, 0, GENERAL, (0, 0));
    forall k | k in s'.rows ensures k == (0, 0) {
      PopulatedRow(s, 0, GENERAL, k);
    }
  }

  lemma ArrivalsReach()
    ensures WellFormed(Marked()) && Reaches(EMPTY, ARRIVALS, Marked())
  {
    hide Populate, AddReport, RecalculatedCache, OneSided, Exact;
    ArrivedIs();
    MarkedIs();
    EmptyIsSound();
    assert ARRIVALS[1..] == [Upload(0, GENERAL)] && ARRIVALS[1..][1..] == [];
    assert Reaches(Arrived(), [Upload(0, GENERAL)], Marked());
  }

  lemma {:induction false} ReachesMore(s: State, steps: seq<Step>, s': State, step: Step)
    requires Reaches(s, steps, s') && WellFormed(s') && Enabled(s', step)
    ensures Reaches(s, steps + [step], Apply(s', step))
    decreases |steps|
  {
    hide Apply, Enabled, WellFormed;
    if steps == [] {
      assert steps + [step] == [step] && [step][1..] == [];
    } else {
      assert (steps + [step])[0] == steps[0] && (steps + [step])[1..] == steps[1..] + [step];
      ReachesMore(Apply(s, steps[0]), steps[1..], s', step);
    }
  }

  lemma AutomaticThere()
    ensures AutomaticOn(Marked().rows, 0) == {(0, 0)} && ActiveOn(Marked().rows, 0) == {(0, 0)} && !HasConfirmed(Marked().rows, 0)
  {
    hide Marked;
    MarkedIs();
  }

  // ---------------------------------------------------------------- creation from a report that is not linked

  const FORGETTING := ARRIVALS + [CreateFrom(1, SPECIAL, 0)]

  /** Three steps after which an automatic row is off without any confirmation and a cache is wrong. */
  lemma ForgettingRun()
    ensures exists s :: Reaches(EMPTY, FORGETTING, s) && !Exact(s.rows) && !Sound(s)
  {
    hide Create, Marked, RecalculatedCache, OneSided, Exact, MarkLink, HasConfirmed, AutomaticOn, ActiveOn, Coherent, Closed, Judged;
    MarkedIs();
    ArrivalsReach();
    AutomaticThere();
    Links();
    var s := Marked();
    CreateCoherent(s, 1, SPECIAL, 0);
    assert (0, 0) in AutomaticOn(s.rows, 0) * ActiveOn(s.rows, 0);
    SoundIsNoneStale(s);
    SoundSteady(s, {});
    CreateExact(s, 1, SPECIAL, 0);
    ReachesMore(EMPTY, ARRIVALS, s, CreateFrom(1, SPECIAL, 0));
  }

  // ---------------------------------------------------------------- an edit that removes the only confirmation

  const CONFIRMING := ARRIVALS + [CreateFrom(1, GENERAL, 0)]
  const ORPHANING := CONFIRMING + [EditMark(1, SPECIAL)]

  ghost function ConfirmedState(): State {
    MarkedIs();
    Create(Marked(), 1, GENERAL, 0)
  }

  lemma ConfirmedIs()
    ensures Sound(ConfirmedState()) && Exact(ConfirmedState().rows) && Reaches(EMPTY, CONFIRMING, ConfirmedState())
    ensures ConfirmedState().marks == map[0 := GENERAL, 1 := GENERAL] && ConfirmedState().reports == map[0 := REPORT]
    ensures SoleConfirmation(ConfirmedState().rows, 1, 0) && (0, 0) in AutomaticOn(ConfirmedState().rows, 0)
  {
    hide Create, Marked, RecalculatedCache, OneSided, Exact, MarkLink, HasConfirmed, ActiveOn, Coherent, Closed, Judged;
    MarkedIs();
    ArrivalsReach();
    Links();
    var s, s' := Marked(), ConfirmedState();
    CreateCoherent(s, 1, GENERAL, 0);
    SoundIsNoneStale(s);
    SoundSteady(s, {});
    CreateExact(s, 1, GENERAL, 0);
    CreatedRow(s, 1, GENERAL, 0, (0, 0));
    CreatedRow(s, 1, GENERAL, 0, (1, 0));
    forall k | k in s'.rows && k.0 != 1 ensures k == (0, 0) {
      CreatedRow(s, 1, GENERAL, 0, k);
    }
    ReachesMore(EMPTY, ARRIVALS, s, CreateFrom(1, GENERAL, 0));
  }

  /** Four steps after which all caches are right but an automatic row is off without any confirmation. */
  lemma OrphaningRun()
    ensures exists s :: Reaches(EMPTY, ORPHANING, s) && Sound(s) && !Exact(s.rows)
  {
    hide Edit, ConfirmedState, RecalculatedCache, OneSided, Exact, MarkLink, HasConfirmed, Coherent, Closed, Judged, SameFamily, Reconnects;
    ConfirmedIs();
    Links();
    var s := ConfirmedState();
    SoundIsNoneStale(s);
    SoundSteady(s, {});
    RebuildExact(s, 1, SPECIAL);
    ReachesMore(EMPTY, CONFIRMING, s, EditMark(1, SPECIAL));
    StepCoherent(s, EditMark(1, SPECIAL));
  }
}
