/** What a user sees happen: the rows and caches after every operation, row by row, in terms of the links
    and the rows before it. */
module Outcomes {
  import opened Options
  import opened Verdicts
  import opened Associations
  import opened Machine
  import opened Invariants
  import opened Insertion
  import opened Changes
  import opened Runs
  import opened Tracking
  import opened Links
  import opened Contents

  // ---------------------------------------------------------------- connecting

  /** A row nobody has decided on: automatic or dissimilar as the comparison says, and counted if it is
      automatic and the report has no confirmed row. */
  ghost predicate Undecided(link: Link, row: Row, decided: bool)
    requires link.Link?
  {
    row == if link.similar then Row(Automatic, link.result, link.problem, !decided)
           else Row(Dissimilar, link.result, link.problem, false)
  }

  ghost predicate Decided(rows: Table, r: ReportId) {
    exists k | k in rows && k.1 == r :: rows[k].kind == Confirmed
  }

  lemma DecidedMeaning(s: State, r: ReportId)
    requires Steady(s) && r in s.caches
    ensures Decided(s.rows, r) <==> s.caches[r].confirmed != 0
  {
    CachedConfirmed(s, r);
    assert Decided(s.rows, r) <==> HasConfirmed(s.rows, r);
  }

  /** A mark created from a report is confirmed there if it is similar, undecided on all other reports it
      links to, and on that report every other automatic row stops being counted. */
  lemma Creating(s: State, m: MarkId, mark: Mark, prime: ReportId, k: Key)
    requires Steady(s) && m !in s.marks
    ensures Create(s, m, mark, prime).marks == s.marks[m := mark] && Create(s, m, mark, prime).reports == s.reports
    ensures var rows := Create(s, m, mark, prime).rows;
      && (k.0 != m ==> (k in rows <==> k in s.rows))
      && (k in rows && k.0 != m ==>
            rows[k] == s.rows[k].(associated := s.rows[k].associated && !(k.1 == prime && s.rows[k].kind == Automatic)))
      && (k.0 == m ==> (k in rows <==> k.1 in s.reports && MarkLink(mark, s.reports[k.1]).Link?))
      && (k in rows && k.0 == m ==>
            var link := MarkLink(mark, s.reports[k.1]);
            if k.1 == prime && link.similar then rows[k] == Row(Confirmed, link.result, link.problem, true)
            else Undecided(link, rows[k], Decided(s.rows, k.1)))
  {
    hide MarkLink, Create, Decided, ConfirmedOn, AutomaticOn, OneSided, Legible;
    CreatedRow(s, m, mark, prime, k);
    if k.1 in s.reports {
      DecidedMeaning(s, k.1);
    }
  }

  /** An uploaded mark is undecided everywhere. */
  lemma Uploading(s: State, m: MarkId, mark: Mark, k: Key)
    requires Steady(s) && m !in s.marks
    ensures Populate(s, m, mark).marks == s.marks[m := mark] && Populate(s, m, mark).reports == s.reports
    ensures var rows := Populate(s, m, mark).rows;
      && (k.0 != m ==> (k in rows <==> k in s.rows))
      && (k in rows && k.0 != m ==> rows[k] == s.rows[k])
      && (k.0 == m ==> (k in rows <==> k.1 in s.reports && MarkLink(mark, s.reports[k.1]).Link?))
      && (k in rows && k.0 == m ==> Undecided(MarkLink(mark, s.reports[k.1]), rows[k], Decided(s.rows, k.1)))
  {
    hide MarkLink, Populate, Decided, ConfirmedOn, AutomaticOn, OneSided, Legible;
    PopulatedRow(s, m, mark, k);
    if k.1 in s.reports {
      DecidedMeaning(s, k.1);
    }
  }

  /** A report that arrives gets an undecided row from every mark that links to it. */
  lemma Arriving(s: State, r: ReportId, report: Report, k: Key)
    requires WellFormed(s) && r !in s.reports
    ensures AddReport(s, r, report).marks == s.marks && AddReport(s, r, report).reports == s.reports[r := report]
    ensures var rows := AddReport(s, r, report).rows;
      && (k.1 != r ==> (k in rows <==> k in s.rows))
      && (k in rows && k.1 != r ==> rows[k] == s.rows[k])
      && (k.1 == r ==> (k in rows <==> k.0 in s.marks && ReportLink(s.marks[k.0], report).Link?))
      && (k in rows && k.1 == r ==> Undecided(ReportLink(s.marks[k.0], report), rows[k], false))
  {
    hide ReportLink, Relink, Legible;
    var s1 := s.(reports := s.reports[r := report], caches := s.caches[r := EMPTY_CACHE]);
    RelinkedRow(s1, {r}, k);
    RelinkStores(s1, {r});
  }

  // ---------------------------------------------------------------- editing

  /** The changes that make the code forget the decisions about a mark. */
  ghost predicate Differs(before: Mark, mark: Mark) {
    || before.attrs != mark.attrs
    || (before.UnsafeMark? && mark.UnsafeMark? && before.comparison != mark.comparison)
    || (before.UnknownMark? && mark.UnknownMark? &&
        (before.searchFor != mark.searchFor || before.pattern != mark.pattern || before.isRegexp != mark.isRegexp))
  }

  /** After such a change the mark is undecided everywhere; other marks keep their rows. */
  lemma Rebuilding(s: State, m: MarkId, mark: Mark, k: Key)
    requires Steady(s) && m in s.marks && SameFamily(s.marks[m], mark) && Differs(s.marks[m], mark)
    ensures Edit(s, m, mark).marks == s.marks[m := mark] && Edit(s, m, mark).reports == s.reports
    ensures var rows := Edit(s, m, mark).rows;
      && (k.0 != m ==> (k in rows <==> k in s.rows))
      && (k in rows && k.0 != m ==> rows[k] == s.rows[k])
      && (k.0 == m ==> (k in rows <==> k.1 in s.reports && MarkLink(mark, s.reports[k.1]).Link?))
      && (k in rows && k.0 == m ==> Undecided(MarkLink(mark, s.reports[k.1]), rows[k], Decided(s.rows, k.1)))
  {
    assert Rebuilds(s, m, mark);
    hide MarkLink, Edit, Decided, ConfirmedOn, AutomaticOn, OneSided, Legible, Rebuilds;
    RebuiltRow(s, m, mark, k);
    if k.1 in s.reports {
      DecidedMeaning(s, k.1);
    }
  }

  /** New tags or a new verdict change no row. */
  lemma Relabelling(s: State, m: MarkId, verdict: Verdict, tags: set<string>)
    requires WellFormed(s) && m in s.marks && !s.marks[m].UnknownMark?
    ensures var mark := s.marks[m].(verdict := verdict, tags := tags);
      && SameFamily(s.marks[m], mark)
      && Edit(s, m, mark).marks == s.marks[m := mark]
      && Edit(s, m, mark).rows == s.rows && Edit(s, m, mark).reports == s.reports
  {
    hide UpdateAll, UpdatedCache, LinksOf, HasConfirmed, ConnectRows, UpdateAssociated;
    var mark := s.marks[m].(verdict := verdict, tags := tags);
    assert Retouches(s, m, mark) && !Rethresholds(s, m, mark);
    RelabelledState(s, m, mark);
  }

  ghost predicate Similar(result: real, threshold: real) {
    result > 0.0 && result >= threshold
  }

  /** A new threshold moves rows of the mark in and out of the dissimilar ones and keeps all decisions about
      rows that stay similar. */
  lemma Rethresholding(s: State, m: MarkId, mark: Mark, k: Key)
    requires Steady(s) && m in s.marks && s.marks[m].UnsafeMark? && mark.UnsafeMark? && s.marks[m].threshold != mark.threshold
    requires mark.attrs == s.marks[m].attrs && mark.comparison == s.marks[m].comparison
    ensures SameFamily(s.marks[m], mark)
    ensures Edit(s, m, mark).marks == s.marks[m := mark] && Edit(s, m, mark).reports == s.reports
    ensures var rows := Edit(s, m, mark).rows;
      && (k in rows <==> k in s.rows)
      && (k in rows ==> rows[k].result == s.rows[k].result && rows[k].problem == s.rows[k].problem)
      && (k in rows && k.0 != m ==> rows[k].kind == s.rows[k].kind)
      && (k in rows && k.0 == m ==>
            rows[k].kind ==
              if !Similar(s.rows[k].result, mark.threshold) then Dissimilar
              else if s.rows[k].kind == Dissimilar then Automatic
              else s.rows[k].kind)
  {
    assert Rethresholds(s, m, mark);
    hide Edit, UpdateAssociated, ConfirmedOn, AutomaticOn, UpdatedCache, Rethresholds, LinksOf, Untouched, SameFamily;
    ThresholdEdit(s, m, mark);
    ThresholdRow(s.rows, m, mark.threshold, k);
  }

  // ---------------------------------------------------------------- deciding

  /** Confirming: a dissimilar or confirmed row stays as it is; any other row, rejected ones included, becomes
      confirmed and counted, and the automatic rows of the report stop being counted. */
  lemma Confirming(s: State, k: Key, j: Key)
    requires WellFormed(s) && k in s.rows
    ensures s.rows[k].kind in {Dissimilar, Confirmed} ==> Confirm(s, k) == s
    ensures Confirm(s, k).marks == s.marks && Confirm(s, k).reports == s.reports
    ensures s.rows[k].kind in {Unconfirmed, Automatic} ==>
      var rows := Confirm(s, k).rows;
      && (j in rows <==> j in s.rows)
      && rows[k] == Row(Confirmed, s.rows[k].result, s.rows[k].problem, true)
      && (j in rows && j != k ==>
            rows[j] == s.rows[j].(associated := s.rows[j].associated && !(j.1 == k.1 && s.rows[j].kind == Automatic)))
  {
    hide RecalculatedCache;
  }

  /** Rejecting: a dissimilar or rejected row stays as it is; any other row becomes rejected and uncounted.
      If that was the only confirmed row, all automatic rows of the report are counted again. */
  lemma Rejecting(s: State, k: Key, j: Key)
    requires WellFormed(s) && k in s.rows
    ensures s.rows[k].kind in {Dissimilar, Unconfirmed} ==> Unconfirm(s, k) == s
    ensures Unconfirm(s, k).marks == s.marks && Unconfirm(s, k).reports == s.reports
    ensures s.rows[k].kind in {Automatic, Confirmed} ==>
      var rows := Unconfirm(s, k).rows;
      var last := s.rows[k].kind == Confirmed && forall i | i in s.rows && i.1 == k.1 && i != k :: s.rows[i].kind != Confirmed;
      && (j in rows <==> j in s.rows)
      && rows[k] == Row(Unconfirmed, s.rows[k].result, s.rows[k].problem, false)
      && (j in rows && j != k ==>
            rows[j] == s.rows[j].(associated := s.rows[j].associated || (last && j.1 == k.1 && s.rows[j].kind == Automatic)))
  {
    if s.rows[k].kind in {Automatic, Confirmed} {
      hide RecalculatedCache, Unconfirm;
      UnconfirmedRows(s, k, k);
      UnconfirmedRows(s, k, j);
    } else {
      hide RecalculatedCache;
    }
  }

  /** Both leave the caches of other reports alone. */
  lemma DecidingElsewhere(s: State, k: Key, r: ReportId)
    requires WellFormed(s) && k in s.rows && r in s.caches && r != k.1
    ensures r in Confirm(s, k).caches && Confirm(s, k).caches[r] == s.caches[r]
    ensures r in Unconfirm(s, k).caches && Unconfirm(s, k).caches[r] == s.caches[r]
  {
    hide RecalculatedCache, HasConfirmed, SetAutomatic;
  }

  /** Rejecting undoes confirming: where the exact invariant holds, nothing is left of a confirmation but the
      rejected row itself. */
  lemma RejectUndoesConfirm(s: State, k: Key)
    requires WellFormed(s) && Exact(s.rows) && k in s.rows && s.rows[k].kind in {Unconfirmed, Automatic}
    ensures WellFormed(Confirm(s, k)) && k in Confirm(s, k).rows
    ensures Unconfirm(Confirm(s, k), k).rows == s.rows[k := s.rows[k].(kind := Unconfirmed, associated := false)]
  {
    hide Digest, Confirm, Unconfirm, HasConfirmed;
    var s1 := Confirm(s, k);
    ConfirmWellFormed(s, k);
    Confirming(s, k, k);
    var s2 := Unconfirm(s1, k);
    forall i: Key ensures i in s1.rows <==> i in s.rows
      ensures i in s.rows && i != k ==> s1.rows[i].kind == s.rows[i].kind
    {
      Confirming(s, k, i);
    }
    forall j: Key
      ensures j in s2.rows <==> j in s.rows
      ensures j in s2.rows && j != k ==> s2.rows[j] == s.rows[j]
      ensures j in s2.rows && j == k ==> s2.rows[j] == s.rows[k].(kind := Unconfirmed, associated := false)
    {
      Confirming(s, k, j);
      Rejecting(s1, k, j);
      if j in s.rows && j != k && j.1 == k.1 && s.rows[j].kind == Automatic {
        RestoredFlag(s, k, j);
      }
    }
  }

  lemma ConfirmWellFormed(s: State, k: Key)
    requires WellFormed(s) && k in s.rows
    ensures WellFormed(Confirm(s, k))
  {
    hide RecalculatedCache, Legible;
  }

  /** Under the exact invariant an automatic row is counted exactly when no row is confirmed. */
  lemma RestoredFlag(s: State, k: Key, j: Key)
    requires Exact(s.rows) && k in s.rows && s.rows[k].kind != Confirmed && j in s.rows && j.1 == k.1 && s.rows[j].kind == Automatic
    ensures s.rows[j].associated <==> forall i | i in s.rows && i.1 == k.1 && i != k :: s.rows[i].kind != Confirmed
  {
    if HasConfirmed(s.rows, k.1) {
      var i :| i in s.rows && i.1 == k.1 && s.rows[i].kind.Confirmed?;
      assert i != k;
    }
  }

  // ---------------------------------------------------------------- deleting

  /** Deleting a batch removes the marks and their rows. Other rows keep type and result; a flag is only ever
      set, and only on automatic rows of reports that lose a row. */
  lemma {:induction false} Deleting(s: State, ms: seq<MarkId>, k: Key)
    ensures DestroyAll(s, ms).marks.Keys == s.marks.Keys - (set m | m in ms)
    ensures var rows := DestroyAll(s, ms).rows;
      && (k in rows <==> k in s.rows && k.0 !in ms)
      && (k in rows ==> rows[k] == s.rows[k].(associated := rows[k].associated))
      && (k in rows && rows[k].associated != s.rows[k].associated ==>
            rows[k].associated && rows[k].kind == Automatic && exists m | m in ms :: (m, k.1) in s.rows)
    decreases |ms|
  {
    if ms != [] {
      hide DestroyRows;
      var s1 := Destroy(s, ms[0]);
      DestroyedRows(s.rows, ms[0], k);
      Deleting(s1, ms[1..], k);
      assert (set m | m in ms) == {ms[0]} + (set m | m in ms[1..]);
      assert forall m :: m in ms <==> m == ms[0] || m in ms[1..];
      forall m | m in ms[1..] && (m, k.1) in s1.rows ensures (m, k.1) in s.rows {
        DestroyedRows(s.rows, ms[0], (m, k.1));
      }
    }
  }

  // ---------------------------------------------------------------- whole runs

  /** Rows join marks and reports of one family. */
  lemma OneFamily(s: State, r: ReportId, keys: set<Key>)
    requires WellFormed(s) && Tracks(s) && r in s.reports && keys <= s.rows.Keys && forall k | k in keys :: k.1 == r
    ensures s.reports[r].UnknownReport? ==> AllUnknown(s.marks, keys)
    ensures !s.reports[r].UnknownReport? ==> AllAssessed(s.marks, keys)
  {
    hide MarkLink, ReportLink, Legible;
    forall k | k in keys ensures k.0 in s.marks && (s.marks[k.0].UnknownMark? <==> s.reports[r].UnknownReport?) {
      assert Tracked(s.marks[k.0], s.reports[r], s.rows, (k.0, k.1));
      LinksJoinFamilies(s.marks[k.0], s.reports[r]);
    }
  }

  /** At any moment of any run from the empty database, the cache of every report that was not left behind
      sums up exactly the rows that count: the confirmed ones if there are any, otherwise those automatic
      ones that are switched on. An unknown report has the numbers of its problems, any other report the
      numbers of its tags and the verdict its marks share. */
  lemma EveryRunSays(steps: seq<Step>, s: State, r: ReportId)
    requires Reaches(EMPTY, steps, s) && r in s.reports && r !in StaleAfter(EMPTY, steps, {})
    ensures r in s.caches
    ensures var counted := set k | k in s.rows && k.1 == r && s.rows[k].associated;
      && (forall k | k in counted ::
            if Decided(s.rows, r) then s.rows[k].kind == Confirmed else s.rows[k].kind == Automatic)
      && (forall k | k in s.rows && k.1 == r && s.rows[k].kind == Confirmed :: k in counted)
      && Summarises(s.marks, s.rows, r, counted, s.caches[r])
      && (if s.reports[r].UnknownReport? then AllUnknown(s.marks, counted) else AllAssessed(s.marks, counted))
  {
    hide Reaches, StaleAfter, RecalculatedCache, Summarises, Tracks, ConfirmedOn, AutomaticOn, Legible, Coherent;
    EmptyIsSound();
    EmptyTracks();
    SoundIsNoneStale(EMPTY);
    EveryRunTracks(EMPTY, steps, s, {});
    EveryRunIsSteady(EMPTY, steps, s);
    RecalculatedSays(s.marks, s.rows, r);
    var counted := set k | k in s.rows && k.1 == r && s.rows[k].associated;
    assert counted == set k | k in s.rows && k.1 == r && s.rows[k].associated && s.rows[k].kind in {Automatic, Confirmed};
    OneFamily(s, r, counted);
  }
}
