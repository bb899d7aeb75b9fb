/** The loops of the cache code, seen as steps over the rows already visited. */
module CacheLoops {
  import opened Verdicts
  import opened Associations
  import M = Machine
  import opened Invariants
  import opened Insertion

  /** The cache of a report when only the rows in `done` have been visited. */
  ghost function Partial(marks: map<MarkId, Mark>, rows: Table, r: ReportId, done: set<Key>): Cache
    requires Closed(marks, rows, rows.Keys)
  {
    Digest(marks, rows, CountedOn(rows, r) * done, |AutomaticOn(rows, r) * done|)
  }

  /** Every entry of the accumulator is the partial cache of its report. */
  ghost predicate Progress(marks: map<MarkId, Mark>, rows: Table, data: map<ReportId, Cache>, done: set<Key>)
    requires Closed(marks, rows, rows.Keys)
  {
    forall r | r in data :: data[r] == Partial(marks, rows, r, done)
  }

  /** What one iteration of the recalculation does to the entry of the row's report. */
  function Visit(c: Cache, mark: Mark, row: Row): Cache {
    var counted := if row.kind.Automatic? then c.(automatic := c.automatic + 1) else c;
    if row.associated then AddRow(counted, mark, row) else counted
  }

  lemma ProgressStarts(marks: map<MarkId, Mark>, rows: Table, data: map<ReportId, Cache>)
    requires Closed(marks, rows, rows.Keys) && forall r | r in data :: data[r] == EMPTY_CACHE
    ensures Progress(marks, rows, data, {})
  {
    forall r | r in data ensures data[r] == Partial(marks, rows, r, {}) {
      assert CountedOn(rows, r) * {} == {} && AutomaticOn(rows, r) * {} == {};
      EmptyDigest(marks, rows);
    }
  }

  lemma EmptyDigest(marks: map<MarkId, Mark>, rows: Table)
    ensures Digest(marks, rows, {}, 0) == EMPTY_CACHE
  {
    assert Voices(marks, rows, {}) == {};
    assert Tally(marks, rows, {}) == map[];
  }

  lemma ProgressStep(marks: map<MarkId, Mark>, rows: Table, data: map<ReportId, Cache>, done: set<Key>, k: Key)
    requires Closed(marks, rows, rows.Keys) && Progress(marks, rows, data, done)
    requires k in rows && k !in done && k.1 in data && (rows[k].kind.Automatic? || rows[k].kind.Confirmed?)
    ensures Progress(marks, rows, data[k.1 := Visit(data[k.1], marks[k.0], rows[k])], done + {k})
  {
    hide Partial;
    forall r | r in data && r != k.1 ensures Partial(marks, rows, r, done + {k}) == Partial(marks, rows, r, done) {
      PartialElsewhere(marks, rows, done, k, r);
    }
    PartialHere(marks, rows, done, k);
  }

  lemma PartialElsewhere(marks: map<MarkId, Mark>, rows: Table, done: set<Key>, k: Key, r: ReportId)
    requires Closed(marks, rows, rows.Keys) && k.1 != r
    ensures Partial(marks, rows, r, done + {k}) == Partial(marks, rows, r, done)
  {
    assert CountedOn(rows, r) * (done + {k}) == CountedOn(rows, r) * done;
    assert AutomaticOn(rows, r) * (done + {k}) == AutomaticOn(rows, r) * done;
  }

  lemma PartialHere(marks: map<MarkId, Mark>, rows: Table, done: set<Key>, k: Key)
    requires Closed(marks, rows, rows.Keys) && k in rows && k !in done
    requires rows[k].kind.Automatic? || rows[k].kind.Confirmed?
    ensures Partial(marks, rows, k.1, done + {k}) == Visit(Partial(marks, rows, k.1, done), marks[k.0], rows[k])
  {
    hide Digest, AddRow;
    var counted, automatic := CountedOn(rows, k.1) * done, AutomaticOn(rows, k.1) * done;
    DigestCount(marks, rows, counted, |automatic|);
    assert AutomaticOn(rows, k.1) * (done + {k}) == if rows[k].kind.Automatic? then automatic + {k} else automatic;
    if rows[k].associated {
      assert CountedOn(rows, k.1) * (done + {k}) == counted + {k};
      DigestAdds(marks, rows, counted, |AutomaticOn(rows, k.1) * (done + {k})|, k);
    } else {
      assert CountedOn(rows, k.1) * (done + {k}) == counted;
    }
  }

  lemma VisitedAll(rows: Table, rs: set<ReportId>, done: set<Key>)
    requires done == set k | k in rows && k.1 in rs && (rows[k].kind.Automatic? || rows[k].kind.Confirmed?)
    ensures forall r | r in rs :: CountedOn(rows, r) <= done && AutomaticOn(rows, r) <= done
  {}

  lemma ProgressEnds(marks: map<MarkId, Mark>, rows: Table, data: map<ReportId, Cache>, done: set<Key>)
    requires Closed(marks, rows, rows.Keys) && Progress(marks, rows, data, done)
    requires forall r | r in data :: CountedOn(rows, r) <= done && AutomaticOn(rows, r) <= done
    ensures forall r | r in data :: data[r] == M.RecalculatedCache(marks, rows, r)
  {
    hide Digest;
    forall r | r in data ensures data[r] == M.RecalculatedCache(marks, rows, r) {
      assert CountedOn(rows, r) * done == CountedOn(rows, r);
      assert AutomaticOn(rows, r) * done == AutomaticOn(rows, r);
    }
  }

  // ---------------------------------------------------------------- the affected-set update

  /** The same for the update that filters on the association flag; automatic rows are counted first. */
  ghost function FlagPartial(marks: map<MarkId, Mark>, rows: Table, r: ReportId, done: set<Key>): Cache
    requires Closed(marks, rows, rows.Keys)
  {
    Digest(marks, rows, ActiveOn(rows, r) * done, |AutomaticOn(rows, r)|)
  }

  lemma FlagStarts(marks: map<MarkId, Mark>, rows: Table, r: ReportId)
    requires Closed(marks, rows, rows.Keys)
    ensures FlagPartial(marks, rows, r, {}) == EMPTY_CACHE.(automatic := |AutomaticOn(rows, r)|)
  {
    assert ActiveOn(rows, r) * {} == {};
    assert Voices(marks, rows, {}) == {};
    assert Tally(marks, rows, {}) == map[];
  }

  lemma FlagStep(marks: map<MarkId, Mark>, rows: Table, done: set<Key>, k: Key, r: ReportId)
    requires Closed(marks, rows, rows.Keys) && k in rows && rows[k].associated && k !in done
    ensures FlagPartial(marks, rows, r, done + {k}) ==
      if k.1 == r then AddRow(FlagPartial(marks, rows, r, done), marks[k.0], rows[k]) else FlagPartial(marks, rows, r, done)
  {
    hide Digest, AddRow;
    var seen := ActiveOn(rows, r) * done;
    if k.1 == r {
      assert ActiveOn(rows, r) * (done + {k}) == seen + {k};
      DigestAdds(marks, rows, seen, |AutomaticOn(rows, r)|, k);
    } else {
      assert ActiveOn(rows, r) * (done + {k}) == seen;
    }
  }

  lemma FlagEnds(marks: map<MarkId, Mark>, rows: Table, r: ReportId, done: set<Key>)
    requires Closed(marks, rows, rows.Keys) && ActiveOn(rows, r) <= done
    ensures FlagPartial(marks, rows, r, done) == M.UpdatedCache(marks, rows, r)
  {
    hide Digest;
    assert ActiveOn(rows, r) * done == ActiveOn(rows, r);
  }

  /** The three accumulators: whole caches, verdicts only, labels only. */
  ghost predicate FlagProgress(marks: map<MarkId, Mark>, rows: Table, data: map<ReportId, Cache>, done: set<Key>)
    requires Closed(marks, rows, rows.Keys)
  {
    forall r | r in data :: data[r] == FlagPartial(marks, rows, r, done)
  }

  ghost predicate VerdictProgress(marks: map<MarkId, Mark>, rows: Table, data: map<ReportId, Verdict>, done: set<Key>)
    requires Closed(marks, rows, rows.Keys)
  {
    forall r | r in data :: data[r] == FlagPartial(marks, rows, r, done).verdict
  }

  ghost predicate LabelProgress(marks: map<MarkId, Mark>, rows: Table, data: map<ReportId, map<string, nat>>, done: set<Key>)
    requires Closed(marks, rows, rows.Keys)
  {
    forall r | r in data :: data[r] == FlagPartial(marks, rows, r, done).labels
  }

  lemma NoneAutomatic(rows: Table, rs: set<ReportId>, counted: set<ReportId>)
    requires counted == set k | k in rows && k.1 in rs && rows[k].kind.Automatic? :: k.1
    ensures forall r | r in rs && r !in counted :: |AutomaticOn(rows, r)| == 0
  {
    forall r | r in rs && r !in counted ensures AutomaticOn(rows, r) == {} {}
  }

  lemma FlagProgressBegins(marks: map<MarkId, Mark>, rows: Table, data: map<ReportId, Cache>)
    requires Closed(marks, rows, rows.Keys)
    requires forall r | r in data :: data[r] == EMPTY_CACHE.(automatic := |AutomaticOn(rows, r)|)
    ensures FlagProgress(marks, rows, data, {})
  {
    hide FlagPartial;
    forall r { FlagStarts(marks, rows, r); }
  }

  lemma VerdictProgressBegins(marks: map<MarkId, Mark>, rows: Table, data: map<ReportId, Verdict>)
    requires Closed(marks, rows, rows.Keys)
    requires forall r | r in data :: data[r] == WithoutMarks
    ensures VerdictProgress(marks, rows, data, {})
  {
    hide FlagPartial;
    forall r { FlagStarts(marks, rows, r); }
  }

  lemma LabelProgressBegins(marks: map<MarkId, Mark>, rows: Table, data: map<ReportId, map<string, nat>>)
    requires Closed(marks, rows, rows.Keys)
    requires forall r | r in data :: data[r] == map[]
    ensures LabelProgress(marks, rows, data, {})
  {
    hide FlagPartial;
    forall r { FlagStarts(marks, rows, r); }
  }

  lemma FlagProgressStep(marks: map<MarkId, Mark>, rows: Table, data: map<ReportId, Cache>, done: set<Key>, k: Key)
    requires Closed(marks, rows, rows.Keys) && FlagProgress(marks, rows, data, done)
    requires k in rows && rows[k].associated && k !in done && k.1 in data
    ensures FlagProgress(marks, rows, data[k.1 := AddRow(data[k.1], marks[k.0], rows[k])], done + {k})
  {
    hide FlagPartial, AddRow;
    forall r { FlagStep(marks, rows, done, k, r); }
  }

  lemma VerdictProgressStep(marks: map<MarkId, Mark>, rows: Table, data: map<ReportId, Verdict>, done: set<Key>, k: Key)
    requires Closed(marks, rows, rows.Keys) && VerdictProgress(marks, rows, data, done)
    requires k in rows && rows[k].associated && k !in done && k.1 in data
    ensures VerdictProgress(marks, rows, data[k.1 := Plus(data[k.1], VoiceOf(marks[k.0]))], done + {k})
  {
    hide FlagPartial, Plus, VoiceOf;
    forall r { FlagStep(marks, rows, done, k, r); }
  }

  lemma LabelProgressStep(marks: map<MarkId, Mark>, rows: Table, data: map<ReportId, map<string, nat>>, done: set<Key>, k: Key)
    requires Closed(marks, rows, rows.Keys) && LabelProgress(marks, rows, data, done)
    requires k in rows && rows[k].associated && k !in done && k.1 in data
    ensures LabelProgress(marks, rows, data[k.1 := AddLabels(data[k.1], LabelsOf(marks[k.0], rows[k]))], done + {k})
  {
    hide FlagPartial, AddLabels, LabelsOf;
    forall r { FlagStep(marks, rows, done, k, r); }
  }

  lemma FlagProgressEnds(marks: map<MarkId, Mark>, rows: Table, data: map<ReportId, Cache>, rs: set<ReportId>, done: set<Key>)
    requires Closed(marks, rows, rows.Keys) && FlagProgress(marks, rows, data, done) && data.Keys <= rs
    requires done == set k | k in rows && k.1 in rs && rows[k].associated
    ensures forall r | r in data :: data[r] == M.UpdatedCache(marks, rows, r)
  {
    hide FlagPartial, M.UpdatedCache;
    forall r | r in data { FlagEnds(marks, rows, r, done); }
  }

  lemma VerdictProgressEnds(marks: map<MarkId, Mark>, rows: Table, data: map<ReportId, Verdict>, rs: set<ReportId>, done: set<Key>)
    requires Closed(marks, rows, rows.Keys) && VerdictProgress(marks, rows, data, done) && data.Keys <= rs
    requires done == set k | k in rows && k.1 in rs && rows[k].associated
    ensures forall r | r in data :: data[r] == M.UpdatedCache(marks, rows, r).verdict
  {
    hide FlagPartial, M.UpdatedCache;
    forall r | r in data { FlagEnds(marks, rows, r, done); }
  }

  lemma LabelProgressEnds(marks: map<MarkId, Mark>, rows: Table, data: map<ReportId, map<string, nat>>, rs: set<ReportId>, done: set<Key>)
    requires Closed(marks, rows, rows.Keys) && LabelProgress(marks, rows, data, done) && data.Keys <= rs
    requires done == set k | k in rows && k.1 in rs && rows[k].associated
    ensures forall r | r in data :: data[r] == M.UpdatedCache(marks, rows, r).labels
  {
    hide FlagPartial, M.UpdatedCache;
    forall r | r in data { FlagEnds(marks, rows, r, done); }
  }

  // ---------------------------------------------------------------- reports connected one by one

  /** Re-linking when the reports in `done` have been connected: the rows of all are dropped, those of the
      connected ones are back, and the caches of those that could be read are recalculated. */
  ghost function RelinkProgress(s: M.State, rs: set<ReportId>, done: set<ReportId>): M.State
    requires M.WellFormed(s) && done <= rs <= s.reports.Keys
  {
    RelinkRowsWellFormed(s, rs, done);
    var rows := RelinkRows(s, rs, done);
    s.(rows := rows, caches := map r | r in s.caches ::
      if r in M.Reconnected(s, done) then M.RecalculatedCache(s.marks, rows, r) else s.caches[r])
  }

  ghost function RelinkRows(s: M.State, rs: set<ReportId>, done: set<ReportId>): Table
    requires done <= rs <= s.reports.Keys
  {
    WithoutReports(s.rows, rs) + M.ReportRows(s, done)
  }

  lemma RelinkRowAt(s: M.State, rs: set<ReportId>, done: set<ReportId>, k: Key)
    requires M.WellFormed(s) && done <= rs <= s.reports.Keys
    ensures var rows := RelinkRows(s, rs, done);
      && (k.1 in done ==> (k in rows <==> k.0 in s.marks && ReportLink(s.marks[k.0], s.reports[k.1]).Link?))
      && (k.1 in rs - done ==> k !in rows)
      && (k.1 !in rs ==> (k in rows <==> k in s.rows))
      && (k in rows && k.1 in done ==> rows[k] == Attach(ReportLink(s.marks[k.0], s.reports[k.1]), 0, false))
      && (k in rows && k.1 !in done ==> rows[k] == s.rows[k])
  {
    hide ReportLink, Attach, Legible;
    assert k == (k.0, k.1);
  }

  lemma RelinkRowsWellFormed(s: M.State, rs: set<ReportId>, done: set<ReportId>)
    requires M.WellFormed(s) && done <= rs <= s.reports.Keys
    ensures M.WellFormed(s.(rows := RelinkRows(s, rs, done)))
  {
    hide ReportLink, Legible, RelinkRows;
    forall k | k in RelinkRows(s, rs, done) ensures k.0 in s.marks && k.1 in s.reports && Legible(s.reports[k.1]) {
      RelinkRowAt(s, rs, done, k);
      if k.1 in done {
        LinksAreLegible(s.marks[k.0], s.reports[k.1]);
      }
    }
  }

  lemma RelinkEnds(s: M.State, rs: set<ReportId>)
    requires M.WellFormed(s) && rs <= s.reports.Keys
    ensures RelinkProgress(s, rs, rs) == M.Relink(s, rs)
  {
    hide M.RecalculatedCache, M.ReportRows;
  }

  /** A report that was connected keeps its rows, and so its recalculated cache, when others are connected. */
  lemma RelinkKeeps(s: M.State, rs: set<ReportId>, done: set<ReportId>, r: ReportId, q: ReportId)
    requires M.WellFormed(s) && done <= rs <= s.reports.Keys && r in rs && q != r
    ensures M.WellFormed(s.(rows := RelinkRows(s, rs, done))) && M.WellFormed(s.(rows := RelinkRows(s, rs, done + {r})))
    ensures M.RecalculatedCache(s.marks, RelinkRows(s, rs, done), q) == M.RecalculatedCache(s.marks, RelinkRows(s, rs, done + {r}), q)
  {
    hide M.RecalculatedCache, RelinkRows, ReportLink, Legible, Attach;
    RelinkRowsWellFormed(s, rs, done);
    RelinkRowsWellFormed(s, rs, done + {r});
    var a, b := s.(rows := RelinkRows(s, rs, done)), s.(rows := RelinkRows(s, rs, done + {r}));
    forall k: Key | k.1 == q ensures (k in a.rows <==> k in b.rows) && (k in a.rows && k in b.rows ==> a.rows[k] == b.rows[k]) {
      RelinkRowAt(s, rs, done, k);
      RelinkRowAt(s, rs, done + {r}, k);
    }
    UntouchedReport(a, b, q);
  }

  lemma RelinkProgressIs(s: M.State, rs: set<ReportId>, done: set<ReportId>)
    requires M.WellFormed(s) && done <= rs <= s.reports.Keys
    ensures M.WellFormed(s.(rows := RelinkRows(s, rs, done)))
    ensures var p := RelinkProgress(s, rs, done);
      && p == s.(rows := RelinkRows(s, rs, done), caches := p.caches) && p.caches.Keys == s.caches.Keys
      && forall q | q in s.caches ::
           p.caches[q] == if q in M.Reconnected(s, done) then M.RecalculatedCache(s.marks, p.rows, q) else s.caches[q]
  {
    RelinkRowsWellFormed(s, rs, done);
    hide M.RecalculatedCache, RelinkRows, Legible;
  }

  lemma NoReports(s: M.State, rs: set<ReportId>)
    requires rs <= s.reports.Keys
    ensures RelinkRows(s, rs, {}) == WithoutReports(s.rows, rs) && M.Reconnected(s, {}) == {}
  {
    hide ReportLink, Attach, Legible, WithoutReports;
    assert M.ReportRows(s, {}) == map[];
  }

  lemma RelinkBegins(s: M.State, rs: set<ReportId>)
    requires M.WellFormed(s) && rs <= s.reports.Keys
    ensures RelinkProgress(s, rs, {}) == s.(rows := WithoutReports(s.rows, rs))
  {
    hide M.RecalculatedCache, RelinkProgress, RelinkRows, WithoutReports, M.WellFormed;
    RelinkProgressIs(s, rs, {});
    NoReports(s, rs);
    assert RelinkProgress(s, rs, {}).caches == s.caches;
  }

  /** What connecting one report does to the caches. */
  ghost predicate CachesConnected(s: M.State, p: M.State, s': M.State, r: ReportId)
    requires M.WellFormed(s') && r in s.reports && p.caches.Keys == s'.caches.Keys == s.caches.Keys
  {
    forall q | q in s.caches ::
      s'.caches[q] == if q == r && Legible(s.reports[r]) then M.RecalculatedCache(s'.marks, s'.rows, q) else p.caches[q]
  }

  /** Connecting one more report. */
  lemma RelinkStep(s: M.State, rs: set<ReportId>, done: set<ReportId>, r: ReportId, p: M.State, s': M.State)
    requires M.WellFormed(s) && done <= rs <= s.reports.Keys && r in rs && r !in done && p == RelinkProgress(s, rs, done)
    requires s' == p.(rows := s'.rows, caches := s'.caches) && s'.rows == p.rows + M.ReportRows(s, {r})
    requires M.WellFormed(s') && p.caches.Keys == s'.caches.Keys == s.caches.Keys && CachesConnected(s, p, s', r)
    ensures s' == RelinkProgress(s, rs, done + {r})
  {
    hide M.RecalculatedCache, Legible, M.ReportRows, RelinkProgress, WithoutReports, M.WellFormed;
    RelinkProgressIs(s, rs, done);
    RelinkProgressIs(s, rs, done + {r});
    OneMoreReport(s, done, r);
    assert s'.rows == RelinkRows(s, rs, done + {r});
    var next := RelinkProgress(s, rs, done + {r});
    forall q | q in s.caches ensures s'.caches[q] == next.caches[q] {
      if q != r {
        RelinkKeeps(s, rs, done, r, q);
      }
    }
    assert s'.caches == next.caches;
  }

  lemma OneMoreReport(s: M.State, done: set<ReportId>, r: ReportId)
    requires done <= s.reports.Keys && r in s.reports
    ensures M.ReportRows(s, done) + M.ReportRows(s, {r}) == M.ReportRows(s, done + {r})
  {
    hide ReportLink, Attach;
  }
}
