/** The tables as the code updates them: rows and caches are fields, and every operation changes them
    in place, loop by loop. Each method is proved to do what the state machine says. */
module Store {
  import opened Options
  import opened Verdicts
  import opened Associations
  import M = Machine
  import opened CacheLoops
  import opened Contents

  class MarkStore {
    var marks: map<MarkId, Mark>
    var reports: map<ReportId, Report>
    var rows: Table
    var caches: map<ReportId, Cache>

    ghost function Snapshot(): M.State
      reads this
    {
      M.State(marks, reports, rows, caches)
    }

    constructor ()
      ensures Snapshot() == M.EMPTY
    {
      marks, reports, rows, caches := map[], map[], map[], map[];
    }

    // -------------------------------------------------------------- caches

    /** One pass over the automatic and confirmed rows of the given reports. */
    method CollectCounted(rs: set<ReportId>) returns (newData: map<ReportId, Cache>)
      requires M.WellFormed(Snapshot())
      ensures newData.Keys == caches.Keys * rs
      ensures forall r | r in newData :: newData[r] == M.RecalculatedCache(marks, rows, r)
      ensures forall r | r in newData ::
        var counted := set k | k in rows && k.1 == r && rows[k].associated && rows[k].kind in {Automatic, Confirmed};
        Summarises(marks, rows, r, counted, newData[r])
    {
      hide Progress, M.RecalculatedCache, CountedOn, AutomaticOn, Visit;
      newData := map r | r in caches && r in rs :: EMPTY_CACHE;
      var todo := set k | k in rows && k.1 in rs && (rows[k].kind.Automatic? || rows[k].kind.Confirmed?);
      ghost var all, done: set<Key> := todo, {};
      ProgressStarts(marks, rows, newData);
      while todo != {}
        invariant todo + done == all && todo !! done
        invariant newData.Keys == caches.Keys * rs
        invariant Progress(marks, rows, newData, done)
        decreases todo
      {
        var k :| k in todo;
        assert k in rows && k.1 in reports;
        ProgressStep(marks, rows, newData, done, k);
        newData := newData[k.1 := Visit(newData[k.1], marks[k.0], rows[k])];
        todo, done := todo - {k}, done + {k};
      }
      VisitedAll(rows, rs, done);
      ProgressEnds(marks, rows, newData, done);
      hide Summarises;
      forall r | r in newData { RecalculatedSays(marks, rows, r); }
    }

    /** Recalculate*Cache: collect, then write the caches of the given reports. */
    method Recalculate(rs: set<ReportId>)
      requires M.WellFormed(Snapshot())
      modifies this`caches
      ensures Snapshot() == M.Recalculate(old(Snapshot()), rs)
    {
      hide M.RecalculatedCache;
      var newData := CollectCounted(rs);
      caches := map r | r in caches :: if r in newData then newData[r] else caches[r];
    }

    /** The counting query of update_all: every automatic row, associated or not. */
    method CountAutomatic(affected: set<ReportId>) returns (newData: map<ReportId, Cache>)
      ensures newData.Keys == caches.Keys * affected
      ensures forall r | r in newData :: newData[r] == EMPTY_CACHE.(automatic := |AutomaticOn(rows, r)|)
    {
      hide AutomaticOn;
      newData := map r | r in caches && r in affected :: EMPTY_CACHE;
      var todo := set k | k in rows && k.1 in affected && rows[k].kind.Automatic? :: k.1;
      NoneAutomatic(rows, affected, todo);
      newData := map r | r in newData :: if r in todo then newData[r].(automatic := |AutomaticOn(rows, r)|) else newData[r];
    }

    /** The associated rows of the affected reports, of any type. */
    method CollectAll(affected: set<ReportId>) returns (newData: map<ReportId, Cache>)
      requires M.WellFormed(Snapshot())
      ensures newData.Keys == caches.Keys * affected
      ensures forall r | r in newData :: newData[r] == M.UpdatedCache(marks, rows, r)
      ensures forall r | r in newData ::
        var active := set k | k in rows && k.1 == r && rows[k].associated;
        Summarises(marks, rows, r, active, newData[r])
    {
      hide M.UpdatedCache, FlagProgress, AddRow, AddLabels, Plus, AutomaticOn;
      newData := CountAutomatic(affected);
      FlagProgressBegins(marks, rows, newData);
      var todo := set k | k in rows && k.1 in affected && rows[k].associated;
      ghost var all, done: set<Key> := todo, {};
      while todo != {}
        invariant todo + done == all && todo !! done
        invariant newData.Keys == caches.Keys * affected
        invariant FlagProgress(marks, rows, newData, done)
        decreases todo
      {
        var k :| k in todo;
        assert k in rows && k.1 in reports;
        FlagProgressStep(marks, rows, newData, done, k);
        newData := newData[k.1 := AddRow(newData[k.1], marks[k.0], rows[k])];
        todo, done := todo - {k}, done + {k};
      }
      FlagProgressEnds(marks, rows, newData, affected, done);
      hide Summarises;
      forall r | r in newData { UpdatedSays(marks, rows, r); }
    }

    /** update_all, then save. */
    method UpdateAll(affected: set<ReportId>)
      requires M.WellFormed(Snapshot())
      modifies this`caches
      ensures Snapshot() == M.UpdateAll(old(Snapshot()), affected)
    {
      hide M.UpdatedCache;
      var newData := CollectAll(affected);
      caches := map r | r in caches :: if r in newData then newData[r] else caches[r];
    }

    /** The verdicts of the associated rows, summed. */
    method CollectVerdicts(affected: set<ReportId>) returns (newData: map<ReportId, Verdict>)
      requires M.WellFormed(Snapshot())
      ensures newData.Keys == caches.Keys * affected
      ensures forall r | r in newData :: newData[r] == M.UpdatedCache(marks, rows, r).verdict
      ensures forall r | r in newData ::
        var active := set k | k in rows && k.1 == r && rows[k].associated;
        VerdictSays(marks, active, newData[r])
    {
      hide M.UpdatedCache, VerdictProgress, AddRow, AddLabels, Plus, AutomaticOn;
      newData := map r | r in caches && r in affected :: WithoutMarks;
      VerdictProgressBegins(marks, rows, newData);
      var todo := set k | k in rows && k.1 in affected && rows[k].associated;
      ghost var all, done: set<Key> := todo, {};
      while todo != {}
        invariant todo + done == all && todo !! done
        invariant newData.Keys == caches.Keys * affected
        invariant VerdictProgress(marks, rows, newData, done)
        decreases todo
      {
        var k :| k in todo;
        assert k in rows && k.1 in reports;
        VerdictProgressStep(marks, rows, newData, done, k);
        newData := newData[k.1 := Plus(newData[k.1], VoiceOf(marks[k.0]))];
        todo, done := todo - {k}, done + {k};
      }
      VerdictProgressEnds(marks, rows, newData, affected, done);
      hide VerdictSays, LabelsSay;
      forall r | r in newData { UpdatedSays(marks, rows, r); }
    }

    /** update_verdicts, then save: only verdicts are written. */
    method UpdateVerdicts(affected: set<ReportId>)
      requires M.WellFormed(Snapshot())
      modifies this`caches
      ensures Snapshot() == M.UpdateVerdicts(old(Snapshot()), affected)
    {
      hide M.UpdatedCache;
      var newData := CollectVerdicts(affected);
      caches := map r | r in caches :: if r in newData then caches[r].(verdict := newData[r]) else caches[r];
    }

    /** The tags of the associated rows, counted. */
    method CollectLabels(affected: set<ReportId>) returns (newData: map<ReportId, map<string, nat>>)
      requires M.WellFormed(Snapshot())
      ensures newData.Keys == caches.Keys * affected
      ensures forall r | r in newData :: newData[r] == M.UpdatedCache(marks, rows, r).labels
      ensures forall r | r in newData ::
        var active := set k | k in rows && k.1 == r && rows[k].associated;
        LabelsSay(marks, rows, active, newData[r])
    {
      hide M.UpdatedCache, LabelProgress, AddRow, AddLabels, Plus, AutomaticOn;
      newData := map r | r in caches && r in affected :: map[];
      LabelProgressBegins(marks, rows, newData);
      var todo := set k | k in rows && k.1 in affected && rows[k].associated;
      ghost var all, done: set<Key> := todo, {};
      while todo != {}
        invariant todo + done == all && todo !! done
        invariant newData.Keys == caches.Keys * affected
        invariant LabelProgress(marks, rows, newData, done)
        decreases todo
      {
        var k :| k in todo;
        assert k in rows && k.1 in reports;
        LabelProgressStep(marks, rows, newData, done, k);
        newData := newData[k.1 := AddLabels(newData[k.1], LabelsOf(marks[k.0], rows[k]))];
        todo, done := todo - {k}, done + {k};
      }
      LabelProgressEnds(marks, rows, newData, affected, done);
      hide VerdictSays, LabelsSay;
      forall r | r in newData { UpdatedSays(marks, rows, r); }
    }

    /** update_tags, then save: only tags are written. */
    method UpdateLabels(affected: set<ReportId>)
      requires M.WellFormed(Snapshot())
      modifies this`caches
      ensures Snapshot() == M.UpdateLabels(old(Snapshot()), affected)
    {
      hide M.UpdatedCache;
      var newData := CollectLabels(affected);
      caches := map r | r in caches :: if r in newData then caches[r].(labels := newData[r]) else caches[r];
    }

    // -------------------------------------------------------------- rows

    /** The rows a mark gets, one report after another. */
    method NewAssociations(m: MarkId, prime: Option<ReportId>) returns (associations: Table, newLinks: set<ReportId>)
      requires m in marks && reports.Keys <= caches.Keys
      ensures newLinks == M.Targets(Snapshot(), m)
      ensures associations.Keys == set r | r in newLinks :: (m, r)
      ensures forall r | r in newLinks ::
        associations[(m, r)] == Attach(MarkLink(marks[m], reports[r]), caches[r].confirmed, prime == Some(r))
    {
      hide MarkLink, Attach;
      newLinks, associations := {}, map[];
      var todo := reports.Keys;
      while todo != {}
        invariant todo <= reports.Keys
        invariant newLinks == (set r | r in reports && r !in todo && MarkLink(marks[m], reports[r]).Link?)
        invariant associations.Keys == set r | r in newLinks :: (m, r)
        invariant forall r | r in newLinks ::
          associations[(m, r)] == Attach(MarkLink(marks[m], reports[r]), caches[r].confirmed, prime == Some(r))
        decreases todo
      {
        var r :| r in todo;
        todo := todo - {r};
        var link := MarkLink(marks[m], reports[r]);
        if link.Link? {
          associations := associations[(m, r) := Attach(link, caches[r].confirmed, prime == Some(r))];
          newLinks := newLinks + {r};
        }
      }
    }

    /** Connect*Mark: old rows out, new rows in, and the automatic rows of a prime report off. */
    method Connect(m: MarkId, prime: Option<ReportId>) returns (oldLinks: set<ReportId>, newLinks: set<ReportId>)
      requires m in marks && reports.Keys <= caches.Keys
      modifies this`rows
      ensures rows == M.ConnectRows(old(Snapshot()), m, prime)
      ensures oldLinks == LinksOf(old(rows), m) && newLinks == M.Targets(old(Snapshot()), m)
    {
      hide MarkLink, Attach, LinksOf, M.ConnectRows, M.Targets;
      oldLinks := LinksOf(rows, m);
      rows := WithoutMark(rows, m);
      var associations;
      associations, newLinks := NewAssociations(m, prime);
      RowsUnread(old(Snapshot()), Snapshot(), m);
      Assembled(old(Snapshot()), m, prime, associations);
      rows := rows + associations;
      if prime.Some? {
        rows := SetAutomatic(rows, {prime.value}, false);
      }
    }

    // -------------------------------------------------------------- operations

    /** perform_*_mark_create. */
    method CreateMark(m: MarkId, mark: Mark, prime: ReportId)
      requires M.WellFormed(Snapshot()) && m !in marks
      modifies this
      ensures Snapshot() == M.Create(old(Snapshot()), m, mark, prime)
    {
      ghost var s := Snapshot();
      hide MarkLink, M.ConnectRows, M.UpdatedCache, M.UpdateAll;
      marks := marks[m := mark];
      var oldLinks, newLinks := Connect(m, Some(prime));
      FreshLinks(s, m);
      M.ConnectWellFormed(s, s.(marks := s.marks[m := mark]), m, Some(prime));
      assert oldLinks + newLinks == newLinks;
      UpdateAll(oldLinks + newLinks);
    }

    /** UpdateCachesOnMarkPopulate: one more automatic row for every report that got one. */
    method RefreshOnPopulate(m: MarkId, newLinks: set<ReportId>)
      requires m in marks && newLinks <= caches.Keys
      modifies this`caches
      ensures caches == map r | r in old(caches) ::
        if r in newLinks && (m, r) in rows && rows[(m, r)].kind.Automatic?
        then M.PopulatedCache(old(caches)[r], marks[m], rows[(m, r)]) else old(caches)[r]
    {
      hide M.PopulatedCache;
      var affected := set r | r in newLinks && (m, r) in rows && rows[(m, r)].kind.Automatic?;
      var todo := affected;
      while todo != {}
        invariant todo <= affected
        invariant caches == map r | r in old(caches) ::
          if r in affected && r !in todo then M.PopulatedCache(old(caches)[r], marks[m], rows[(m, r)]) else old(caches)[r]
        decreases todo
      {
        var r :| r in todo;
        todo := todo - {r};
        caches := caches[r := M.PopulatedCache(caches[r], marks[m], rows[(m, r)])];
      }
    }

    /** Population and upload of a mark. */
    method PopulateMark(m: MarkId, mark: Mark)
      requires M.WellFormed(Snapshot()) && m !in marks
      modifies this
      ensures Snapshot() == M.Populate(old(Snapshot()), m, mark)
    {
      hide MarkLink, M.ConnectRows, M.PopulatedCache;
      ghost var s1 := Snapshot().(marks := marks[m := mark]);
      marks := marks[m := mark];
      var oldLinks, newLinks := Connect(m, None);
      M.ConnectKeys(s1, m, None);
      RefreshOnPopulate(m, newLinks);
    }

    /** perform_*_mark_update. */
    method EditMark(m: MarkId, mark: Mark)
      requires M.WellFormed(Snapshot()) && m in marks && M.SameFamily(marks[m], mark)
      modifies this
      ensures Snapshot() == M.Edit(old(Snapshot()), m, mark)
    {
      hide MarkLink, M.ConnectRows, M.UpdatedCache, M.UpdateAll, M.UpdateVerdicts, M.UpdateLabels, M.UpdateAssociated, M.SameFamily, M.Reconnects;
      ghost var s := Snapshot();
      var before := marks[m];
      marks := marks[m := mark];
      ghost var s1 := s.(marks := s.marks[m := mark]);
      if M.Reconnects(before, mark) {
        var oldLinks, newLinks := Connect(m, None);
        M.ConnectWellFormed(s, s1, m, None);
        UpdateAll(oldLinks + newLinks);
      } else if !mark.UnknownMark? {
        FamilyFields(before, mark);
        var links := LinksOf(rows, m);
        var collected := false;
        if mark.UnsafeMark? && before.threshold != mark.threshold {
          rows := M.UpdateAssociated(rows, m, mark.threshold);
          ThresholdKeys(s.rows, m, mark.threshold);
          UpdateAll(links);
          collected := true;
        }
        if before.tags != mark.tags && !collected {
          LabelsWellFormed(s1, links);
          UpdateLabels(links);
        }
        if before.verdict != mark.verdict && !collected {
          UpdateVerdicts(links);
        }
      }
    }

    /** Confirm*Mark; a dissimilar row is refused. */
    method Confirm(k: Key) returns (refused: bool)
      requires M.WellFormed(Snapshot()) && k in rows
      modifies this
      ensures refused <==> old(rows)[k].kind.Dissimilar?
      ensures Snapshot() == M.Confirm(old(Snapshot()), k)
    {
      hide M.RecalculatedCache, M.Recalculate;
      if rows[k].kind.Dissimilar? { return true; }
      refused := false;
      if rows[k].kind.Confirmed? { return; }
      rows := rows[k := rows[k].(kind := Confirmed, associated := true)];
      rows := SetAutomatic(rows, {k.1}, false);
      Recalculate({k.1});
    }

    /** Unconfirm*Mark; a dissimilar row is refused. */
    method Unconfirm(k: Key) returns (refused: bool)
      requires M.WellFormed(Snapshot()) && k in rows
      modifies this
      ensures refused <==> old(rows)[k].kind.Dissimilar?
      ensures Snapshot() == M.Unconfirm(old(Snapshot()), k)
    {
      hide M.RecalculatedCache, M.Recalculate, HasConfirmed;
      if rows[k].kind.Dissimilar? { return true; }
      refused := false;
      if rows[k].kind.Unconfirmed? { return; }
      var wasConfirmed := rows[k].kind.Confirmed?;
      rows := rows[k := rows[k].(kind := Unconfirmed, associated := false)];
      if wasConfirmed && !HasConfirmed(rows, k.1) {
        rows := SetAutomatic(rows, {k.1}, true);
      }
      Recalculate({k.1});
    }

    /** Remove*Mark.destroy: rows only, the caller recalculates. */
    method Destroy(m: MarkId) returns (affected: set<ReportId>)
      modifies this`marks, this`rows
      ensures Snapshot() == M.Destroy(old(Snapshot()), m) && affected == LinksOf(old(rows), m)
    {
      hide LinksOf, HasAssociated;
      affected := LinksOf(rows, m);
      marks := marks - {m};
      rows := WithoutMark(rows, m);
      rows := SetAutomatic(rows, set r | r in affected && !HasAssociated(rows, r), true);
    }

    /** The batch removal views: one recalculation at the end. */
    method DeleteMarks(ms: seq<MarkId>)
      requires M.WellFormed(Snapshot())
      modifies this
      ensures Snapshot() == M.Delete(old(Snapshot()), ms)
    {
      hide M.RecalculatedCache, M.Recalculate, M.DestroyRows, LinksOf;
      ghost var s := Snapshot();
      var reportIds: set<ReportId> := {};
      for i := 0 to |ms|
        invariant M.DestroyAll(Snapshot(), ms[i..]) == M.DestroyAll(s, ms)
        invariant reportIds + M.Touched(Snapshot(), ms[i..]) == M.Touched(s, ms)
      {
        assert ms[i..][0] == ms[i] && ms[i..][1..] == ms[i + 1..];
        var affected := Destroy(ms[i]);
        reportIds := reportIds + affected;
      }
      M.DestroyAllWellFormed(s, ms);
      Recalculate(reportIds);
    }

    /** The rows of the report side, one pair after another. */
    method ReportAssociations(rs: set<ReportId>) returns (added: Table)
      requires rs <= reports.Keys
      ensures added == M.ReportRows(Snapshot(), rs)
    {
      hide ReportLink, Attach, M.ReportRows;
      ghost var all := M.ReportRows(Snapshot(), rs);
      added := map[];
      var todo := set m, r | m in marks && r in rs :: (m, r);
      ReportRowsKeys(Snapshot(), rs);
      while todo != {}
        invariant forall k | k in todo :: k.0 in marks && k.1 in rs
        invariant forall k | k in added :: k in all && added[k] == all[k]
        invariant forall k | k in all :: k in todo || k in added
        decreases todo
      {
        var k :| k in todo;
        todo := todo - {k};
        ReportRowsAt(Snapshot(), rs, k);
        var link := ReportLink(marks[k.0], reports[k.1]);
        if link.Link? {
          added := added[k := Attach(link, 0, false)];
        }
      }
    }

    /** connect_*_report: insert the rows of one report, then recalculate its cache; a description that cannot be
        read stops it. */
    method ConnectReport(r: ReportId)
      requires M.WellFormed(Snapshot()) && r in reports
      modifies this`rows, this`caches
      ensures M.WellFormed(Snapshot()) && caches.Keys == old(caches).Keys
      ensures rows == old(rows) + M.ReportRows(old(Snapshot()), {r})
      ensures forall q | q in caches ::
        caches[q] == if q == r && Legible(reports[r]) then M.RecalculatedCache(marks, rows, q) else old(caches)[q]
    {
      hide M.RecalculatedCache, ReportLink;
      if !Legible(reports[r]) {
        NoRowsIllegible(Snapshot(), r);
        return;
      }
      var added := ReportAssociations({r});
      ReportRowsLegible(Snapshot(), r);
      rows := rows + added;
      Recalculate({r});
    }

    /** recalculate_*_links: drop the rows of the reports, then connect each of them again, in any order. */
    method RelinkReports(rs: set<ReportId>)
      requires M.WellFormed(Snapshot()) && rs <= reports.Keys
      modifies this`rows, this`caches
      ensures Snapshot() == M.Relink(old(Snapshot()), rs)
    {
      hide M.RecalculatedCache, M.Relink, M.ReportRows, WithoutReports, RelinkProgress, M.WellFormed;
      ghost var s := Snapshot();
      RelinkBegins(s, rs);
      rows := WithoutReports(rows, rs);
      var todo := rs;
      ProgressWellFormed(s, rs, {});
      assert rs - todo == {};
      while todo != {}
        invariant todo <= rs && Snapshot() == RelinkProgress(s, rs, rs - todo) && M.WellFormed(Snapshot())
        decreases todo
      {
        var r :| r in todo;
        ghost var done := rs - todo;
        ghost var before := Snapshot();
        ProgressStores(s, rs, done);
        ReportRowsOf(s, before, {r});
        ConnectReport(r);
        RelinkStep(s, rs, done, r, before, Snapshot());
        todo := todo - {r};
        assert rs - todo == done + {r};
      }
      assert rs - todo == rs;
      RelinkEnds(s, rs);
    }

    /** Arrival of a report: stored with a default cache, then connected. */
    method AddReport(r: ReportId, report: Report)
      requires M.WellFormed(Snapshot()) && r !in reports
      modifies this
      ensures Snapshot() == M.AddReport(old(Snapshot()), r, report)
    {
      hide M.RecalculatedCache, M.Relink;
      reports := reports[r := report];
      caches := caches[r := EMPTY_CACHE];
      RelinkReports({r});
    }
  }

  lemma RowsUnread(s: M.State, s': M.State, m: MarkId)
    requires m in s.marks && s' == s.(rows := s'.rows)
    ensures M.Targets(s, m) == M.Targets(s', m)
  {
    hide MarkLink;
  }

  lemma Assembled(s: M.State, m: MarkId, prime: Option<ReportId>, associations: Table)
    requires m in s.marks && s.reports.Keys <= s.caches.Keys
    requires associations.Keys == set r | r in M.Targets(s, m) :: (m, r)
    requires forall r | r in M.Targets(s, m) ::
      associations[(m, r)] == Attach(MarkLink(s.marks[m], s.reports[r]), s.caches[r].confirmed, prime == Some(r))
    ensures var inserted := WithoutMark(s.rows, m) + associations;
      M.ConnectRows(s, m, prime) == if prime.None? then inserted else SetAutomatic(inserted, {prime.value}, false)
  {
    hide MarkLink, Attach, SetAutomatic;
    var inserted := map k | k in WithoutMark(s.rows, m).Keys + (set r | r in M.Targets(s, m) :: (m, r)) ::
      if k.0 == m then Attach(MarkLink(s.marks[m], s.reports[k.1]), s.caches[k.1].confirmed, prime == Some(k.1))
      else s.rows[k];
    assert inserted == WithoutMark(s.rows, m) + associations;
  }

  lemma FreshLinks(s: M.State, m: MarkId)
    requires M.WellFormed(s) && m !in s.marks
    ensures LinksOf(s.rows, m) == {}
  {
    forall k | k in s.rows ensures k.0 != m { assert k.0 in s.marks; }
  }

  lemma FamilyFields(before: Mark, mark: Mark)
    requires M.SameFamily(before, mark)
    ensures (before.UnknownMark? <==> mark.UnknownMark?) && (before.UnsafeMark? <==> mark.UnsafeMark?)
  {}

  lemma ThresholdKeys(rows: Table, m: MarkId, threshold: real)
    ensures M.UpdateAssociated(rows, m, threshold).Keys == rows.Keys
  {}

  lemma LabelsWellFormed(s: M.State, rs: set<ReportId>)
    requires M.WellFormed(s)
    ensures M.WellFormed(M.UpdateLabels(s, rs))
  {
    hide M.UpdatedCache;
  }

  lemma ReportRowsKeys(s: M.State, rs: set<ReportId>)
    requires rs <= s.reports.Keys
    ensures forall k | k in M.ReportRows(s, rs) :: k.0 in s.marks && k.1 in rs
  {
    hide ReportLink, Attach;
  }

  lemma ReportRowsAt(s: M.State, rs: set<ReportId>, k: Key)
    requires rs <= s.reports.Keys && k.0 in s.marks && k.1 in rs
    ensures k in M.ReportRows(s, rs) <==> ReportLink(s.marks[k.0], s.reports[k.1]).Link?
    ensures k in M.ReportRows(s, rs) ==> M.ReportRows(s, rs)[k] == Attach(ReportLink(s.marks[k.0], s.reports[k.1]), 0, false)
  {
    hide ReportLink, Attach;
    assert k == (k.0, k.1);
  }

  lemma ReportRowsOf(s: M.State, s': M.State, rs: set<ReportId>)
    requires rs <= s.reports.Keys && s'.marks == s.marks && s'.reports == s.reports
    ensures M.ReportRows(s, rs) == M.ReportRows(s', rs)
  {
    hide ReportLink, Attach;
  }

  lemma NoRowsIllegible(s: M.State, r: ReportId)
    requires r in s.reports && !Legible(s.reports[r])
    ensures M.ReportRows(s, {r}) == map[] && s.rows + M.ReportRows(s, {r}) == s.rows
  {
    hide ReportLink, Attach, Legible;
    forall m | m in s.marks ensures ReportLink(s.marks[m], s.reports[r]).NoLink? {
      LinksAreLegible(s.marks[m], s.reports[r]);
    }
  }

  lemma ReportRowsLegible(s: M.State, r: ReportId)
    requires M.WellFormed(s) && r in s.reports && Legible(s.reports[r])
    ensures M.WellFormed(s.(rows := s.rows + M.ReportRows(s, {r})))
  {
    hide ReportLink, Attach, Legible;
  }

  lemma ProgressStores(s: M.State, rs: set<ReportId>, done: set<ReportId>)
    requires M.WellFormed(s) && done <= rs <= s.reports.Keys
    ensures var p := RelinkProgress(s, rs, done);
      p.marks == s.marks && p.reports == s.reports && p.caches.Keys == s.caches.Keys == s.reports.Keys
  {
    hide M.RecalculatedCache, RelinkRows;
  }

  lemma ProgressWellFormed(s: M.State, rs: set<ReportId>, done: set<ReportId>)
    requires M.WellFormed(s) && done <= rs <= s.reports.Keys
    ensures M.WellFormed(RelinkProgress(s, rs, done))
  {
    hide M.RecalculatedCache, RelinkRows, Legible;
    RelinkRowsWellFormed(s, rs, done);
  }
}
