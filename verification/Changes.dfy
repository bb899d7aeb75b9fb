/** Edits, confirmations, rejections and removals: the operations that change or drop rows. */
module Changes {
  import opened Options
  import opened Associations
  import opened Machine
  import opened Invariants
  import opened Insertion

  // ---------------------------------------------------------------- confirm

  lemma ConfirmedRows(s: State, k: Key, j: Key)
    requires WellFormed(s) && k in s.rows && CanConfirm(s.rows[k])
    ensures Confirm(s, k).marks == s.marks && Confirm(s, k).reports == s.reports
    ensures var rows := Confirm(s, k).rows;
      && (j in rows <==> j in s.rows)
      && (j in rows && j == k ==> rows[j] == s.rows[k].(kind := Confirmed, associated := true))
      && (j in rows && j.1 == k.1 && j != k && s.rows[j].kind.Automatic? ==> rows[j] == s.rows[j].(associated := false))
      && (j in rows && j != k && !(j.1 == k.1 && s.rows[j].kind.Automatic?) ==> rows[j] == s.rows[j])
  {
    hide Digest;
  }

  lemma ConfirmFlags(s: State, k: Key)
    requires WellFormed(s) && OneSided(s.rows) && k in s.rows && CanConfirm(s.rows[k])
    ensures OneSided(Confirm(s, k).rows) && (Exact(s.rows) ==> Exact(Confirm(s, k).rows))
    ensures Confirm(s, k).rows.Keys == s.rows.Keys
    ensures forall r | r != k.1 :: SameOn(s.rows, Confirm(s, k).rows, r)
  {
    hide Digest, Confirm;
    var rows := Confirm(s, k).rows;
    forall j: Key ensures
      && (j in rows <==> j in s.rows)
      && (j in rows && j.1 != k.1 ==> rows[j] == s.rows[j])
      && (j in rows && j.1 == k.1 && j != k && s.rows[j].kind.Automatic? ==> rows[j] == s.rows[j].(associated := false))
      && (j in rows && j.1 == k.1 && j != k && !s.rows[j].kind.Automatic? ==> rows[j] == s.rows[j])
    {
      ConfirmedRows(s, k, j);
    }
    ConfirmedRows(s, k, k);
    assert HasConfirmed(rows, k.1);
    FlagsElsewhere(s.rows, rows, {k.1});
  }

  lemma ConfirmSound(s: State, k: Key, stale: set<ReportId>)
    requires SoundBut(s, stale) && k in s.rows
    ensures SoundBut(Confirm(s, k), if CanConfirm(s.rows[k]) then stale - {k.1} else stale)
    ensures Exact(s.rows) ==> Exact(Confirm(s, k).rows)
  {
    if CanConfirm(s.rows[k]) {
      ConfirmFlags(s, k);
      hide Judged, RecalculatedCache, OneSided, HasConfirmed, SetAutomatic, SameOn;
      RecalculateSound(s, Confirm(s, k).rows, {k.1}, stale);
    }
  }

  // ---------------------------------------------------------------- unconfirm

  lemma UnconfirmedRows(s: State, k: Key, j: Key)
    requires WellFormed(s) && k in s.rows && CanUnconfirm(s.rows[k])
    ensures Unconfirm(s, k).marks == s.marks && Unconfirm(s, k).reports == s.reports
    ensures var rows := Unconfirm(s, k).rows;
      var restored := s.rows[k].kind.Confirmed? && !(exists i | i in s.rows :: i != k && i.1 == k.1 && s.rows[i].kind.Confirmed?);
      && (j in rows <==> j in s.rows)
      && (j in rows && j == k ==> rows[j] == s.rows[k].(kind := Unconfirmed, associated := false))
      && (j in rows && j.1 == k.1 && j != k && s.rows[j].kind.Automatic? && restored ==> rows[j] == s.rows[j].(associated := true))
      && (j in rows && j != k && !(j.1 == k.1 && s.rows[j].kind.Automatic? && restored) ==> rows[j] == s.rows[j])
  {
    hide Digest;
  }

  lemma UnconfirmFlags(s: State, k: Key)
    requires WellFormed(s) && OneSided(s.rows) && k in s.rows && CanUnconfirm(s.rows[k])
    ensures OneSided(Unconfirm(s, k).rows) && (Exact(s.rows) ==> Exact(Unconfirm(s, k).rows))
    ensures Unconfirm(s, k).rows.Keys == s.rows.Keys
    ensures forall r | r != k.1 :: SameOn(s.rows, Unconfirm(s, k).rows, r)
  {
    hide Digest, Unconfirm;
    var rows := Unconfirm(s, k).rows;
    ghost var restored := s.rows[k].kind.Confirmed? && !(exists i | i in s.rows :: i != k && i.1 == k.1 && s.rows[i].kind.Confirmed?);
    forall j: Key ensures
      && (j in rows <==> j in s.rows)
      && (j in rows && j.1 != k.1 ==> rows[j] == s.rows[j])
      && (j in rows && j.1 == k.1 && j != k && s.rows[j].kind.Automatic? && restored ==> rows[j] == s.rows[j].(associated := true))
      && (j in rows && j.1 == k.1 && j != k && !(s.rows[j].kind.Automatic? && restored) ==> rows[j] == s.rows[j])
    {
      UnconfirmedRows(s, k, j);
    }
    UnconfirmedRows(s, k, k);
    assert HasConfirmed(rows, k.1) <==> exists i | i in s.rows :: i != k && i.1 == k.1 && s.rows[i].kind.Confirmed?;
    FlagsElsewhere(s.rows, rows, {k.1});
  }

  lemma UnconfirmSound(s: State, k: Key, stale: set<ReportId>)
    requires SoundBut(s, stale) && k in s.rows
    ensures SoundBut(Unconfirm(s, k), if CanUnconfirm(s.rows[k]) then stale - {k.1} else stale)
    ensures Exact(s.rows) ==> Exact(Unconfirm(s, k).rows)
  {
    if CanUnconfirm(s.rows[k]) {
      UnconfirmFlags(s, k);
      hide Judged, RecalculatedCache, OneSided, HasConfirmed, SetAutomatic, SameOn;
      RecalculateSound(s, Unconfirm(s, k).rows, {k.1}, stale);
    }
  }

  // ---------------------------------------------------------------- delete

  /** The mark is attached to the report and no other row of the report is counted. */
  ghost predicate Alone(rows: Table, m: MarkId, r: ReportId) {
    (m, r) in rows && forall j | j in rows && j.0 != m && j.1 == r :: !rows[j].associated
  }

  lemma DestroyedRows(rows: Table, m: MarkId, k: Key)
    ensures var rows' := DestroyRows(rows, m);
      && (k in rows' <==> k in rows && k.0 != m)
      && (k in rows' && rows[k].kind.Automatic? && Alone(rows, m, k.1) ==> rows'[k] == rows[k].(associated := true))
      && (k in rows' && !(rows[k].kind.Automatic? && Alone(rows, m, k.1)) ==> rows'[k] == rows[k])
  {
    var kept := WithoutMark(rows, m);
    assert k.1 in LinksOf(rows, m) <==> (m, k.1) in rows;
    assert (m, k.1) in rows ==> (HasAssociated(kept, k.1) <==> !Alone(rows, m, k.1));
  }

  /** Removing one mark keeps both invariants and changes no report the mark was not attached to. */
  lemma DestroyFlags(rows: Table, m: MarkId)
    requires OneSided(rows)
    ensures OneSided(DestroyRows(rows, m)) && (Exact(rows) ==> Exact(DestroyRows(rows, m)))
    ensures forall r | r !in LinksOf(rows, m) :: SameOn(rows, DestroyRows(rows, m), r)
  {
    hide DestroyRows;
    var rows' := DestroyRows(rows, m);
    forall k: Key
      ensures k in rows' <==> k in rows && k.0 != m
      ensures k in rows' && (m, k.1) !in rows ==> rows'[k] == rows[k]
      ensures k in rows' ==> rows'[k].kind == rows[k].kind
    {
      DestroyedRows(rows, m, k);
    }
    forall r | r in LinksOf(rows, m)
      ensures OneSidedOn(rows', r) && (Exact(rows) ==> ExactOn(rows', r))
    {
      DestroyFlagsOn(rows, m, r);
    }
    FlagsElsewhere(rows, rows', LinksOf(rows, m));
  }

  lemma DestroyFlagsOn(rows: Table, m: MarkId, r: ReportId)
    requires OneSided(rows) && (m, r) in rows
    ensures OneSidedOn(DestroyRows(rows, m), r) && (Exact(rows) ==> ExactOn(DestroyRows(rows, m), r))
  {
    hide DestroyRows;
    var rows' := DestroyRows(rows, m);
    ghost var idle := Alone(rows, m, r);
    forall k: Key | k.1 == r
      ensures k in rows' <==> k in rows && k.0 != m
      ensures k in rows' && rows[k].kind.Automatic? && idle ==> rows'[k] == rows[k].(associated := true)
      ensures k in rows' && !(rows[k].kind.Automatic? && idle) ==> rows'[k] == rows[k]
    {
      DestroyedRows(rows, m, k);
    }
  }

  lemma {:induction false} DestroyAllFlags(s: State, ms: seq<MarkId>)
    requires OneSided(s.rows)
    ensures OneSided(DestroyAll(s, ms).rows) && (Exact(s.rows) ==> Exact(DestroyAll(s, ms).rows))
    ensures DestroyAll(s, ms).rows.Keys <= s.rows.Keys
    ensures forall r | r !in Touched(s, ms) :: SameOn(s.rows, DestroyAll(s, ms).rows, r)
    ensures DestroyAll(s, ms).caches == s.caches && DestroyAll(s, ms).reports == s.reports
    ensures forall m | m in DestroyAll(s, ms).marks :: m in s.marks && DestroyAll(s, ms).marks[m] == s.marks[m]
    decreases |ms|
  {
    if ms != [] {
      hide OneSided, Exact, HasConfirmed, DestroyRows;
      var s1 := Destroy(s, ms[0]);
      DestroyFlags(s.rows, ms[0]);
      forall k | k in s1.rows ensures k in s.rows { DestroyedRows(s.rows, ms[0], k); }
      DestroyAllFlags(s1, ms[1..]);
      var rows' := DestroyAll(s1, ms[1..]).rows;
      forall r | r !in Touched(s, ms) ensures SameOn(s.rows, rows', r) {
        assert SameOn(s.rows, s1.rows, r) && SameOn(s1.rows, rows', r);
      }
    }
  }

  /** A batch of removals: the caches of the reports it touches are right when it ends. */
  lemma DeleteSound(s: State, ms: seq<MarkId>, stale: set<ReportId>)
    requires SoundBut(s, stale)
    ensures SoundBut(Delete(s, ms), stale - Touched(s, ms))
    ensures Exact(s.rows) ==> Exact(Delete(s, ms).rows)
  {
    hide Judged, RecalculatedCache, OneSided, HasConfirmed, DestroyAll, Exact, Touched;
    DestroyAllFlags(s, ms);
    DestroyAllWellFormed(s, ms);
    var s1 := DestroyAll(s, ms);
    forall r | r in s1.caches && r !in Touched(s, ms) ensures Untouched(s, s1, r) {
      assert SameOn(s.rows, s1.rows, r);
    }
    RefreshRestores(s, s1, Touched(s, ms), stale);
  }

  // ---------------------------------------------------------------- edits that rebuild the rows

  /** The reports whose only confirmed row is the edited mark's. */
  ghost predicate SoleConfirmation(rows: Table, m: MarkId, r: ReportId) {
    && (m, r) in rows && rows[(m, r)].kind.Confirmed?
    && forall k | k in rows && k.1 == r && k.0 != m :: !rows[k].kind.Confirmed?
  }

  ghost predicate Rebuilds(s: State, m: MarkId, mark: Mark) {
    m in s.marks && SameFamily(s.marks[m], mark) && Reconnects(s.marks[m], mark)
  }

  lemma RebuiltRow(s: State, m: MarkId, mark: Mark, k: Key)
    requires WellFormed(s) && Rebuilds(s, m, mark)
    ensures Edit(s, m, mark).marks == s.marks[m := mark] && Edit(s, m, mark).reports == s.reports
    ensures Edit(s, m, mark).caches.Keys == s.caches.Keys
    ensures var rows := Edit(s, m, mark).rows;
      && (k.0 == m ==> (k in rows <==> k.1 in s.reports && MarkLink(mark, s.reports[k.1]).Link?))
      && (k.0 != m ==> (k in rows <==> k in s.rows))
      && (k in rows && k.0 == m ==> rows[k] == Attach(MarkLink(mark, s.reports[k.1]), s.caches[k.1].confirmed, false))
      && (k in rows && k.0 != m ==> rows[k] == s.rows[k])
  {
    hide Digest, MarkLink, SameFamily, Reconnects;
  }

  /** A rebuilding edit keeps the one-sided invariant and refreshes every cache it touches. */
  lemma RebuildSound(s: State, m: MarkId, mark: Mark, stale: set<ReportId>)
    requires SoundBut(s, stale) && Rebuilds(s, m, mark)
    ensures SoundBut(Edit(s, m, mark), stale - (LinksOf(s.rows, m) + Linked(s, mark)))
  {
    hide Judged, MarkLink, SameFamily, Reconnects, ConnectRows, OneSided, HasConfirmed, UpdatedCache, Legible;
    var s1 := s.(marks := s.marks[m := mark]);
    var s2 := s1.(rows := ConnectRows(s1, m, None));
    var rs := LinksOf(s.rows, m) + Targets(s1, m);
    assert Targets(s1, m) == Linked(s, mark);
    SoundSteady(s, stale);
    ConnectKeepsOneSided(s, s1, m, None);
    ConnectWellFormed(s, s1, m, None);
    assert s2.rows == Edit(s, m, mark).rows;
    forall r | r in s2.caches && r !in rs ensures Untouched(s, s2, r) {
      forall k: Key | k.1 == r
        ensures k.0 != m ==> (k in s.rows <==> k in s2.rows) && (k in s.rows ==> s.rows[k] == s2.rows[k])
        ensures k.0 == m ==> k !in s.rows && k !in s2.rows
      {
        RebuiltRow(s, m, mark, k);
        assert k.0 == m ==> (k in s.rows <==> k.1 in LinksOf(s.rows, m));
      }
    }
    RefreshRestores(s, s2, rs, stale);
  }

  lemma RebuiltConfirmed(s: State, m: MarkId, mark: Mark, r: ReportId)
    requires WellFormed(s) && Rebuilds(s, m, mark)
    ensures HasConfirmed(Edit(s, m, mark).rows, r) <==> HasConfirmed(s.rows, r) && !SoleConfirmation(s.rows, m, r)
  {
    hide Digest, MarkLink, Edit, SameFamily, Reconnects;
    var rows := Edit(s, m, mark).rows;
    if HasConfirmed(rows, r) {
      var k :| k in rows && k.1 == r && rows[k].kind.Confirmed?;
      RebuiltRow(s, m, mark, k);
      assert k in s.rows && k.0 != m;
    }
    if HasConfirmed(s.rows, r) && !SoleConfirmation(s.rows, m, r) {
      var k :| k in s.rows && k.1 == r && s.rows[k].kind.Confirmed?;
      if k.0 == m {
        assert k == (m, r);
        var j :| j in s.rows && j.1 == r && j.0 != m && s.rows[j].kind.Confirmed?;
        RebuiltRow(s, m, mark, j);
      } else {
        RebuiltRow(s, m, mark, k);
      }
    }
  }

  /** A rebuilding edit keeps the exact invariant if and only if no report loses its only confirmation
      while an automatic row, another mark's or the rebuilt one, stays switched off there. */
  lemma RebuildExact(s: State, m: MarkId, mark: Mark)
    requires Steady(s) && Exact(s.rows) && Rebuilds(s, m, mark)
    ensures Exact(Edit(s, m, mark).rows) <==>
      forall r | r in s.reports && SoleConfirmation(s.rows, m, r) ::
        AutomaticOn(s.rows, r) == {} && !Recognised(s, mark, r)
  {
    hide Digest, MarkLink, Edit, SameFamily, Reconnects, HasConfirmed, ConfirmedOn, Legible;
    var rows := Edit(s, m, mark).rows;
    if forall r | r in s.reports && SoleConfirmation(s.rows, m, r) :: AutomaticOn(s.rows, r) == {} && !Recognised(s, mark, r) {
      forall k | k in rows
        ensures rows[k].associated <==> rows[k].kind.Confirmed? || (rows[k].kind.Automatic? && !HasConfirmed(rows, k.1))
      {
        RebuiltRow(s, m, mark, k);
        RebuiltConfirmed(s, m, mark, k.1);
        CachedConfirmed(s, k.1);
        if SoleConfirmation(s.rows, m, k.1) && k.0 != m {
          assert k !in AutomaticOn(s.rows, k.1);
        }
      }
    } else {
      var r :| r in s.reports && SoleConfirmation(s.rows, m, r) && !(AutomaticOn(s.rows, r) == {} && !Recognised(s, mark, r));
      RebuiltConfirmed(s, m, mark, r);
      CachedConfirmed(s, r);
      assert HasConfirmed(s.rows, r) by { assert s.rows[(m, r)].kind.Confirmed?; Witness(s.rows, (m, r)); }
      if Recognised(s, mark, r) {
        RebuiltRow(s, m, mark, (m, r));
      } else {
        var k :| k in AutomaticOn(s.rows, r);
        RebuiltRow(s, m, mark, k);
      }
    }
  }

  lemma Witness(rows: Table, k: Key)
    requires k in rows && rows[k].kind.Confirmed?
    ensures HasConfirmed(rows, k.1)
  {}

  // ---------------------------------------------------------------- a new threshold

  lemma RethresholdedConfirmed(rows: Table, m: MarkId, threshold: real, r: ReportId)
    ensures HasConfirmed(Rethresholded(rows, m, threshold), r) ==> HasConfirmed(rows, r)
    ensures r !in LinksOf(rows, m) ==> SameOn(rows, Rethresholded(rows, m, threshold), r)
  {
    var changed := Rethresholded(rows, m, threshold);
    if HasConfirmed(changed, r) {
      var k :| k in changed && k.1 == r && changed[k].kind.Confirmed?;
      Witness(rows, k);
    }
    if r !in LinksOf(rows, m) {
      forall k | k in rows && k.1 == r ensures changed[k] == rows[k] {
        assert k.0 == m ==> k.1 in LinksOf(rows, m);
      }
    }
  }

  /** A new threshold keeps both invariants, and touches only reports the mark is attached to. */
  lemma ThresholdFlags(rows: Table, m: MarkId, threshold: real)
    requires OneSided(rows)
    ensures UpdateAssociated(rows, m, threshold).Keys == rows.Keys
    ensures OneSided(UpdateAssociated(rows, m, threshold))
    ensures Exact(rows) ==> Exact(UpdateAssociated(rows, m, threshold))
    ensures forall r | r !in LinksOf(rows, m) :: SameOn(rows, UpdateAssociated(rows, m, threshold), r)
  {
    var changed := Rethresholded(rows, m, threshold);
    if changed != rows {
      var rows' := UpdateAssociated(rows, m, threshold);
      hide Passes;
      forall r | r !in LinksOf(rows, m) ensures SameOn(rows, rows', r) {
        RethresholdedConfirmed(rows, m, threshold, r);
      }
      forall r | r in LinksOf(rows, m) ensures OneSidedOn(rows', r) && (Exact(rows) ==> ExactOn(rows', r)) {
        ThresholdFlagsOn(rows, m, threshold, r);
      }
      FlagsElsewhere(rows, rows', LinksOf(rows, m));
    }
  }

  lemma ThresholdFlagsOn(rows: Table, m: MarkId, threshold: real, r: ReportId)
    requires OneSided(rows) && r in LinksOf(rows, m) && Rethresholded(rows, m, threshold) != rows
    ensures OneSidedOn(UpdateAssociated(rows, m, threshold), r)
    ensures Exact(rows) ==> ExactOn(UpdateAssociated(rows, m, threshold), r)
  {
    hide Passes;
    var changed := Rethresholded(rows, m, threshold);
    var rows' := UpdateAssociated(rows, m, threshold);
    RethresholdedConfirmed(rows, m, threshold, r);
    assert HasConfirmed(rows', r) <==> HasConfirmed(changed, r) by {
      if HasConfirmed(changed, r) {
        var k :| k in changed && k.1 == r && changed[k].kind.Confirmed?;
        Witness(rows', k);
      }
      if HasConfirmed(rows', r) {
        var k :| k in rows' && k.1 == r && rows'[k].kind.Confirmed?;
        Witness(changed, k);
      }
    }
  }

  /** An edit that keeps the rows attached: only tags, verdict or threshold may differ. */
  ghost predicate Retouches(s: State, m: MarkId, mark: Mark) {
    m in s.marks && SameFamily(s.marks[m], mark) && !Reconnects(s.marks[m], mark)
  }

  ghost predicate Rethresholds(s: State, m: MarkId, mark: Mark) {
    Retouches(s, m, mark) && mark.UnsafeMark? && s.marks[m].threshold != mark.threshold
  }

  ghost function WithThreshold(s: State, m: MarkId, mark: Mark): State
    requires mark.UnsafeMark?
  {
    s.(marks := s.marks[m := mark], rows := UpdateAssociated(s.rows, m, mark.threshold))
  }

  lemma ThresholdEdit(s: State, m: MarkId, mark: Mark)
    requires WellFormed(s) && OneSided(s.rows) && Rethresholds(s, m, mark)
    ensures WellFormed(WithThreshold(s, m, mark))
    ensures Edit(s, m, mark) == UpdateAll(WithThreshold(s, m, mark), LinksOf(s.rows, m))
    ensures forall r | r !in LinksOf(s.rows, m) :: Untouched(s, WithThreshold(s, m, mark), r)
  {
    hide Digest, OneSided, HasConfirmed, UpdateAssociated, Exact, SameFamily, Reconnects, CountedOn, AutomaticOn, ActiveOn;
    ThresholdFlags(s.rows, m, mark.threshold);
    var s1 := WithThreshold(s, m, mark);
    forall r | r !in LinksOf(s.rows, m) ensures Untouched(s, s1, r) {
      assert SameOn(s.rows, s1.rows, r);
      forall k | k in s.rows && k.1 == r ensures k.0 != m {
        assert k.0 == m ==> k.1 in LinksOf(s.rows, m);
      }
    }
  }

  lemma ThresholdSound(s: State, m: MarkId, mark: Mark, stale: set<ReportId>)
    requires SoundBut(s, stale) && Rethresholds(s, m, mark)
    ensures SoundBut(Edit(s, m, mark), stale - LinksOf(s.rows, m))
    ensures Exact(s.rows) ==> Exact(Edit(s, m, mark).rows)
  {
    hide Judged, OneSided, HasConfirmed, UpdateAssociated, Exact, SameFamily, Reconnects, Edit, Untouched, SameOn;
    ThresholdFlags(s.rows, m, mark.threshold);
    ThresholdEdit(s, m, mark);
    RefreshRestores(s, WithThreshold(s, m, mark), LinksOf(s.rows, m), stale);
  }

  // ---------------------------------------------------------------- new tags, a new verdict

  /** With the same rows, a mark's new verdict or tags move only the matching field of a cache. */
  lemma RelabelledCache(s: State, m: MarkId, mark: Mark, r: ReportId)
    requires WellFormed(s) && m in s.marks && !mark.UnknownMark? && !s.marks[m].UnknownMark?
    ensures var c := RecalculatedCache(s.marks, s.rows, r);
      var c' := RecalculatedCache(s.marks[m := mark], s.rows, r);
      && c' == c.(verdict := c'.verdict, labels := c'.labels)
      && (s.marks[m].verdict == mark.verdict ==> c'.verdict == c.verdict)
      && (s.marks[m].tags == mark.tags ==> c'.labels == c.labels)
  {
    var marks := s.marks[m := mark];
    var counted := CountedOn(s.rows, r);
    if s.marks[m].verdict == mark.verdict {
      assert Voices(marks, s.rows, counted) == Voices(s.marks, s.rows, counted);
    }
    if s.marks[m].tags == mark.tags {
      TallyFrame(s.marks, s.rows, marks, s.rows, counted);
    }
  }

  lemma RelabelledState(s: State, m: MarkId, mark: Mark)
    requires WellFormed(s) && Retouches(s, m, mark) && !Rethresholds(s, m, mark) && !mark.UnknownMark?
    ensures var s' := Edit(s, m, mark);
      s'.marks == s.marks[m := mark] && s'.rows == s.rows && s'.reports == s.reports && s'.caches.Keys == s.caches.Keys
  {
    hide UpdatedCache, SameFamily, HasConfirmed, LinksOf;
  }

  lemma RelabelledFields(s: State, m: MarkId, mark: Mark, r: ReportId)
    requires WellFormed(s) && Retouches(s, m, mark) && !Rethresholds(s, m, mark) && !mark.UnknownMark? && r in s.caches
    ensures var s' := Edit(s, m, mark);
      && r in s'.caches
      && (r !in LinksOf(s.rows, m) ==> s'.caches[r] == s.caches[r])
      && (r in LinksOf(s.rows, m) ==>
            s'.caches[r] == s.caches[r].(
              verdict := if s.marks[m].verdict != mark.verdict then UpdatedCache(s.marks[m := mark], s.rows, r).verdict else s.caches[r].verdict,
              labels := if s.marks[m].tags != mark.tags then UpdatedCache(s.marks[m := mark], s.rows, r).labels else s.caches[r].labels))
  {
    hide UpdatedCache, SameFamily, HasConfirmed, LinksOf;
  }

  /** The fields that are not rewritten keep a stale cache stale; a right one is made right again. */
  lemma RelabelJudged(s: State, m: MarkId, mark: Mark, r: ReportId, stale: set<ReportId>)
    requires SoundBut(s, stale) && Retouches(s, m, mark) && !Rethresholds(s, m, mark) && !mark.UnknownMark? && r in s.caches
    ensures Judged(s.marks[m := mark], s.rows, Edit(s, m, mark).caches[r], r, r in stale)
  {
    hide RecalculatedCache, UpdatedCache, Edit, HasConfirmed, LinksOf;
    RelabelledFields(s, m, mark, r);
    assert Judged(s.marks, s.rows, s.caches[r], r, r in stale);
    if r !in stale {
      RelabelledCache(s, m, mark, r);
      AlgorithmsAgree(s.marks[m := mark], s.rows, r);
      if r !in LinksOf(s.rows, m) {
        var s1 := s.(marks := s.marks[m := mark]);
        forall k | k in s.rows && k.1 == r ensures k.0 != m { LinkWitness(s.rows, k); }
        UntouchedReport(s, s1, r);
      }
    }
  }

  lemma LinkWitness(rows: Table, k: Key)
    requires k in rows
    ensures k.1 in LinksOf(rows, k.0)
  {}

  lemma UnknownRelabel(s: State, m: MarkId, mark: Mark)
    requires WellFormed(s) && Retouches(s, m, mark) && mark.UnknownMark?
    ensures Edit(s, m, mark) == s
  {
    hide UpdatedCache, HasConfirmed, UpdateAll, UpdateVerdicts, UpdateLabels, ConnectRows, UpdateAssociated;
    assert s.marks[m := mark] == s.marks;
  }

  /** An edit of tags and verdict refreshes only these fields, and that is enough. */
  lemma RelabelSound(s: State, m: MarkId, mark: Mark, stale: set<ReportId>)
    requires SoundBut(s, stale) && Retouches(s, m, mark) && !Rethresholds(s, m, mark)
    ensures SoundBut(Edit(s, m, mark), stale) && Edit(s, m, mark).rows == s.rows
  {
    hide Judged, Edit, HasConfirmed, LinksOf;
    if mark.UnknownMark? {
      UnknownRelabel(s, m, mark);
    } else {
      RelabelledState(s, m, mark);
      forall r | r in s.caches ensures Judged(s.marks[m := mark], s.rows, Edit(s, m, mark).caches[r], r, r in stale) {
        RelabelJudged(s, m, mark, r, stale);
      }
    }
  }
}
