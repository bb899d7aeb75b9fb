/** What the operations on marks keep: the association invariants and the coherence of caches. */
module Invariants {
  import opened Verdicts
  import opened Associations
  import opened Machine

  /** The flag of a row is a function of the types on its report. */
  ghost predicate Exact(rows: Table) {
    forall k | k in rows ::
      rows[k].associated <==>
        rows[k].kind.Confirmed? || (rows[k].kind.Automatic? && !HasConfirmed(rows, k.1))
  }

  /** The half of it that survives every operation: nothing is counted that should not be. */
  ghost predicate OneSided(rows: Table) {
    forall k | k in rows ::
      && (rows[k].kind.Confirmed? ==> rows[k].associated)
      && (rows[k].associated ==>
            rows[k].kind.Confirmed? || (rows[k].kind.Automatic? && !HasConfirmed(rows, k.1)))
  }

  /** Every cache is what a recalculation from the current rows would give. */
  ghost predicate Coherent(s: State)
    requires WellFormed(s)
  {
    forall r | r in s.caches :: s.caches[r] == RecalculatedCache(s.marks, s.rows, r)
  }

  ghost predicate Sound(s: State) {
    WellFormed(s) && OneSided(s.rows) && Coherent(s)
  }

  /** A cache that counts more rows than there are, with both counters of row types still right. */
  ghost predicate Overcounts(rows: Table, c: Cache, r: ReportId) {
    c.confirmed == |ConfirmedOn(rows, r)| && c.automatic == |AutomaticOn(rows, r)| && c.total > |CountedOn(rows, r)|
  }

  ghost predicate Judged(marks: map<MarkId, Mark>, rows: Table, c: Cache, r: ReportId, stale: bool)
    requires Closed(marks, rows, rows.Keys)
  {
    if stale then Overcounts(rows, c, r) else c == RecalculatedCache(marks, rows, r)
  }

  /** A sound state, except that the caches of exactly the given reports count too much. */
  ghost predicate SoundBut(s: State, stale: set<ReportId>) {
    && WellFormed(s) && OneSided(s.rows)
    && forall r | r in s.caches :: Judged(s.marks, s.rows, s.caches[r], r, r in stale)
  }

  /** What every state has, stale caches or not: the one-sided invariant, and right counters of confirmed
      and automatic rows in every cache. */
  ghost predicate Steady(s: State) {
    && WellFormed(s) && OneSided(s.rows)
    && forall r | r in s.caches ::
         s.caches[r].confirmed == |ConfirmedOn(s.rows, r)| && s.caches[r].automatic == |AutomaticOn(s.rows, r)|
  }

  lemma SoundSteady(s: State, stale: set<ReportId>)
    requires SoundBut(s, stale)
    ensures Steady(s)
  {
    hide Consensus, Tally;
    forall r | r in s.caches
      ensures s.caches[r].confirmed == |ConfirmedOn(s.rows, r)| && s.caches[r].automatic == |AutomaticOn(s.rows, r)|
    {
      assert (set k | k in CountedOn(s.rows, r) && s.rows[k].kind.Confirmed?) == ConfirmedOn(s.rows, r);
      assert Judged(s.marks, s.rows, s.caches[r], r, r in stale);
    }
  }

  lemma OvercountIsWrong(marks: map<MarkId, Mark>, rows: Table, c: Cache, r: ReportId)
    requires Closed(marks, rows, rows.Keys) && Overcounts(rows, c, r)
    ensures c != RecalculatedCache(marks, rows, r)
  {
    hide Consensus, Tally, Voices, CountedOn;
  }

  /** The stale caches are exactly those a recalculation would change. */
  lemma StaleExactly(s: State, stale: set<ReportId>)
    requires SoundBut(s, stale)
    ensures forall r | r in s.caches :: s.caches[r] == RecalculatedCache(s.marks, s.rows, r) <==> r !in stale
    ensures Sound(s) <==> forall r | r in stale :: r !in s.caches
  {
    hide RecalculatedCache, Overcounts, OneSided;
    forall r | r in s.caches ensures s.caches[r] == RecalculatedCache(s.marks, s.rows, r) <==> r !in stale {
      if r in stale {
        OvercountIsWrong(s.marks, s.rows, s.caches[r], r);
      }
    }
  }

  lemma SoundIsNoneStale(s: State)
    ensures Sound(s) <==> SoundBut(s, {})
  {
    hide RecalculatedCache, Overcounts, OneSided;
  }

  // ---------------------------------------------------------------- the cache algorithms agree

  /** A cache depends on nothing but the contributing rows and their marks. */
  lemma DigestFrame(marks: map<MarkId, Mark>, rows: Table, marks': map<MarkId, Mark>, rows': Table, keys: set<Key>, n: nat)
    requires Closed(marks, rows, keys) && Closed(marks', rows', keys)
    requires forall k | k in keys :: rows[k] == rows'[k] && marks[k.0] == marks'[k.0]
    ensures Digest(marks, rows, keys, n) == Digest(marks', rows', keys, n)
  {
    assert Voices(marks, rows, keys) == Voices(marks', rows', keys);
    TallyFrame(marks, rows, marks', rows', keys);
    assert (set k | k in keys && rows[k].kind.Confirmed?) == (set k | k in keys && rows'[k].kind.Confirmed?);
  }

  lemma TallyFrame(marks: map<MarkId, Mark>, rows: Table, marks': map<MarkId, Mark>, rows': Table, keys: set<Key>)
    requires Closed(marks, rows, keys) && Closed(marks', rows', keys)
    requires forall k | k in keys :: LabelsOf(marks[k.0], rows[k]) == LabelsOf(marks'[k.0], rows'[k])
    ensures Tally(marks, rows, keys) == Tally(marks', rows', keys)
  {
    assert forall l :: Carriers(marks, rows, keys, l) == Carriers(marks', rows', keys, l);
  }

  /** Adding one row to a digest is what every loop and the incremental step compute. */
  lemma DigestAdds(marks: map<MarkId, Mark>, rows: Table, keys: set<Key>, n: nat, k: Key)
    requires Closed(marks, rows, keys + {k}) && k !in keys
    ensures Digest(marks, rows, keys + {k}, n) == AddRow(Digest(marks, rows, keys, n), marks[k.0], rows[k])
  {
    var all := keys + {k};
    assert Voices(marks, rows, all) == Voices(marks, rows, keys) + {VoiceOf(marks[k.0])};
    ConsensusGrows(Voices(marks, rows, keys), VoiceOf(marks[k.0]));
    var confirmed := set j | j in keys && rows[j].kind.Confirmed?;
    assert (set j | j in all && rows[j].kind.Confirmed?) == if rows[k].kind.Confirmed? then confirmed + {k} else confirmed;
    TallyAdds(marks, rows, keys, k);
  }

  lemma TallyAdds(marks: map<MarkId, Mark>, rows: Table, keys: set<Key>, k: Key)
    requires Closed(marks, rows, keys + {k}) && k !in keys
    ensures Tally(marks, rows, keys + {k}) == AddLabels(Tally(marks, rows, keys), LabelsOf(marks[k.0], rows[k]))
  {
    hide LabelsOf;
    var mine := LabelsOf(marks[k.0], rows[k]);
    var left, right := Tally(marks, rows, keys + {k}), AddLabels(Tally(marks, rows, keys), mine);
    assert left.Keys == right.Keys;
    forall l | l in left ensures left[l] == right[l] {
      CarriersAdd(marks, rows, keys, k, l);
    }
  }

  lemma CarriersAdd(marks: map<MarkId, Mark>, rows: Table, keys: set<Key>, k: Key, l: string)
    requires Closed(marks, rows, keys + {k}) && k !in keys
    ensures |Carriers(marks, rows, keys + {k}, l)| ==
      |Carriers(marks, rows, keys, l)| + if l in LabelsOf(marks[k.0], rows[k]) then 1 else 0
    ensures l !in Tally(marks, rows, keys) ==> |Carriers(marks, rows, keys, l)| == 0
  {
    hide LabelsOf;
    var was := Carriers(marks, rows, keys, l);
    assert Carriers(marks, rows, keys + {k}, l) == if l in LabelsOf(marks[k.0], rows[k]) then was + {k} else was;
    if l !in Tally(marks, rows, keys) {
      assert was == {};
    }
  }

  /** update_all filters on the flag, the recalculation on the type and then on the flag: the same
      caches as long as the one-sided invariant holds. */
  lemma AlgorithmsAgree(marks: map<MarkId, Mark>, rows: Table, r: ReportId)
    requires Closed(marks, rows, rows.Keys) && OneSided(rows)
    ensures UpdatedCache(marks, rows, r) == RecalculatedCache(marks, rows, r)
  {
    assert ActiveOn(rows, r) == CountedOn(rows, r);
  }

  ghost predicate Untouched(s: State, s': State, r: ReportId) {
    && (forall k: Key | k.1 == r :: k in s.rows <==> k in s'.rows)
    && (forall k | k in s.rows && k in s'.rows && k.1 == r ::
          s.rows[k] == s'.rows[k] && k.0 in s.marks && k.0 in s'.marks && s.marks[k.0] == s'.marks[k.0])
  }

  /** A report whose rows and marks did not change keeps its recalculated cache. */
  lemma UntouchedReport(s: State, s': State, r: ReportId)
    requires WellFormed(s) && WellFormed(s') && Untouched(s, s', r)
    ensures RecalculatedCache(s.marks, s.rows, r) == RecalculatedCache(s'.marks, s'.rows, r)
    ensures forall c :: Overcounts(s.rows, c, r) <==> Overcounts(s'.rows, c, r)
  {
    assert CountedOn(s.rows, r) == CountedOn(s'.rows, r);
    assert AutomaticOn(s.rows, r) == AutomaticOn(s'.rows, r);
    assert ConfirmedOn(s.rows, r) == ConfirmedOn(s'.rows, r);
    DigestFrame(s.marks, s.rows, s'.marks, s'.rows, CountedOn(s.rows, r), |AutomaticOn(s.rows, r)|);
  }

  /** Refreshing the caches of every touched report, by either algorithm, leaves only those stale that
      were stale and not refreshed. */
  lemma RefreshRestores(s: State, s1: State, rs: set<ReportId>, stale: set<ReportId>)
    requires WellFormed(s) && WellFormed(s1) && OneSided(s1.rows)
    requires forall r | r in s1.caches && r !in rs ::
      Judged(s.marks, s.rows, s1.caches[r], r, r in stale) && Untouched(s, s1, r)
    ensures SoundBut(UpdateAll(s1, rs), stale - rs) && SoundBut(Recalculate(s1, rs), stale - rs)
  {
    hide RecalculatedCache, UpdatedCache, Overcounts;
    forall r | r in s1.caches
      ensures Judged(s1.marks, s1.rows, UpdateAll(s1, rs).caches[r], r, r in stale - rs)
      ensures Recalculate(s1, rs).caches[r] == UpdateAll(s1, rs).caches[r]
    {
      if r in rs {
        AlgorithmsAgree(s1.marks, s1.rows, r);
      } else {
        UntouchedReport(s, s1, r);
      }
    }
  }

  /** The cached number the operations branch on tells whether the report has a confirmed mark. */
  lemma CachedConfirmed(s: State, r: ReportId)
    requires Steady(s) && r in s.caches
    ensures s.caches[r].confirmed == 0 <==> !HasConfirmed(s.rows, r)
  {
    if HasConfirmed(s.rows, r) {
      var k :| k in s.rows && k.1 == r && s.rows[k].kind.Confirmed?;
      assert k in ConfirmedOn(s.rows, r);
    } else {
      assert ConfirmedOn(s.rows, r) == {};
    }
  }

  // ---------------------------------------------------------------- one report at a time

  ghost predicate SameOn(rows: Table, rows': Table, r: ReportId) {
    && (forall k: Key | k.1 == r :: k in rows <==> k in rows')
    && (forall k | k in rows && k in rows' && k.1 == r :: rows[k] == rows'[k])
  }

  ghost predicate ExactOn(rows: Table, r: ReportId) {
    forall k | k in rows && k.1 == r ::
      rows[k].associated <==>
        rows[k].kind.Confirmed? || (rows[k].kind.Automatic? && !HasConfirmed(rows, r))
  }

  ghost predicate OneSidedOn(rows: Table, r: ReportId) {
    forall k | k in rows && k.1 == r ::
      && (rows[k].kind.Confirmed? ==> rows[k].associated)
      && (rows[k].associated ==>
            rows[k].kind.Confirmed? || (rows[k].kind.Automatic? && !HasConfirmed(rows, r)))
  }

  /** Both invariants speak about one report at a time, so an operation answers only for the reports
      whose rows it changes. */
  lemma FlagsElsewhere(rows: Table, rows': Table, rs: set<ReportId>)
    requires OneSided(rows)
    requires forall r | r !in rs :: SameOn(rows, rows', r)
    requires forall r | r in rs :: OneSidedOn(rows', r)
    ensures OneSided(rows')
    ensures Exact(rows) && (forall r | r in rs :: ExactOn(rows', r)) ==> Exact(rows')
  {
    forall k | k in rows' && k.1 !in rs
      ensures k in rows && rows[k] == rows'[k] && (HasConfirmed(rows, k.1) <==> HasConfirmed(rows', k.1))
    {
      assert SameOn(rows, rows', k.1);
    }
  }

  /** New rows on some reports, the same marks, and a recalculation of those reports. */
  lemma RecalculateSound(s: State, rows: Table, rs: set<ReportId>, stale: set<ReportId>)
    requires SoundBut(s, stale) && OneSided(rows) && rows.Keys <= s.rows.Keys
    requires forall r | r !in rs :: SameOn(s.rows, rows, r)
    ensures WellFormed(s.(rows := rows)) && SoundBut(Recalculate(s.(rows := rows), rs), stale - rs)
  {
    hide Judged, HasConfirmed, OneSided;
    var s1 := s.(rows := rows);
    forall r | r in s1.caches && r !in rs ensures Untouched(s, s1, r) {
      assert SameOn(s.rows, rows, r);
    }
    RefreshRestores(s, s1, rs, stale);
  }
}
