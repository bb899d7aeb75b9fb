/** Creation, population and report arrival: the operations that insert rows. */
module Insertion {
  import opened Options
  import opened Associations
  import opened Machine
  import opened Invariants

  // ---------------------------------------------------------------- creation

  /** Creation from a report that the new mark does recognise. */
  ghost predicate Recognised(s: State, mark: Mark, prime: ReportId) {
    prime in s.reports && MarkLink(mark, s.reports[prime]).Link? && MarkLink(mark, s.reports[prime]).similar
  }

  lemma CreateKeepsOneSided(s: State, m: MarkId, mark: Mark, prime: ReportId)
    requires Steady(s) && m !in s.marks
    ensures OneSided(Create(s, m, mark, prime).rows)
  {
    ConnectKeepsOneSided(s, s.(marks := s.marks[m := mark]), m, Some(prime));
  }

  /** The rows after connecting a mark: those of other marks keep their types, and lose the flag at most. */
  lemma ConnectedRow(s: State, m: MarkId, prime: Option<ReportId>, k: Key)
    requires m in s.marks && s.reports.Keys <= s.caches.Keys
    ensures var rows := ConnectRows(s, m, prime);
      && (k in rows && k.0 != m ==> k in s.rows && rows[k].kind == s.rows[k].kind)
      && (k in rows && k.0 != m ==>
            (rows[k].associated <==> s.rows[k].associated && !(prime == Some(k.1) && rows[k].kind.Automatic?)))
      && (k in rows && k.0 == m ==> k.1 in s.reports && !rows[k].kind.Unconfirmed?)
      && (k in rows && k.0 == m && rows[k].kind.Confirmed? ==> prime == Some(k.1) && rows[k].associated)
      && (k in rows && k.0 == m && rows[k].associated && !rows[k].kind.Confirmed? ==>
            rows[k].kind.Automatic? && prime != Some(k.1) && s.caches[k.1].confirmed == 0)
  {
    hide MarkLink;
  }

  /** Connecting a mark, fresh or not: the cached numbers may still count the dropped rows, which
      only makes the connection more careful. */
  lemma ConnectKeepsOneSided(s: State, s1: State, m: MarkId, prime: Option<ReportId>)
    requires Steady(s) && m in s1.marks && s1.reports == s.reports && s1.rows == s.rows && s1.caches == s.caches
    ensures OneSided(ConnectRows(s1, m, prime))
  {
    hide MarkLink, ConfirmedOn, AutomaticOn, Legible, ConnectRows;
    var rows := ConnectRows(s1, m, prime);
    forall k | k in rows
      ensures rows[k].kind.Confirmed? ==> rows[k].associated
      ensures rows[k].associated ==> rows[k].kind.Confirmed? || (rows[k].kind.Automatic? && !HasConfirmed(rows, k.1))
    {
      ConnectedRow(s1, m, prime, k);
      if rows[k].associated && !rows[k].kind.Confirmed? {
        if k.0 == m {
          CachedConfirmed(s, k.1);
        }
        forall j | j in rows && j.1 == k.1 ensures !rows[j].kind.Confirmed? {
          ConnectedRow(s1, m, prime, j);
        }
      }
    }
  }

  /** The rows after a creation, one by one. */
  lemma CreatedRow(s: State, m: MarkId, mark: Mark, prime: ReportId, k: Key)
    requires WellFormed(s) && m !in s.marks
    ensures Create(s, m, mark, prime).marks == s.marks[m := mark] && Create(s, m, mark, prime).reports == s.reports
    ensures var rows := Create(s, m, mark, prime).rows;
      && (k.0 == m ==> (k in rows <==> k.1 in s.reports && MarkLink(mark, s.reports[k.1]).Link?))
      && (k.0 != m ==> (k in rows <==> k in s.rows))
      && (k in rows && k.0 == m ==>
            rows[k] == Attach(MarkLink(mark, s.reports[k.1]), s.caches[k.1].confirmed, k.1 == prime))
      && (k in rows && k.0 != m ==>
            rows[k] == if k.1 == prime && s.rows[k].kind.Automatic? then s.rows[k].(associated := false) else s.rows[k])
  {
    hide Digest, MarkLink, Coherent;
  }

  lemma CreatedConfirmed(s: State, m: MarkId, mark: Mark, prime: ReportId, r: ReportId)
    requires WellFormed(s) && m !in s.marks
    ensures HasConfirmed(Create(s, m, mark, prime).rows, r) <==>
      HasConfirmed(s.rows, r) || (r == prime && Recognised(s, mark, prime))
  {
    hide Digest, MarkLink, Coherent, Create;
    var rows := Create(s, m, mark, prime).rows;
    if HasConfirmed(rows, r) {
      var k :| k in rows && k.1 == r && rows[k].kind.Confirmed?;
      CreatedRow(s, m, mark, prime, k);
    }
    if HasConfirmed(s.rows, r) {
      var k :| k in s.rows && k.1 == r && s.rows[k].kind.Confirmed?;
      CreatedRow(s, m, mark, prime, k);
    }
    if r == prime && Recognised(s, mark, prime) {
      CreatedRow(s, m, mark, prime, (m, prime));
    }
  }

  /** Creation keeps the exact invariant if and only if the report it starts from is recognised, or
      had a confirmed mark already, or had no automatic rows to switch off. */
  lemma CreateExact(s: State, m: MarkId, mark: Mark, prime: ReportId)
    requires Steady(s) && Exact(s.rows) && m !in s.marks
    ensures Exact(Create(s, m, mark, prime).rows) <==>
      Recognised(s, mark, prime) || HasConfirmed(s.rows, prime) || AutomaticOn(s.rows, prime) == {}
  {
    hide Digest, MarkLink, Coherent, Create, HasConfirmed;
    var rows := Create(s, m, mark, prime).rows;
    if Recognised(s, mark, prime) || HasConfirmed(s.rows, prime) || AutomaticOn(s.rows, prime) == {} {
      forall k | k in rows
        ensures rows[k].associated <==>
          rows[k].kind.Confirmed? || (rows[k].kind.Automatic? && !HasConfirmed(rows, k.1))
      {
        CreatedRow(s, m, mark, prime, k);
        CreatedConfirmed(s, m, mark, prime, k.1);
        if k.0 == m {
          CachedConfirmed(s, k.1);
        } else if k.1 == prime && s.rows[k].kind.Automatic? {
          assert k in AutomaticOn(s.rows, prime);
        }
      }
    } else {
      var k :| k in AutomaticOn(s.rows, prime);
      CreatedRow(s, m, mark, prime, k);
      CreatedConfirmed(s, m, mark, prime, prime);
    }
  }

  /** Reports that are neither linked nor prime, or a prime one with nothing to switch off. */
  lemma CreateUntouched(s: State, m: MarkId, mark: Mark, prime: ReportId, r: ReportId)
    requires WellFormed(s) && m !in s.marks && r in s.reports && !MarkLink(mark, s.reports[r]).Link?
    requires r != prime || AutomaticOn(s.rows, r) * ActiveOn(s.rows, r) == {}
    ensures Untouched(s, Create(s, m, mark, prime), r)
  {
    hide Digest, MarkLink, Coherent, Create, HasConfirmed;
    var s' := Create(s, m, mark, prime);
    CreatedRow(s, m, mark, prime, (m, r));
    forall k: Key | k.1 == r
      ensures k in s.rows <==> k in s'.rows
      ensures k in s.rows ==> s.rows[k] == s'.rows[k] && k.0 != m
    {
      CreatedRow(s, m, mark, prime, k);
      if k in s.rows && r == prime && s.rows[k].kind.Automatic? {
        assert k !in AutomaticOn(s.rows, r) * ActiveOn(s.rows, r);
      }
    }
  }

  /** The report whose cache a creation leaves behind: the mark was created from it but does not link to
      it, and some of its counted rows were switched off. */
  ghost function Forgotten(s: State, mark: Mark, prime: ReportId): set<ReportId> {
    if prime in s.reports && !MarkLink(mark, s.reports[prime]).Link? && AutomaticOn(s.rows, prime) * ActiveOn(s.rows, prime) != {}
    then {prime} else {}
  }

  lemma ForgottenCounts(s: State, m: MarkId, mark: Mark, prime: ReportId)
    requires WellFormed(s) && OneSided(s.rows) && m !in s.marks && Forgotten(s, mark, prime) == {prime}
    ensures var rows := Create(s, m, mark, prime).rows;
      && CountedOn(rows, prime) < CountedOn(s.rows, prime)
      && ConfirmedOn(rows, prime) == ConfirmedOn(s.rows, prime) && AutomaticOn(rows, prime) == AutomaticOn(s.rows, prime)
  {
    hide Digest, MarkLink, Create, HasConfirmed;
    var rows := Create(s, m, mark, prime).rows;
    var k :| k in AutomaticOn(s.rows, prime) * ActiveOn(s.rows, prime);
    forall j: Key | j.1 == prime
      ensures j in rows <==> j in s.rows
      ensures j in rows ==> rows[j].kind == s.rows[j].kind && (rows[j].associated ==> s.rows[j].associated)
    {
      CreatedRow(s, m, mark, prime, j);
    }
    CreatedRow(s, m, mark, prime, k);
    assert k in CountedOn(s.rows, prime) && k !in CountedOn(rows, prime);
  }

  lemma ProperSubset<T>(a: set<T>, b: set<T>)
    requires a < b
    ensures |a| < |b|
  {
    assert b == a + (b - a);
  }

  /** The forgotten cache keeps counting rows that the creation has just switched off. */
  lemma CreateForgets(s: State, m: MarkId, mark: Mark, prime: ReportId, stale: bool)
    requires WellFormed(s) && OneSided(s.rows) && m !in s.marks && Forgotten(s, mark, prime) == {prime}
    requires Judged(s.marks, s.rows, s.caches[prime], prime, stale)
    ensures Overcounts(Create(s, m, mark, prime).rows, s.caches[prime], prime)
  {
    hide Create, MarkLink, Voices, Tally, HasConfirmed;
    ForgottenCounts(s, m, mark, prime);
    ProperSubset(CountedOn(Create(s, m, mark, prime).rows, prime), CountedOn(s.rows, prime));
    assert (set k | k in CountedOn(s.rows, prime) && s.rows[k].kind.Confirmed?) == ConfirmedOn(s.rows, prime);
  }

  /** The tables right after connecting the new mark, before any cache is refreshed. */
  ghost function Connected(s: State, m: MarkId, mark: Mark, prime: ReportId): State
    requires WellFormed(s)
  {
    var s1 := s.(marks := s.marks[m := mark]);
    s1.(rows := ConnectRows(s1, m, Some(prime)))
  }

  ghost function Linked(s: State, mark: Mark): set<ReportId> {
    set r | r in s.reports && MarkLink(mark, s.reports[r]).Link?
  }

  lemma ConnectedFacts(s: State, m: MarkId, mark: Mark, prime: ReportId)
    requires WellFormed(s) && m !in s.marks
    ensures WellFormed(Connected(s, m, mark, prime))
    ensures Create(s, m, mark, prime) == UpdateAll(Connected(s, m, mark, prime), Linked(s, mark))
    ensures Connected(s, m, mark, prime).caches == s.caches
  {
    var s1 := s.(marks := s.marks[m := mark]);
    ConnectWellFormed(s, s1, m, Some(prime));
    hide MarkLink, ConnectRows, UpdatedCache;
  }

  /** If the forgotten cache were refreshed with the others, none of the touched ones would be stale. */
  lemma CreateRefreshes(s: State, m: MarkId, mark: Mark, prime: ReportId, stale: set<ReportId>)
    requires SoundBut(s, stale) && m !in s.marks && WellFormed(Connected(s, m, mark, prime))
    ensures var rs := Linked(s, mark) + Forgotten(s, mark, prime);
      SoundBut(UpdateAll(Connected(s, m, mark, prime), rs), stale - rs)
  {
    hide Judged, MarkLink, ConnectRows, OneSided, HasConfirmed, AutomaticOn, ActiveOn, CountedOn, UpdatedCache, Forgotten;
    var s2, rs := Connected(s, m, mark, prime), Linked(s, mark) + Forgotten(s, mark, prime);
    SoundSteady(s, stale);
    CreateKeepsOneSided(s, m, mark, prime);
    forall r | r in s.caches && r !in rs ensures Untouched(s, s2, r) {
      UnlinkedUntouched(s, m, mark, prime, r);
    }
    RefreshRestores(s, s2, rs, stale);
  }

  /** After a creation exactly these caches are stale: those that were and were not refreshed, and the
      forgotten one. */
  lemma CreateSound(s: State, m: MarkId, mark: Mark, prime: ReportId, stale: set<ReportId>)
    requires SoundBut(s, stale) && m !in s.marks
    ensures SoundBut(Create(s, m, mark, prime), stale - Linked(s, mark) + Forgotten(s, mark, prime))
  {
    hide Judged, MarkLink, OneSided, HasConfirmed, UpdatedCache, Forgotten, Create, Connected, Linked, Closed, Legible;
    ConnectedFacts(s, m, mark, prime);
    CreateRefreshes(s, m, mark, prime, stale);
    var s2, linked, forgotten := Connected(s, m, mark, prime), Linked(s, mark), Forgotten(s, mark, prime);
    var all, made := UpdateAll(s2, linked + forgotten), Create(s, m, mark, prime);
    CachesWellFormed(s2, made);
    forall r | r in made.caches ensures Judged(made.marks, made.rows, made.caches[r], r, r in stale - linked + forgotten) {
      if r in forgotten {
        ForgottenPrime(s, mark, prime, r);
        CreateForgets(s, m, mark, prime, prime in stale);
        OvercountsIsJudged(made, r);
      } else {
        assert made.caches[r] == all.caches[r];
        assert Judged(all.marks, all.rows, all.caches[r], r, r in stale - (linked + forgotten));
      }
    }
  }

  lemma CachesWellFormed(s: State, s': State)
    requires WellFormed(s) && s' == s.(caches := s'.caches) && s'.caches.Keys == s.caches.Keys
    ensures WellFormed(s')
  {}

  lemma OvercountsIsJudged(s: State, r: ReportId)
    requires WellFormed(s) && r in s.caches && Overcounts(s.rows, s.caches[r], r)
    ensures Judged(s.marks, s.rows, s.caches[r], r, true)
  {}

  lemma ForgottenPrime(s: State, mark: Mark, prime: ReportId, r: ReportId)
    requires r in Forgotten(s, mark, prime)
    ensures r == prime && Forgotten(s, mark, prime) == {prime} && prime in s.reports && prime !in Linked(s, mark)
  {
    hide MarkLink;
  }

  lemma UnlinkedUntouched(s: State, m: MarkId, mark: Mark, prime: ReportId, r: ReportId)
    requires WellFormed(s) && m !in s.marks && r in s.caches && r !in Linked(s, mark) && r !in Forgotten(s, mark, prime)
    ensures Untouched(s, Create(s, m, mark, prime), r)
  {
    hide MarkLink, Create, Digest, HasConfirmed, AutomaticOn, ActiveOn;
    CreateUntouched(s, m, mark, prime, r);
  }

  /** Creation keeps the caches coherent if and only if the report it starts from is among the
      refreshed ones, or none of its automatic rows was counted. */
  lemma CreateCoherent(s: State, m: MarkId, mark: Mark, prime: ReportId)
    requires Sound(s) && m !in s.marks && prime in s.reports
    ensures Sound(Create(s, m, mark, prime)) <==>
      MarkLink(mark, s.reports[prime]).Link? || AutomaticOn(s.rows, prime) * ActiveOn(s.rows, prime) == {}
  {
    hide Judged, RecalculatedCache, MarkLink, Create, OneSided, HasConfirmed, AutomaticOn, ActiveOn;
    SoundIsNoneStale(s);
    CreateSound(s, m, mark, prime, {});
    var stale := {} - Linked(s, mark) + Forgotten(s, mark, prime);
    CreatedRow(s, m, mark, prime, (m, 0));
    StaleExactly(Create(s, m, mark, prime), stale);
    assert prime in Create(s, m, mark, prime).caches;
    assert stale == Forgotten(s, mark, prime);
  }

  // ---------------------------------------------------------------- population

  lemma PopulatedRow(s: State, m: MarkId, mark: Mark, k: Key)
    requires WellFormed(s) && m !in s.marks
    ensures Populate(s, m, mark).marks == s.marks[m := mark] && Populate(s, m, mark).reports == s.reports
    ensures Populate(s, m, mark).caches.Keys == s.caches.Keys
    ensures var rows := Populate(s, m, mark).rows;
      && (k.0 == m ==> (k in rows <==> k.1 in s.reports && MarkLink(mark, s.reports[k.1]).Link?))
      && (k.0 != m ==> (k in rows <==> k in s.rows))
      && (k in rows && k.0 == m ==> rows[k] == Attach(MarkLink(mark, s.reports[k.1]), s.caches[k.1].confirmed, false))
      && (k in rows && k.0 != m ==> rows[k] == s.rows[k])
  {
    hide Digest, MarkLink, Coherent;
  }

  lemma PopulatedConfirmed(s: State, m: MarkId, mark: Mark, r: ReportId)
    requires WellFormed(s) && m !in s.marks
    ensures HasConfirmed(Populate(s, m, mark).rows, r) <==> HasConfirmed(s.rows, r)
  {
    hide Digest, MarkLink, Coherent, Populate;
    var rows := Populate(s, m, mark).rows;
    if HasConfirmed(rows, r) {
      var k :| k in rows && k.1 == r && rows[k].kind.Confirmed?;
      PopulatedRow(s, m, mark, k);
    }
    if HasConfirmed(s.rows, r) {
      var k :| k in s.rows && k.1 == r && s.rows[k].kind.Confirmed?;
      PopulatedRow(s, m, mark, k);
    }
  }

  /** Population keeps both invariants. */
  lemma PopulateKeepsFlags(s: State, m: MarkId, mark: Mark)
    requires Steady(s) && m !in s.marks
    ensures WellFormed(Populate(s, m, mark)) && OneSided(Populate(s, m, mark).rows)
    ensures Exact(s.rows) ==> Exact(Populate(s, m, mark).rows)
  {
    hide Digest, MarkLink, Populate, HasConfirmed, Legible;
    var rows := Populate(s, m, mark).rows;
    PopulatedRow(s, m, mark, (m, 0));
    forall k | k in rows
      ensures k.0 in Populate(s, m, mark).marks && k.1 in s.reports && Legible(s.reports[k.1])
      ensures k.0 != m ==> k in s.rows && rows[k] == s.rows[k]
      ensures k.0 == m ==> (rows[k].associated <==> rows[k].kind.Automatic? && !HasConfirmed(rows, k.1))
      ensures HasConfirmed(rows, k.1) <==> HasConfirmed(s.rows, k.1)
      ensures k.0 == m ==> !rows[k].kind.Confirmed?
    {
      PopulatedRow(s, m, mark, k);
      PopulatedConfirmed(s, m, mark, k.1);
      if k.0 == m {
        CachedConfirmed(s, k.1);
        LinksAreLegible(mark, s.reports[k.1]);
      }
    }
  }

  /** The table of a report with one more row, automatic or dissimilar. */
  ghost predicate OneMore(marks: map<MarkId, Mark>, rows: Table, marks': map<MarkId, Mark>, rows': Table, mine: Key) {
    && Closed(marks, rows, rows.Keys) && Closed(marks', rows', rows'.Keys)
    && mine !in rows && mine in rows'
    && (forall k: Key | k.1 == mine.1 && k != mine :: k in rows <==> k in rows')
    && (forall k | k in rows && k in rows' && k.1 == mine.1 :: rows[k] == rows'[k] && marks[k.0] == marks'[k.0])
  }

  /** One more row, in terms of the sets the caches count. */
  lemma OneMoreCounted(marks: map<MarkId, Mark>, rows: Table, marks': map<MarkId, Mark>, rows': Table, mine: Key)
    requires OneMore(marks, rows, marks', rows', mine) && (rows'[mine].kind.Automatic? || rows'[mine].kind.Dissimilar?)
    ensures var r, kind := mine.1, rows'[mine].kind;
      && AutomaticOn(rows', r) == AutomaticOn(rows, r) + (if kind.Automatic? then {mine} else {})
      && ConfirmedOn(rows', r) == ConfirmedOn(rows, r)
      && CountedOn(rows', r) == CountedOn(rows, r) + (if kind.Automatic? && rows'[mine].associated then {mine} else {})
      && mine !in CountedOn(rows, r) && mine !in AutomaticOn(rows, r)
  {
    hide Closed;
  }

  /** The incremental step turns a coherent cache into the recalculated one. */
  lemma IncrementCorrect(marks: map<MarkId, Mark>, rows: Table, marks': map<MarkId, Mark>, rows': Table, mine: Key)
    requires OneMore(marks, rows, marks', rows', mine)
    requires rows'[mine].kind.Automatic?
    requires var c := RecalculatedCache(marks, rows, mine.1);
      rows'[mine].associated <==> c.confirmed == 0
    ensures RecalculatedCache(marks', rows', mine.1) ==
      PopulatedCache(RecalculatedCache(marks, rows, mine.1), marks'[mine.0], rows'[mine])
  {
    hide Digest, AddRow;
    var r := mine.1;
    var counted, n := CountedOn(rows, r), |AutomaticOn(rows, r)|;
    OneMoreCounted(marks, rows, marks', rows', mine);
    DigestFrame(marks, rows, marks', rows', counted, n);
    DigestCount(marks', rows', counted, n);
    if rows'[mine].associated {
      DigestAdds(marks', rows', counted, n + 1, mine);
    }
  }

  /** A dissimilar row changes nothing. */
  lemma DissimilarIdle(marks: map<MarkId, Mark>, rows: Table, marks': map<MarkId, Mark>, rows': Table, mine: Key)
    requires OneMore(marks, rows, marks', rows', mine)
    requires rows'[mine].kind.Dissimilar?
    ensures RecalculatedCache(marks', rows', mine.1) == RecalculatedCache(marks, rows, mine.1)
  {
    var r := mine.1;
    OneMoreCounted(marks, rows, marks', rows', mine);
    DigestFrame(marks, rows, marks', rows', CountedOn(rows, r), |AutomaticOn(rows, r)|);
  }

  lemma DigestCount(marks: map<MarkId, Mark>, rows: Table, keys: set<Key>, n: nat)
    requires Closed(marks, rows, keys)
    ensures Digest(marks, rows, keys, n + 1) == Digest(marks, rows, keys, n).(automatic := n + 1)
    ensures Digest(marks, rows, keys, n).automatic == n
  {}

  /** The incremental step keeps a stale cache as stale as it was: it still counts too much. */
  lemma IncrementStale(marks: map<MarkId, Mark>, rows: Table, marks': map<MarkId, Mark>, rows': Table, mine: Key, c: Cache)
    requires OneMore(marks, rows, marks', rows', mine) && Overcounts(rows, c, mine.1)
    requires rows'[mine].kind.Automatic? && (rows'[mine].associated <==> c.confirmed == 0)
    ensures Overcounts(rows', PopulatedCache(c, marks'[mine.0], rows'[mine]), mine.1)
  {
    OneMoreCounted(marks, rows, marks', rows', mine);
    hide AddLabels, OneMore, AutomaticOn, ConfirmedOn, CountedOn;
  }

  lemma DissimilarStale(marks: map<MarkId, Mark>, rows: Table, marks': map<MarkId, Mark>, rows': Table, mine: Key, c: Cache)
    requires OneMore(marks, rows, marks', rows', mine) && Overcounts(rows, c, mine.1)
    requires rows'[mine].kind.Dissimilar?
    ensures Overcounts(rows', c, mine.1)
  {
    OneMoreCounted(marks, rows, marks', rows', mine);
  }

  lemma PopulatedJudged(s: State, m: MarkId, mark: Mark, r: ReportId, stale: set<ReportId>)
    requires SoundBut(s, stale) && m !in s.marks && r in s.caches
    requires WellFormed(Populate(s, m, mark))
    ensures var s' := Populate(s, m, mark);
      Judged(s'.marks, s'.rows, s'.caches[r], r, r in stale)
  {
    hide RecalculatedCache, Overcounts, MarkLink, HasConfirmed, ConnectRows, PopulatedCache, OneSided;
    var s' := Populate(s, m, mark);
    var mine := (m, r);
    assert Judged(s.marks, s.rows, s.caches[r], r, r in stale);
    forall k: Key | k.1 == r && k.0 != m
      ensures (k in s.rows <==> k in s'.rows) && (k in s.rows ==> s.rows[k] == s'.rows[k])
    {
      PopulatedRow(s, m, mark, k);
    }
    PopulatedRow(s, m, mark, mine);
    if mine in s'.rows {
      assert OneMore(s.marks, s.rows, s'.marks, s'.rows, mine);
      if s'.rows[mine].kind.Automatic? {
        if r in stale {
          IncrementStale(s.marks, s.rows, s'.marks, s'.rows, mine, s.caches[r]);
        } else {
          IncrementCorrect(s.marks, s.rows, s'.marks, s'.rows, mine);
        }
      } else if r in stale {
        DissimilarStale(s.marks, s.rows, s'.marks, s'.rows, mine, s.caches[r]);
      } else {
        DissimilarIdle(s.marks, s.rows, s'.marks, s'.rows, mine);
      }
    } else {
      UntouchedReport(s, s', r);
    }
  }

  lemma PopulateSound(s: State, m: MarkId, mark: Mark, stale: set<ReportId>)
    requires SoundBut(s, stale) && m !in s.marks
    ensures SoundBut(Populate(s, m, mark), stale)
    ensures Exact(s.rows) ==> Exact(Populate(s, m, mark).rows)
  {
    hide Judged, MarkLink, Populate, HasConfirmed;
    SoundSteady(s, stale);
    PopulateKeepsFlags(s, m, mark);
    PopulatedRow(s, m, mark, (m, 0));
    forall r | r in Populate(s, m, mark).caches
      ensures Judged(Populate(s, m, mark).marks, Populate(s, m, mark).rows, Populate(s, m, mark).caches[r], r, r in stale)
    {
      PopulatedJudged(s, m, mark, r, stale);
    }
  }

  // ---------------------------------------------------------------- reports

  lemma RelinkedRow(s: State, rs: set<ReportId>, k: Key)
    requires WellFormed(s) && rs <= s.reports.Keys
    ensures var rows := Relink(s, rs).rows;
      && (k.1 in rs ==> (k in rows <==> k.0 in s.marks && ReportLink(s.marks[k.0], s.reports[k.1]).Link?))
      && (k.1 !in rs ==> (k in rows <==> k in s.rows))
      && (k in rows && k.1 in rs ==> rows[k] == Attach(ReportLink(s.marks[k.0], s.reports[k.1]), 0, false))
      && (k in rows && k.1 !in rs ==> rows[k] == s.rows[k])
  {
    hide Digest, ReportLink;
  }

  lemma RelinkedConfirmed(s: State, rs: set<ReportId>, r: ReportId)
    requires WellFormed(s) && rs <= s.reports.Keys
    ensures HasConfirmed(Relink(s, rs).rows, r) <==> r !in rs && HasConfirmed(s.rows, r)
  {
    hide Digest, ReportLink, Relink;
    var rows := Relink(s, rs).rows;
    if HasConfirmed(rows, r) {
      var k :| k in rows && k.1 == r && rows[k].kind.Confirmed?;
      RelinkedRow(s, rs, k);
    }
    if r !in rs && HasConfirmed(s.rows, r) {
      var k :| k in s.rows && k.1 == r && s.rows[k].kind.Confirmed?;
      RelinkedRow(s, rs, k);
    }
  }

  lemma RelinkFlags(s: State, rs: set<ReportId>)
    requires WellFormed(s) && OneSided(s.rows) && rs <= s.reports.Keys
    ensures OneSided(Relink(s, rs).rows) && (Exact(s.rows) ==> Exact(Relink(s, rs).rows))
    ensures forall k | k in Relink(s, rs).rows && k.1 in rs ::
      Relink(s, rs).rows[k].associated <==> Relink(s, rs).rows[k].kind.Automatic?
  {
    hide Digest, ReportLink, Relink, HasConfirmed;
    var rows := Relink(s, rs).rows;
    forall k | k in rows
      ensures HasConfirmed(rows, k.1) <==> k.1 !in rs && HasConfirmed(s.rows, k.1)
      ensures k.1 in rs ==> !rows[k].kind.Confirmed? && (rows[k].associated <==> rows[k].kind.Automatic?)
      ensures k.1 !in rs ==> k in s.rows && rows[k] == s.rows[k]
    {
      RelinkedRow(s, rs, k);
      RelinkedConfirmed(s, rs, k.1);
    }
  }

  /** Linking again forgets every decision of a user on those reports and restores the exact form there;
      of their caches only those of reports that can be read need to have been right. */
  lemma RelinkSound(s: State, rs: set<ReportId>, stale: set<ReportId>)
    requires WellFormed(s) && OneSided(s.rows) && rs <= s.reports.Keys
    requires forall r | r in s.caches && r !in Reconnected(s, rs) :: Judged(s.marks, s.rows, s.caches[r], r, r in stale)
    ensures SoundBut(Relink(s, rs), stale - Reconnected(s, rs))
    ensures Exact(s.rows) ==> Exact(Relink(s, rs).rows)
    ensures forall k | k in Relink(s, rs).rows && k.1 in rs ::
      Relink(s, rs).rows[k].associated <==> Relink(s, rs).rows[k].kind.Automatic?
  {
    hide Judged, ReportLink, HasConfirmed, RelinkedRows, OneSided, Exact, RecalculatedCache;
    var s1 := s.(rows := RelinkedRows(s, rs));
    RelinkedWellFormed(s, rs);
    RelinkFlags(s, rs);
    forall r | r in s1.caches && r !in Reconnected(s, rs) ensures Untouched(s, s1, r) {
      forall k: Key | k.1 == r ensures (k in s.rows <==> k in s1.rows) && (k in s.rows ==> s.rows[k] == s1.rows[k]) {
        RelinkedRow(s, rs, k);
        if r in rs && k.0 in s.marks {
          LinksAreLegible(s.marks[k.0], s.reports[r]);
        }
      }
    }
    RefreshRestores(s, s1, Reconnected(s, rs), stale);
  }

  /** A report without rows has the default cache. */
  lemma NoRowsDefault(marks: map<MarkId, Mark>, rows: Table, r: ReportId)
    requires Closed(marks, rows, rows.Keys) && forall k | k in rows :: k.1 != r
    ensures RecalculatedCache(marks, rows, r) == EMPTY_CACHE
  {
    assert CountedOn(rows, r) == {} && AutomaticOn(rows, r) == {};
    assert Voices(marks, rows, {}) == {};
    assert Tally(marks, rows, {}) == map[];
  }

  lemma AddReportSound(s: State, r: ReportId, report: Report, stale: set<ReportId>)
    requires SoundBut(s, stale) && r !in s.reports
    ensures SoundBut(AddReport(s, r, report), stale - {r})
    ensures Exact(s.rows) ==> Exact(AddReport(s, r, report).rows)
  {
    hide RecalculatedCache, Overcounts, ReportLink, Relink, HasConfirmed, OneSided, Exact, Legible;
    var s1 := s.(reports := s.reports[r := report], caches := s.caches[r := EMPTY_CACHE]);
    NoRowsDefault(s.marks, s.rows, r);
    RelinkSound(s1, {r}, stale - {r});
    forall q | q in Relink(s1, {r}).caches ensures q in stale - {r} - Reconnected(s1, {r}) <==> q in stale - {r} {}
  }
}
