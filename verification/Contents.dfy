/** What a cache contains, in terms of the stored rows and marks alone: which rows are counted, and what
    each of them adds. */
module Contents {
  import opened Verdicts
  import opened Associations
  import opened Machine
  import opened Invariants

  // ---------------------------------------------------------------- what the fields say

  ghost function Number(labels: map<string, nat>, p: string): nat {
    if p in labels then labels[p] else 0
  }

  /** The number of a problem is the number of rows that carry it. */
  ghost predicate ProblemsCounted(rows: Table, keys: set<Key>, labels: map<string, nat>)
    requires keys <= rows.Keys
  {
    && (forall p :: Number(labels, p) == |set k | k in keys && rows[k].problem == p|)
    && (forall p | p in labels :: labels[p] > 0)
  }

  ghost predicate AllAssessed(marks: map<MarkId, Mark>, keys: set<Key>) {
    forall k | k in keys :: k.0 in marks && !marks[k.0].UnknownMark?
  }

  ghost predicate AllUnknown(marks: map<MarkId, Mark>, keys: set<Key>) {
    forall k | k in keys :: k.0 in marks && marks[k.0].UnknownMark?
  }

  /** The number of a tag is the number of rows whose mark has it. */
  ghost predicate TagsCounted(marks: map<MarkId, Mark>, keys: set<Key>, labels: map<string, nat>)
    requires AllAssessed(marks, keys)
  {
    && (forall p :: Number(labels, p) == |set k | k in keys && p in marks[k.0].tags|)
    && (forall p | p in labels :: labels[p] > 0)
  }

  /** Some mark has the verdict, and none has another one. */
  ghost predicate Common(marks: map<MarkId, Mark>, keys: set<Key>, v: Verdict)
    requires AllAssessed(marks, keys)
  {
    && (exists k | k in keys :: marks[k.0].verdict == v)
    && (forall k | k in keys :: marks[k.0].verdict == v || marks[k.0].verdict == WithoutMarks)
  }

  /** No mark has a verdict, all that have one share it, or two differ. */
  ghost predicate VerdictShared(marks: map<MarkId, Mark>, keys: set<Key>, verdict: Verdict)
    requires AllAssessed(marks, keys)
  {
    && (verdict == WithoutMarks <==> forall k | k in keys :: marks[k.0].verdict == WithoutMarks)
    && (forall v | v != WithoutMarks && v != Incompatible ::
          verdict == v <==> Common(marks, keys, v))
  }

  /** Labels and verdict of a report whose contributing rows are the given ones. */
  ghost predicate LabelsSay(marks: map<MarkId, Mark>, rows: Table, keys: set<Key>, labels: map<string, nat>)
    requires keys <= rows.Keys
  {
    && (AllUnknown(marks, keys) ==> ProblemsCounted(rows, keys, labels))
    && (AllAssessed(marks, keys) ==> TagsCounted(marks, keys, labels))
  }

  ghost predicate VerdictSays(marks: map<MarkId, Mark>, keys: set<Key>, verdict: Verdict) {
    && (AllUnknown(marks, keys) ==> verdict == WithoutMarks)
    && (AllAssessed(marks, keys) ==> VerdictShared(marks, keys, verdict))
  }

  /** The cache of a report with the given contributing rows. */
  ghost predicate Summarises(marks: map<MarkId, Mark>, rows: Table, r: ReportId, keys: set<Key>, c: Cache)
    requires keys <= rows.Keys
  {
    && c.total == |keys|
    && c.confirmed == |set k | k in keys && rows[k].kind == Confirmed|
    && c.automatic == |set k | k in rows && k.1 == r && rows[k].kind == Automatic|
    && LabelsSay(marks, rows, keys, c.labels)
    && VerdictSays(marks, keys, c.verdict)
  }

  // ---------------------------------------------------------------- digests say it

  lemma ProblemsTallied(marks: map<MarkId, Mark>, rows: Table, keys: set<Key>)
    requires Closed(marks, rows, keys) && AllUnknown(marks, keys)
    ensures ProblemsCounted(rows, keys, Tally(marks, rows, keys))
  {
    var labels := Tally(marks, rows, keys);
    forall p ensures Number(labels, p) == |set k | k in keys && rows[k].problem == p| && (p in labels ==> labels[p] > 0) {
      var carriers := set k | k in keys && rows[k].problem == p;
      assert Carriers(marks, rows, keys, p) == carriers;
      if p in labels {
        var k :| k in keys && p in LabelsOf(marks[k.0], rows[k]);
        assert k in carriers;
      } else {
        assert forall k | k in keys :: p !in LabelsOf(marks[k.0], rows[k]);
        assert carriers == {};
      }
    }
  }

  lemma TagsTallied(marks: map<MarkId, Mark>, rows: Table, keys: set<Key>)
    requires Closed(marks, rows, keys) && AllAssessed(marks, keys)
    ensures TagsCounted(marks, keys, Tally(marks, rows, keys))
  {
    var labels := Tally(marks, rows, keys);
    forall p ensures Number(labels, p) == |set k | k in keys && p in marks[k.0].tags| && (p in labels ==> labels[p] > 0) {
      var carriers := set k | k in keys && p in marks[k.0].tags;
      assert Carriers(marks, rows, keys, p) == carriers;
      if p in labels {
        var k :| k in keys && p in LabelsOf(marks[k.0], rows[k]);
        assert k in carriers;
      } else {
        assert forall k | k in keys :: p !in LabelsOf(marks[k.0], rows[k]);
        assert carriers == {};
      }
    }
  }

  lemma ConsensusMeaning(vs: set<Verdict>)
    ensures Consensus(vs) == WithoutMarks <==> forall v | v in vs :: v == WithoutMarks
    ensures forall v | v != WithoutMarks && v != Incompatible ::
      Consensus(vs) == v <==> v in vs && forall w | w in vs :: w == v || w == WithoutMarks
  {
    var voices := vs - {WithoutMarks};
    assert forall v | v in vs && v != WithoutMarks :: v in voices;
    forall v | v != WithoutMarks && v != Incompatible
      ensures Consensus(vs) == v <==> v in vs && forall w | w in vs :: w == v || w == WithoutMarks
    {
      if v in vs && forall w | w in vs :: w == v || w == WithoutMarks {
        assert voices == {v};
      }
      if Consensus(vs) == v {
        assert voices == {v};
      }
    }
  }

  lemma VerdictsDigested(marks: map<MarkId, Mark>, rows: Table, keys: set<Key>)
    requires Closed(marks, rows, keys)
    ensures VerdictSays(marks, keys, Consensus(Voices(marks, rows, keys)))
  {
    var vs := Voices(marks, rows, keys);
    ConsensusMeaning(vs);
    forall k | k in keys ensures VoiceOf(marks[k.0]) in vs {}
    if AllAssessed(marks, keys) {
      forall v ensures v in vs <==> exists k | k in keys :: marks[k.0].verdict == v {}
    }
    hide Consensus;
  }

  lemma DigestSays(marks: map<MarkId, Mark>, rows: Table, r: ReportId, keys: set<Key>)
    requires Closed(marks, rows, keys)
    ensures Summarises(marks, rows, r, keys, Digest(marks, rows, keys, |AutomaticOn(rows, r)|))
  {
    hide Consensus, Tally, Voices, VerdictSays, ProblemsCounted, TagsCounted;
    VerdictsDigested(marks, rows, keys);
    if AllUnknown(marks, keys) {
      ProblemsTallied(marks, rows, keys);
    }
    if AllAssessed(marks, keys) {
      TagsTallied(marks, rows, keys);
    }
    assert AutomaticOn(rows, r) == set k | k in rows && k.1 == r && rows[k].kind == Automatic;
    assert (set k | k in keys && rows[k].kind.Confirmed?) == set k | k in keys && rows[k].kind == Confirmed;
  }

  // ---------------------------------------------------------------- the caches say it

  /** A recalculated cache sums up the associated rows of the two counting types. */
  lemma RecalculatedSays(marks: map<MarkId, Mark>, rows: Table, r: ReportId)
    requires Closed(marks, rows, rows.Keys)
    ensures var counted := set k | k in rows && k.1 == r && rows[k].associated && rows[k].kind in {Automatic, Confirmed};
      Summarises(marks, rows, r, counted, RecalculatedCache(marks, rows, r))
  {
    hide Digest, Summarises;
    DigestSays(marks, rows, r, CountedOn(rows, r));
    assert CountedOn(rows, r) == set k | k in rows && k.1 == r && rows[k].associated && rows[k].kind in {Automatic, Confirmed};
  }

  /** An updated cache sums up the associated rows. */
  lemma UpdatedSays(marks: map<MarkId, Mark>, rows: Table, r: ReportId)
    requires Closed(marks, rows, rows.Keys)
    ensures var active := set k | k in rows && k.1 == r && rows[k].associated;
      Summarises(marks, rows, r, active, UpdatedCache(marks, rows, r))
  {
    hide Digest, Summarises;
    DigestSays(marks, rows, r, ActiveOn(rows, r));
    assert ActiveOn(rows, r) == set k | k in rows && k.1 == r && rows[k].associated;
  }

  lemma SharedDetermines(marks: map<MarkId, Mark>, keys: set<Key>, v: Verdict, v': Verdict)
    requires AllAssessed(marks, keys) && VerdictShared(marks, keys, v) && VerdictShared(marks, keys, v')
    ensures v == v'
  {
    hide Common;
    assert v.Assessed? ==> Common(marks, keys, v);
    assert v'.Assessed? ==> Common(marks, keys, v');
  }

  /** Nothing else is left to choose: two caches that sum up the same rows of one family are equal. */
  lemma SummaryDetermines(marks: map<MarkId, Mark>, rows: Table, r: ReportId, keys: set<Key>, c: Cache, c': Cache)
    requires Closed(marks, rows, keys) && (AllUnknown(marks, keys) || AllAssessed(marks, keys))
    requires Summarises(marks, rows, r, keys, c) && Summarises(marks, rows, r, keys, c')
    ensures c == c'
  {
    assert forall p :: Number(c.labels, p) == Number(c'.labels, p);
    forall p ensures p in c.labels <==> p in c'.labels {
      assert Number(c.labels, p) == Number(c'.labels, p);
    }
    forall p | p in c.labels && p in c'.labels ensures c.labels[p] == c'.labels[p] {
      assert Number(c.labels, p) == Number(c'.labels, p);
    }
    assert c.labels == c'.labels;
    if AllAssessed(marks, keys) {
      SharedDetermines(marks, keys, c.verdict, c'.verdict);
    }
  }
}
