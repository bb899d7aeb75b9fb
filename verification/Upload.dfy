/** Upload of a tree of reports in chunks, compared with saving the reports one by one. */
module Upload {
  import opened Options

  /** A report as it stands in the archive; no parent is the empty string. */
  datatype ReportData = ReportData(decision: int, identifier: string, parent: string)

  datatype Row = Row(id: nat, decision: nat, identifier: string, parent: Option<nat>)

  datatype Error = UnknownDecision | Corrupted | InvalidIdentifier | RepeatedIdentifier

  datatype Outcome = Done(rows: seq<Row>) | Failed(error: Error)

  type Key = (nat, string)

  const CHUNK_SIZE := 500
  const MAX_IDENTIFIER := 255

  // ---------------------------------------------------------------- one by one

  /** The identifiers of saved reports by decision and report identifier. */
  function SavedOf(rows: seq<Row>): map<Key, nat> {
    if rows == [] then map[]
    else
      var last := rows[|rows| - 1];
      SavedOf(rows[..|rows| - 1])[(last.decision, last.identifier) := last.id]
  }

  predicate ValidIdentifier(identifier: string) {
    1 <= |identifier| <= MAX_IDENTIFIER
  }

  /** Save one report after the given ones. */
  function SaveOne(decisions: map<int, nat>, rows: seq<Row>, r: ReportData, base: nat): Outcome {
    if r.decision !in decisions then Failed(UnknownDecision)
    else
      var d, saved := decisions[r.decision], SavedOf(rows);
      if r.parent != "" && (d, r.parent) !in saved then Failed(Corrupted)
      else if !ValidIdentifier(r.identifier) then Failed(InvalidIdentifier)
      else if (d, r.identifier) in saved then Failed(RepeatedIdentifier)
      else Done(rows + [Row(base + |rows|, d, r.identifier, if r.parent == "" then None else Some(saved[(d, r.parent)]))])
  }

  function OneByOne(decisions: map<int, nat>, data: seq<ReportData>, base: nat): Outcome {
    if data == [] then Done([])
    else
      match OneByOne(decisions, data[..|data| - 1], base)
      case Failed(error) => Failed(error)
      case Done(rows) => SaveOne(decisions, rows, data[|data| - 1], base)
  }

  lemma {:induction false} FailureStays(decisions: map<int, nat>, data: seq<ReportData>, base: nat, n: nat)
    requires n <= |data| && OneByOne(decisions, data[..n], base).Failed?
    ensures OneByOne(decisions, data, base) == OneByOne(decisions, data[..n], base)
    decreases |data|
  {
    if n == |data| {
      assert data[..n] == data;
    } else {
      hide SaveOne;
      assert data[..|data| - 1][..n] == data[..n];
      FailureStays(decisions, data[..|data| - 1], base, n);
    }
  }

  // ---------------------------------------------------------------- when it succeeds

  ghost predicate Before(decisions: map<int, nat>, data: seq<ReportData>, n: nat, d: nat, identifier: string)
    requires n <= |data|
  {
    exists m | 0 <= m < n :: SameKey(decisions, data[m], d, identifier)
  }

  predicate SameKey(decisions: map<int, nat>, r: ReportData, d: nat, identifier: string) {
    r.decision in decisions && decisions[r.decision] == d && r.identifier == identifier
  }

  /** The decision is known, the identifier new, and the parent comes before. */
  ghost predicate Fits(decisions: map<int, nat>, data: seq<ReportData>, n: nat)
    requires n < |data|
  {
    var r := data[n];
    r.decision in decisions && 1 <= |r.identifier| <= 255 &&
    var d := decisions[r.decision];
    !Before(decisions, data, n, d, r.identifier) && (r.parent == "" || Before(decisions, data, n, d, r.parent))
  }

  ghost predicate WellFormed(decisions: map<int, nat>, data: seq<ReportData>) {
    forall n | 0 <= n < |data| :: Fits(decisions, data, n)
  }

  /** Row number n is report number n, linked to the row of its parent. */
  ghost predicate RowFor(decisions: map<int, nat>, data: seq<ReportData>, rows: seq<Row>, base: nat, n: nat)
    requires n < |data| && |rows| == |data|
  {
    var r, row := data[n], rows[n];
    row.id == base + n && SameKey(decisions, r, row.decision, row.identifier) && ValidIdentifier(row.identifier) &&
    (r.parent == "" ==> row.parent == None) &&
    (r.parent != "" ==> exists m | 0 <= m < n :: row.parent == Some(base + m) && SameKey(decisions, data[m], row.decision, r.parent))
  }

  ghost predicate RowsFor(decisions: map<int, nat>, data: seq<ReportData>, rows: seq<Row>, base: nat) {
    |rows| == |data| && forall n | 0 <= n < |data| :: RowFor(decisions, data, rows, base, n)
  }

  lemma {:induction false} SavedMeaning(rows: seq<Row>, key: Key)
    ensures key in SavedOf(rows) <==> exists m | 0 <= m < |rows| :: (rows[m].decision, rows[m].identifier) == key
    ensures key in SavedOf(rows) ==>
      exists m | 0 <= m < |rows| :: (rows[m].decision, rows[m].identifier) == key && SavedOf(rows)[key] == rows[m].id
  {
    if rows != [] {
      SavedMeaning(rows[..|rows| - 1], key);
    }
  }

  lemma SavedBefore(decisions: map<int, nat>, data: seq<ReportData>, rows: seq<Row>, base: nat, d: nat, identifier: string)
    requires RowsFor(decisions, data, rows, base)
    ensures (d, identifier) in SavedOf(rows) <==> Before(decisions, data, |data|, d, identifier)
    ensures (d, identifier) in SavedOf(rows) ==> exists m | 0 <= m < |data| ::
      SavedOf(rows)[(d, identifier)] == base + m && SameKey(decisions, data[m], d, identifier)
  {
    hide SavedOf;
    SavedMeaning(rows, (d, identifier));
    forall m | 0 <= m < |data|
      ensures rows[m].id == base + m
      ensures (rows[m].decision, rows[m].identifier) == (d, identifier) <==> SameKey(decisions, data[m], d, identifier)
    {
      assert RowFor(decisions, data, rows, base, m);
    }
  }

  lemma RowForMore(decisions: map<int, nat>, data: seq<ReportData>, rows: seq<Row>, r: ReportData, row: Row, base: nat, n: nat)
    requires n < |data| && |rows| == |data| && RowFor(decisions, data, rows, base, n)
    ensures RowFor(decisions, data + [r], rows + [row], base, n)
  {
    var more := data + [r];
    assert forall m | 0 <= m <= n :: more[m] == data[m];
  }

  lemma BeforeMore(decisions: map<int, nat>, data: seq<ReportData>, r: ReportData, n: nat, d: nat, identifier: string)
    requires n <= |data|
    ensures Before(decisions, data + [r], n, d, identifier) <==> Before(decisions, data, n, d, identifier)
  {
    hide SameKey;
    var more := data + [r];
    assert forall m | 0 <= m < n :: more[m] == data[m];
  }

  lemma SaveOneSucceeds(decisions: map<int, nat>, data: seq<ReportData>, rows: seq<Row>, r: ReportData, base: nat)
    requires RowsFor(decisions, data, rows, base)
    ensures SaveOne(decisions, rows, r, base).Done? <==> Fits(decisions, data + [r], |data|)
    ensures SaveOne(decisions, rows, r, base).Done? ==>
      RowsFor(decisions, data + [r], SaveOne(decisions, rows, r, base).rows, base)
  {
    hide SavedOf, Before, RowFor;
    var more := data + [r];
    if r.decision in decisions {
      var d := decisions[r.decision];
      SavedBefore(decisions, data, rows, base, d, r.identifier);
      SavedBefore(decisions, data, rows, base, d, r.parent);
      BeforeMore(decisions, data, r, |data|, d, r.identifier);
      BeforeMore(decisions, data, r, |data|, d, r.parent);
      BeforeAll(decisions, data, d, r.identifier);
      BeforeAll(decisions, data, d, r.parent);
      if SaveOne(decisions, rows, r, base).Done? {
        var row := SaveOne(decisions, rows, r, base).rows[|rows|];
        NewRow(decisions, data, rows, r, base);
        forall n | 0 <= n < |more| ensures RowFor(decisions, more, rows + [row], base, n) {
          if n < |data| {
            RowForMore(decisions, data, rows, r, row, base, n);
          }
        }
      }
    }
  }

  lemma BeforeAll(decisions: map<int, nat>, data: seq<ReportData>, d: nat, identifier: string)
    ensures Before(decisions, data, |data|, d, identifier) <==> exists m | 0 <= m < |data| :: SameKey(decisions, data[m], d, identifier)
  {}

  lemma NewRow(decisions: map<int, nat>, data: seq<ReportData>, rows: seq<Row>, r: ReportData, base: nat)
    requires RowsFor(decisions, data, rows, base) && SaveOne(decisions, rows, r, base).Done?
    ensures RowFor(decisions, data + [r], SaveOne(decisions, rows, r, base).rows, base, |data|)
  {
    hide SavedOf;
    var more, d := data + [r], decisions[r.decision];
    if r.parent != "" {
      SavedBefore(decisions, data, rows, base, d, r.parent);
      var m :| 0 <= m < |data| && SavedOf(rows)[(d, r.parent)] == base + m && SameKey(decisions, data[m], d, r.parent);
      assert more[m] == data[m];
    }
  }

  /**
   * The upload succeeds exactly for well-formed lists: parents before children and identifiers unique per decision.
   * Then every report is saved once, in order, with the link to its own parent.
   */
  lemma {:induction false} SucceedsExactly(decisions: map<int, nat>, data: seq<ReportData>, base: nat)
    ensures OneByOne(decisions, data, base).Done? <==> WellFormed(decisions, data)
    ensures OneByOne(decisions, data, base).Done? ==> RowsFor(decisions, data, OneByOne(decisions, data, base).rows, base)
  {
    if data != [] {
      hide SaveOne, RowFor, Fits;
      var init, r := data[..|data| - 1], data[|data| - 1];
      SucceedsExactly(decisions, init, base);
      assert data == init + [r];
      forall n | 0 <= n < |init| ensures Fits(decisions, init, n) <==> Fits(decisions, data, n) {
        FitsMore(decisions, init, r, n);
      }
      if OneByOne(decisions, init, base).Done? {
        SaveOneSucceeds(decisions, init, OneByOne(decisions, init, base).rows, r, base);
      }
    }
  }

  lemma FitsMore(decisions: map<int, nat>, data: seq<ReportData>, r: ReportData, n: nat)
    requires n < |data|
    ensures Fits(decisions, data, n) <==> Fits(decisions, data + [r], n)
  {
    hide Before;
    if data[n].decision in decisions {
      var d := decisions[data[n].decision];
      BeforeMore(decisions, data, r, n, d, data[n].identifier);
      BeforeMore(decisions, data, r, n, d, data[n].parent);
    }
  }

  /** What is wrong with the first report that does not fit. */
  ghost function Reason(decisions: map<int, nat>, data: seq<ReportData>, n: nat): Error
    requires n < |data|
  {
    var r := data[n];
    if r.decision !in decisions then UnknownDecision
    else if r.parent != "" && !Before(decisions, data, n, decisions[r.decision], r.parent) then Corrupted
    else if !(1 <= |r.identifier| <= 255) then InvalidIdentifier
    else RepeatedIdentifier
  }

  lemma SaveOneFails(decisions: map<int, nat>, data: seq<ReportData>, rows: seq<Row>, r: ReportData, base: nat)
    requires RowsFor(decisions, data, rows, base) && SaveOne(decisions, rows, r, base).Failed?
    ensures SaveOne(decisions, rows, r, base).error == Reason(decisions, data + [r], |data|)
  {
    hide SavedOf, Before, RowFor;
    if r.decision in decisions {
      var d := decisions[r.decision];
      SavedBefore(decisions, data, rows, base, d, r.parent);
      BeforeMore(decisions, data, r, |data|, d, r.parent);
    }
  }

  lemma ReasonMore(decisions: map<int, nat>, data: seq<ReportData>, r: ReportData, n: nat)
    requires n < |data|
    ensures Reason(decisions, data + [r], n) == Reason(decisions, data, n)
  {
    hide Before;
    if data[n].decision in decisions {
      BeforeMore(decisions, data, r, n, decisions[data[n].decision], data[n].parent);
    }
  }

  /** A failing upload fails at the first report that does not fit, with the reason why it does not. */
  lemma {:induction false} FailsAtFirst(decisions: map<int, nat>, data: seq<ReportData>, base: nat)
    requires OneByOne(decisions, data, base).Failed?
    ensures exists n | 0 <= n < |data| ::
      && !Fits(decisions, data, n) && (forall m | 0 <= m < n :: Fits(decisions, data, m))
      && OneByOne(decisions, data, base).error == Reason(decisions, data, n)
    decreases |data|
  {
    hide SaveOne, RowFor, Fits, Reason;
    if data != [] {
      var init, r := data[..|data| - 1], data[|data| - 1];
      assert data == init + [r];
      forall n | 0 <= n < |init|
        ensures Fits(decisions, init, n) <==> Fits(decisions, data, n)
        ensures Reason(decisions, init, n) == Reason(decisions, data, n)
      {
        FitsMore(decisions, init, r, n);
        ReasonMore(decisions, init, r, n);
      }
      SucceedsExactly(decisions, init, base);
      if OneByOne(decisions, init, base).Failed? {
        FailsAtFirst(decisions, init, base);
        var n :| 0 <= n < |init| && !Fits(decisions, init, n) && (forall m | 0 <= m < n :: Fits(decisions, init, m))
          && OneByOne(decisions, init, base).error == Reason(decisions, init, n);
        assert !Fits(decisions, data, n);
      } else {
        var rows := OneByOne(decisions, init, base).rows;
        SaveOneSucceeds(decisions, init, rows, r, base);
        SaveOneFails(decisions, init, rows, r, base);
        assert !Fits(decisions, data, |init|);
      }
    }
  }

  // ---------------------------------------------------------------- progress

  /**
   * How a part of a total is turned into a whole percentage. Division by a fixed total, multiplication by 100
   * and truncation keep the order also when they round.
   */
  ghost predicate Rounding(percent: (nat, nat) -> nat) {
    (forall total | total > 0 :: percent(0, total) == 0 && percent(total, total) == 100) &&
    forall total, a, b | total > 0 && a <= b :: percent(a, total) <= percent(b, total)
  }

  lemma PercentUp(percent: (nat, nat) -> nat, total: nat, a: nat, b: nat)
    requires Rounding(percent) && total > 0 && a <= b
    ensures percent(a, total) <= percent(b, total)
  {}

  lemma PercentFull(percent: (nat, nat) -> nat, total: nat)
    requires Rounding(percent) && total > 0
    ensures percent(total, total) == 100
  {}

  function ExactPercent(part: nat, total: nat): nat {
    if total == 0 then 0 else part * 100 / total
  }

  /** Truncating the exact percentage is one such way. */
  lemma ExactRounding()
    ensures Rounding(ExactPercent)
  {
    forall total: nat, a: nat, b: nat | total > 0 && a <= b ensures ExactPercent(a, total) <= ExactPercent(b, total) {
      QuotientUp(a * 100, b * 100, total);
    }
    forall total: nat | total > 0 ensures ExactPercent(0, total) == 0 && ExactPercent(total, total) == 100 {
      QuotientIs(total * 100, total, 100);
    }
  }

  lemma QuotientUp(a: nat, b: nat, total: nat)
    requires total > 0 && a <= b
    ensures a / total <= b / total
  {
    var x, y := a / total, b / total;
    assert x * total <= a && b < (y + 1) * total;
    assert x >= y + 1 ==> x * total >= (y + 1) * total;
  }

  lemma QuotientIs(a: nat, total: nat, q: nat)
    requires total > 0 && a == q * total
    ensures a / total == q
  {
    var x := a / total;
    assert x * total <= a < (x + 1) * total;
    assert x >= q + 1 ==> x * total >= (q + 1) * total;
    assert q >= x + 1 ==> q * total >= (x + 1) * total;
  }

  predicate NonDecreasing(s: seq<nat>) {
    forall i, j | 0 <= i < j < |s| :: s[i] <= s[j]
  }

  class UploadLogger {
    const percent: (nat, nat) -> nat
    /** What was counted so far, out of how much, and the percentage last written. */
    var progress: Option<(nat, nat, nat)>
    /** All percentages written since the step began. */
    var written: seq<nat>

    constructor (percent: (nat, nat) -> nat)
      ensures this.percent == percent && progress == None && written == []
    {
      this.percent := percent;
      progress, written := None, [];
    }

    ghost predicate Valid()
      reads this
    {
      Rounding(percent) && NonDecreasing(written) && |written| > 0 &&
      (progress.Some? ==>
        var (done, total, shown) := progress.value;
        total > 0 && shown == percent(done, total) && written[|written| - 1] == shown)
    }

    method Start(total: nat)
      requires Rounding(percent)
      modifies this
      ensures Valid() && written == [0]
      ensures progress == if total > 0 then Some((0, total, 0)) else None
    {
      progress := if total > 0 then Some((0, total, 0)) else None;
      written := [0];
    }

    method Update(count: nat)
      requires Valid()
      modifies this
      ensures Valid()
      ensures old(progress).None? ==> progress == None && written == old(written)
      ensures old(progress).Some? ==>
        var (done, total, _) := old(progress).value;
        progress == Some((done + count, total, percent(done + count, total)))
    {
      if progress.Some? {
        var (done, total, shown) := progress.value;
        PercentUp(percent, total, done, done + count);
        var next := percent(done + count, total);
        progress := Some((done + count, total, shown));
        if next != shown {
          progress := Some((done + count, total, next));
          written := written + [next];
        }
      }
    }
  }

  // ---------------------------------------------------------------- the chunks

  datatype Pending = Pending(decision: nat, identifier: string, parent: Option<nat>)

  function PendingRows(chunk: seq<Pending>, start: nat): seq<Row> {
    seq(|chunk|, k requires 0 <= k < |chunk| => Row(start + k, chunk[k].decision, chunk[k].identifier, chunk[k].parent))
  }

  function UsedOf(rows: seq<Row>, d: nat): set<string> {
    set row | row in rows && row.decision == d :: row.identifier
  }

  predicate UniqueKeys(rows: seq<Row>) {
    forall i, j | 0 <= i < j < |rows| :: (rows[i].decision, rows[i].identifier) != (rows[j].decision, rows[j].identifier)
  }

  /** What one-by-one saving keeps: identifiers are proper and unique. */
  ghost predicate Proper(rows: seq<Row>) {
    UniqueKeys(rows) && forall row | row in rows :: ValidIdentifier(row.identifier)
  }

  lemma {:induction false} OneByOneProper(decisions: map<int, nat>, data: seq<ReportData>, base: nat)
    requires OneByOne(decisions, data, base).Done?
    ensures Proper(OneByOne(decisions, data, base).rows)
  {
    if data != [] {
      OneByOneProper(decisions, data[..|data| - 1], base);
      SaveProper(decisions, OneByOne(decisions, data[..|data| - 1], base).rows, data[|data| - 1], base);
    }
  }

  lemma SaveProper(decisions: map<int, nat>, rows: seq<Row>, r: ReportData, base: nat)
    requires Proper(rows) && SaveOne(decisions, rows, r, base).Done?
    ensures Proper(SaveOne(decisions, rows, r, base).rows)
  {
    hide SavedOf;
    SavedMeaning(rows, (decisions[r.decision], r.identifier));
  }

  /** A report that was saved early is found under the same key later. */
  lemma {:induction false} SavedStays(rows: seq<Row>, n: nat, key: Key)
    requires n <= |rows| && UniqueKeys(rows) && key in SavedOf(rows[..n])
    ensures key in SavedOf(rows) && SavedOf(rows)[key] == SavedOf(rows[..n])[key]
    decreases |rows|
  {
    if n == |rows| {
      assert rows[..n] == rows;
    } else {
      var init := rows[..|rows| - 1];
      assert init[..n] == rows[..n];
      SavedStays(init, n, key);
      SavedMeaning(init, key);
    }
  }

  lemma NoEmptyKey(rows: seq<Row>, d: nat)
    requires Proper(rows)
    ensures (d, "") !in SavedOf(rows)
  {
    hide SavedOf;
    SavedMeaning(rows, (d, ""));
    assert forall m | 0 <= m < |rows| :: rows[m] in rows && ValidIdentifier(rows[m].identifier);
  }

  lemma UsedMeaning(rows: seq<Row>, d: nat, identifier: string)
    ensures identifier in UsedOf(rows, d) <==> (d, identifier) in SavedOf(rows)
  {
    hide SavedOf;
    SavedMeaning(rows, (d, identifier));
    if identifier in UsedOf(rows, d) {
      var row :| row in rows && row.decision == d && row.identifier == identifier;
      var m :| 0 <= m < |rows| && rows[m] == row;
      assert (rows[m].decision, rows[m].identifier) == (d, identifier);
    }
  }

  lemma PendingMore(chunk: seq<Pending>, p: Pending, start: nat)
    ensures PendingRows(chunk + [p], start) == PendingRows(chunk, start) + [Row(start + |chunk|, p.decision, p.identifier, p.parent)]
  {}

  /** The identifiers in use are those of all reports taken so far, saved or pending. */
  ghost predicate UsedMatches(decisions: map<int, nat>, inUse: map<nat, set<string>>, target: seq<Row>) {
    forall d | d in decisions.Values :: d in inUse && inUse[d] == UsedOf(target, d)
  }

  lemma UsedMore(decisions: map<int, nat>, inUse: map<nat, set<string>>, target: seq<Row>, row: Row)
    requires UsedMatches(decisions, inUse, target) && row.decision in inUse
    ensures UsedMatches(decisions, inUse[row.decision := inUse[row.decision] + {row.identifier}], target + [row])
  {
    forall d | d in decisions.Values ensures
      UsedOf(target + [row], d) == if d == row.decision then UsedOf(target, d) + {row.identifier} else UsedOf(target, d) {
      UsedOne(target, row, d);
    }
  }

  lemma UsedOne(target: seq<Row>, row: Row, d: nat)
    ensures UsedOf(target + [row], d) == if d == row.decision then UsedOf(target, d) + {row.identifier} else UsedOf(target, d)
  {
    var a, b := UsedOf(target + [row], d), UsedOf(target, d);
    assert row in target + [row];
    forall x | x in a ensures x in b || (d == row.decision && x == row.identifier) {
      var r :| r in target + [row] && r.decision == d && r.identifier == x;
      assert r in target || r == row;
    }
    forall x | x in b ensures x in a {
      var r :| r in target && r.decision == d && r.identifier == x;
      assert r in target + [row];
    }
  }

  class JobArchiveUploader {
    const decisions: map<int, nat>
    const logger: UploadLogger
    /** The database gives its rows consecutive identifiers from here on. */
    const base: nat
    var rows: seq<Row>
    var inUse: map<nat, set<string>>
    var saved: map<Key, nat>
    var chunk: seq<Pending>
    ghost var peak: nat

    constructor (decisions: map<int, nat>, logger: UploadLogger, base: nat)
      ensures this.decisions == decisions && this.logger == logger && this.base == base
      ensures Matches([]) && chunk == [] && peak == 0
    {
      this.decisions, this.logger, this.base := decisions, logger, base;
      rows, saved, chunk, peak := [], map[], [], 0;
      inUse := map d | d in decisions.Values :: {};
    }

    /** Saved rows and pending ones together are the rows one-by-one saving would have made. */
    ghost predicate Matches(target: seq<Row>)
      reads this
    {
      target == rows + PendingRows(chunk, base + |rows|) && saved == SavedOf(rows) &&
      UsedMatches(decisions, inUse, target) && Proper(target)
    }

    method UploadChunk(ghost target: seq<Row>)
      requires Matches(target)
      modifies this`rows, this`saved, this`chunk
      ensures Matches(target) && chunk == [] && rows == target
    {
      hide UsedMatches, Proper;
      ghost var before := rows;
      ghost var pending := PendingRows(chunk, base + |rows|);
      for k := 0 to |chunk|
        invariant chunk == old(chunk)
        invariant rows == before + pending[..k] && saved == SavedOf(rows)
      {
        var p := chunk[k];
        var id := base + |rows|;
        ghost var next := before + pending[..k + 1];
        assert next == rows + [Row(id, p.decision, p.identifier, p.parent)];
        assert next[..|next| - 1] == rows;
        rows := rows + [Row(id, p.decision, p.identifier, p.parent)];
        saved := saved[(p.decision, p.identifier) := id];
      }
      assert pending[..|chunk|] == pending;
      chunk := [];
    }

    method TakeIdentifier(d: nat, identifier: string) returns (error: Option<Error>)
      requires d in inUse
      modifies this`inUse
      ensures error == (if !ValidIdentifier(identifier) then Some(InvalidIdentifier)
                        else if identifier in old(inUse)[d] then Some(RepeatedIdentifier) else None)
      ensures inUse == if error.None? then old(inUse)[d := old(inUse)[d] + {identifier}] else old(inUse)
    {
      if !ValidIdentifier(identifier) {
        return Some(InvalidIdentifier);
      }
      if identifier in inUse[d] {
        return Some(RepeatedIdentifier);
      }
      inUse := inUse[d := inUse[d] + {identifier}];
      return None;
    }

    /** Put a report whose parent is saved into the chunk. */
    method Append(r: ReportData, ghost target: seq<Row>) returns (error: Option<Error>, ghost target': seq<Row>)
      requires r.decision in decisions && Matches(target) && (r.parent == "" || (decisions[r.decision], r.parent) in saved)
      modifies this`inUse, this`chunk
      ensures error.Some? ==> SaveOne(decisions, target, r, base) == Failed(error.value)
      ensures error.None? ==> SaveOne(decisions, target, r, base) == Done(target') && Matches(target') && |chunk| == |old(chunk)| + 1
    {
      hide SavedOf, UsedMatches, ValidIdentifier, Proper;
      var d := decisions[r.decision];
      AppendFacts(decisions, inUse, rows, target, d, r);
      target' := target;
      error := TakeIdentifier(d, r.identifier);
      if error.None? {
        var parent := if (d, r.parent) in saved then Some(saved[(d, r.parent)]) else None;
        var p := Pending(d, r.identifier, parent);
        PendingMore(chunk, p, base + |rows|);
        target' := target + [Row(base + |target|, d, r.identifier, parent)];
        UsedMore(decisions, old(inUse), target, target'[|target|]);
        SaveProper(decisions, target, r, base);
        chunk := chunk + [p];
      }
    }

    /** Save the chunk if the parent may be in it or if it is full; say whether the parent is saved. */
    method MakeRoom(r: ReportData, chunkSize: nat, ghost target: seq<Row>, ghost taken: nat, ghost total: nat)
      returns (chunkSize': nat, ok: bool)
      requires r.decision in decisions && Matches(target) && |chunk| == chunkSize <= CHUNK_SIZE + 1
      requires logger.Valid() && Tracked(logger.progress, taken, chunkSize, total)
      modifies this`rows, this`saved, this`chunk, logger
      ensures Matches(target) && |chunk| == chunkSize' <= CHUNK_SIZE
      ensures logger.Valid() && Tracked(logger.progress, taken, chunkSize', total)
      ensures ok <==> r.parent == "" || (decisions[r.decision], r.parent) in SavedOf(target)
      ensures ok ==> r.parent == "" || (decisions[r.decision], r.parent) in saved
    {
      hide SavedOf, UsedMatches, Rounding, NonDecreasing, PendingRows;
      var key := (decisions[r.decision], r.parent);
      if key in saved {
        assert target[..|rows|] == rows;
        SavedStays(target, |rows|, key);
      }
      chunkSize', ok := chunkSize, true;
      if r.parent != "" && key !in saved {
        UploadChunk(target);
        logger.Update(chunkSize);
        chunkSize' := 0;
        ok := key in saved;
      } else if chunkSize > CHUNK_SIZE {
        UploadChunk(target);
        logger.Update(chunkSize);
        chunkSize' := 0;
      }
    }

    method UploadReports(data: seq<ReportData>) returns (outcome: Outcome)
      requires Matches([]) && chunk == [] && peak == 0 && Rounding(logger.percent)
      modifies this, logger
      ensures outcome == OneByOne(decisions, data, base)
      ensures outcome.Done? ==> rows == outcome.rows && chunk == [] && saved == SavedOf(rows)
      ensures peak <= CHUNK_SIZE + 1
      ensures |logger.written| > 0 && NonDecreasing(logger.written)
      ensures outcome.Done? ==> logger.written[|logger.written| - 1] == if data == [] then 0 else 100
    {
      hide SavedOf, SaveOne, UsedMatches, Proper, PendingRows, NonDecreasing, Rounding;
      logger.Start(|data|);
      var chunkSize := 0;
      ghost var target: seq<Row> := [];
      for n := 0 to |data|
        invariant Matches(target) && OneByOne(decisions, data[..n], base) == Done(target)
        invariant |chunk| == chunkSize <= CHUNK_SIZE + 1 && peak <= CHUNK_SIZE + 1
        invariant logger.Valid() && Tracked(logger.progress, n, chunkSize, |data|) && (n == 0 ==> logger.written == [0])
      {
        var r := data[n];
        assert data[..n + 1][..n] == data[..n];
        if r.decision !in decisions {
          DecisionMissing(decisions, target, r, base);
          Refused(decisions, data, base, n, target, UnknownDecision);
          return Failed(UnknownDecision);
        }
        var ok: bool;
        chunkSize, ok := MakeRoom(r, chunkSize, target, n, |data|);
        if !ok {
          ParentMissing(decisions, target, r, base);
          Refused(decisions, data, base, n, target, Corrupted);
          return Failed(Corrupted);
        }
        var error: Option<Error>;
        ghost var target': seq<Row>;
        error, target' := Append(r, target);
        if error.Some? {
          Refused(decisions, data, base, n, target, error.value);
          return Failed(error.value);
        }
        target := target';
        chunkSize := chunkSize + 1;
        peak := if peak < |chunk| then |chunk| else peak;
      }
      assert data[..|data|] == data;
      UploadChunk(target);
      logger.Update(chunkSize);
      if data != [] {
        PercentFull(logger.percent, |data|);
      }
      return Done(rows);
    }
  }

  /** Reports counted as done and reports pending make up the reports taken. */
  predicate Tracked(progress: Option<(nat, nat, nat)>, taken: nat, pending: nat, total: nat) {
    if total == 0 then progress == None
    else progress.Some? && progress.value.1 == total && progress.value.0 + pending == taken
  }

  lemma DecisionMissing(decisions: map<int, nat>, rows: seq<Row>, r: ReportData, base: nat)
    requires r.decision !in decisions
    ensures SaveOne(decisions, rows, r, base) == Failed(UnknownDecision)
  {}

  lemma ParentMissing(decisions: map<int, nat>, rows: seq<Row>, r: ReportData, base: nat)
    requires r.decision in decisions && r.parent != "" && (decisions[r.decision], r.parent) !in SavedOf(rows)
    ensures SaveOne(decisions, rows, r, base) == Failed(Corrupted)
  {
    hide SavedOf;
  }

  lemma Refused(decisions: map<int, nat>, data: seq<ReportData>, base: nat, n: nat, target: seq<Row>, error: Error)
    requires n < |data| && OneByOne(decisions, data[..n], base) == Done(target)
    requires SaveOne(decisions, target, data[n], base) == Failed(error)
    ensures OneByOne(decisions, data, base) == Failed(error)
  {
    hide SaveOne;
    assert data[..n + 1][..n] == data[..n];
    FailureStays(decisions, data, base, n + 1);
  }

  /** What the upload looks up agrees with one-by-one saving. */
  lemma AppendFacts(decisions: map<int, nat>, inUse: map<nat, set<string>>, rows: seq<Row>, target: seq<Row>, d: nat, r: ReportData)
    requires UsedMatches(decisions, inUse, target) && Proper(target) && r.decision in decisions && d == decisions[r.decision]
    requires |rows| <= |target| && rows == target[..|rows|]
    ensures d in inUse && (r.identifier in inUse[d] <==> (d, r.identifier) in SavedOf(target))
    ensures (d, "") !in SavedOf(rows)
    ensures (d, r.parent) in SavedOf(rows) ==> (d, r.parent) in SavedOf(target) && SavedOf(target)[(d, r.parent)] == SavedOf(rows)[(d, r.parent)]
  {
    hide SavedOf;
    assert d in decisions.Values;
    UsedMeaning(target, d, r.identifier);
    NoEmptyKey(target, d);
    if (d, "") in SavedOf(rows) {
      SavedStays(target, |rows|, (d, ""));
    }
    if (d, r.parent) in SavedOf(rows) {
      SavedStays(target, |rows|, (d, r.parent));
    }
  }
}
