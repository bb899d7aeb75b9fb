/** What a comparison says, in terms of the stored data alone: attributes, set sizes and thresholds. */
module Links {
  import opened Options
  import opened Associations

  /** Every attribute of the mark is an attribute of the report with the same value. */
  ghost predicate Covers(m: Mark, r: Report) {
    forall name | name in m.attrs :: name in r.attrs && r.attrs[name] == m.attrs[name]
  }

  /** The number is the share of common forests among all forests. */
  ghost predicate IsShare(q: real, a: set<string>, b: set<string>) {
    q * |a + b| as real == |a * b| as real
  }

  /** There is a common forest, and the common ones are at least the given share of all. */
  ghost predicate Enough(a: set<string>, b: set<string>, threshold: real) {
    a * b != {} && |a * b| as real >= threshold * |a + b| as real
  }

  /** The index is the share of common forests among all forests; two empty traces are alike. */
  lemma JaccardShare(a: set<string>, b: set<string>)
    ensures a + b != {} ==> IsShare(Jaccard(a, b), a, b)
    ensures a + b == {} ==> Jaccard(a, b) == 1.0
  {
    UnionSize(a, b);
    if a + b != {} {
      Quotient(|a * b|, |a + b|);
    } else {
      assert a == {} && b == {};
    }
  }

  lemma Quotient(n: nat, d: nat)
    requires d != 0
    ensures (n as real / d as real) * d as real == n as real
  {}

  /** The index reaches a threshold exactly when the common forests are that share of all, and it is
      positive exactly when there is a common forest or no forest at all. */
  lemma JaccardReaches(a: set<string>, b: set<string>, threshold: real)
    ensures a + b != {} ==> (Jaccard(a, b) >= threshold <==> |a * b| as real >= threshold * |a + b| as real)
    ensures Jaccard(a, b) > 0.0 <==> a * b != {} || a + b == {}
  {
    JaccardShare(a, b);
    JaccardMeaning(a, b);
    if a + b != {} {
      assert |a + b| > 0;
      Scaled(Jaccard(a, b), threshold, |a + b| as real);
    }
  }

  lemma JaccardPasses(a: set<string>, b: set<string>, threshold: real)
    ensures a + b == {} ==> (Passes(Jaccard(a, b), threshold) <==> threshold <= 1.0)
    ensures a + b != {} ==> (Passes(Jaccard(a, b), threshold) <==> Enough(a, b, threshold))
  {
    hide Jaccard;
    JaccardShare(a, b);
    JaccardReaches(a, b, threshold);
  }

  lemma Scaled(x: real, y: real, d: real)
    requires d > 0.0
    ensures x >= y <==> x * d >= y * d
  {
    if x >= y {
      assert (x - y) * d >= 0.0;
    } else {
      assert (y - x) * d > 0.0;
    }
  }

  // ---------------------------------------------------------------- one family after another

  lemma SafeLinks(m: Mark, r: Report)
    requires m.SafeMark?
    ensures MarkLink(m, r) == ReportLink(m, r) == if r.SafeReport? && Covers(m, r) then Link(true, 1.0, "") else NoLink
  {}

  /** Which conversion of the trace a forest mark is compared with. */
  function Compared(c: Comparison, t: Trace): Option<set<string>>
    requires c.Forests?
  {
    if c.perThread then t.threads else t.relevant
  }

  /** Unsafe marks link wherever the attributes fit; both sides agree. */
  lemma UnsafeLinks(m: Mark, r: Report)
    requires m.UnsafeMark?
    ensures MarkLink(m, r) == ReportLink(m, r)
    ensures MarkLink(m, r).Link? <==> r.UnsafeReport? && Covers(m, r)
    ensures MarkLink(m, r).Link? ==> MarkLink(m, r) == UnsafeLink(m, r.trace)
  {
    hide Similarity, Passes;
  }

  /** A regular expression makes a similar link when it is found and the threshold is at most one. */
  lemma RegexpLinks(m: Mark, r: Report)
    requires m.UnsafeMark? && m.comparison.Regexp? && r.UnsafeReport? && Covers(m, r)
    ensures var found := r.trace.found.Some? && r.trace.found.value(m.comparison.pattern);
      MarkLink(m, r) == if found then Link(m.threshold <= 1.0, 1.0, "") else Link(false, 0.0, "")
  {
    hide Jaccard, MarkLink, ReportLink;
    UnsafeLinks(m, r);
  }

  /** Forests make a similar link when enough of them are common; a trace that cannot be converted makes a
      dissimilar one. */
  lemma ForestLinks(m: Mark, r: Report)
    requires m.UnsafeMark? && m.comparison.Forests? && r.UnsafeReport? && Covers(m, r)
    ensures MarkLink(m, r).Link? && MarkLink(m, r).problem == ""
    ensures Compared(m.comparison, r.trace).None? ==> MarkLink(m, r) == Link(false, 0.0, "")
    ensures Compared(m.comparison, r.trace).Some? ==>
      var a, b := m.comparison.hashes, Compared(m.comparison, r.trace).value;
      && (a + b == {} ==> MarkLink(m, r) == Link(m.threshold <= 1.0, 1.0, ""))
      && (a + b != {} ==>
            IsShare(MarkLink(m, r).result, a, b) && (MarkLink(m, r).similar <==> Enough(a, b, m.threshold)))
  {
    hide Jaccard, Passes, IsShare, Enough, MarkLink, ReportLink, Covers;
    UnsafeLinks(m, r);
    if Compared(m.comparison, r.trace).Some? {
      JaccardShare(m.comparison.hashes, Compared(m.comparison, r.trace).value);
      JaccardPasses(m.comparison.hashes, Compared(m.comparison, r.trace).value, m.threshold);
    }
  }

  /** The text a mark of unknown reports finds, before it is shortened. */
  ghost predicate Finds(m: Mark, text: string, searched: (string, string) -> Option<string>, problem: string)
    requires m.UnknownMark?
  {
    if m.isRegexp then searched(m.searchFor, m.pattern) == Some(problem)
    else problem == m.pattern && exists i, j :: 0 <= i <= j <= |text| && text[i..j] == m.searchFor
  }

  lemma OccursMeaning(needle: string, text: string)
    ensures Occurs(needle, text) <==> exists i, j :: 0 <= i <= j <= |text| && text[i..j] == needle
  {
    if Occurs(needle, text) {
      var i :| 0 <= i <= |text| && needle <= text[i..];
      assert text[i..i + |needle|] == text[i..][..|needle|] == needle;
    }
    if i, j :| 0 <= i <= j <= |text| && text[i..j] == needle {
      assert text[i..][..j - i] == text[i..j];
      assert needle <= text[i..];
    }
  }

  lemma MatchMeaning(m: Mark, text: string, searched: (string, string) -> Option<string>)
    requires m.UnknownMark?
    ensures MatchUnknown(text, searched, m).Some? <==> exists p :: Finds(m, text, searched, p) && p != ""
    ensures forall p | Finds(m, text, searched, p) && p != "" ::
      MatchUnknown(text, searched, m) == Some(if |p| <= 20 then p else "Too long!")
  {
    OccursMeaning(m.searchFor, text);
    if MatchUnknown(text, searched, m).Some? {
      var p := if m.isRegexp then searched(m.searchFor, m.pattern).value else m.pattern;
      assert Finds(m, text, searched, p) && p != "";
    }
  }

  /** Marks of unknown reports link when component and attributes fit, the description can be read and
      something is found in it; the mark side also wants the description not to be empty. The link is
      always similar and carries the found text, or a note when it has more than twenty characters. */
  lemma UnknownLinks(m: Mark, r: Report, problem: string)
    requires m.UnknownMark?
    ensures ReportLink(m, r) == NoLink || (ReportLink(m, r).similar && ReportLink(m, r).result == 1.0)
    ensures MarkLink(m, r) ==
      if r.UnknownReport? && r.description.Text? && r.description.text == "" then NoLink else ReportLink(m, r)
    ensures ReportLink(m, r).Link? <==>
      && r.UnknownReport? && Covers(m, r) && m.component == r.component && r.description.Text?
      && exists p :: Finds(m, r.description.text, r.description.searched, p) && p != ""
    ensures ReportLink(m, r).Link? && Finds(m, r.description.text, r.description.searched, problem) ==>
      ReportLink(m, r).problem == if |problem| <= 20 then problem else "Too long!"
  {
    assert Covers(m, r) <==> Contained(m.attrs, r.attrs);
    if r.UnknownReport? && r.description.Text? {
      MatchMeaning(m, r.description.text, r.description.searched);
      assert m.isRegexp || problem == m.pattern || !Finds(m, r.description.text, r.description.searched, problem);
    }
    hide MatchUnknown, Contained, Finds;
  }

  /** A link joins a mark and a report of one family. */
  lemma LinksJoinFamilies(m: Mark, r: Report)
    ensures MarkLink(m, r).Link? || ReportLink(m, r).Link? ==>
      (m.SafeMark? && r.SafeReport?) || (m.UnsafeMark? && r.UnsafeReport?) || (m.UnknownMark? && r.UnknownReport?)
  {
    hide MatchUnknown, UnsafeLink, Contained;
  }
}
