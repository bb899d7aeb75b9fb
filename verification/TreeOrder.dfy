/** The order in which the tree of files is shown. */
module TreeOrder {
  import opened Sequences
  import opened FileTree
  import opened FileTreeTheorems

  /** The first name is a beginning of the second, or has the smaller character where they first differ. */
  ghost predicate Earlier(a: string, b: string) {
    || (|a| < |b| && b[..|a|] == a)
    || exists k | 0 <= k < |a| && k < |b| :: a[..k] == b[..k] && a[k] < b[k]
  }

  lemma {:induction false} LessIsEarlier(a: string, b: string)
    ensures Less(a, b) <==> Earlier(a, b)
  {
    if a != "" && b != "" {
      LessIsEarlier(a[1..], b[1..]);
      assert a == [a[0]] + a[1..] && b == [b[0]] + b[1..];
      if a[0] == b[0] {
        EarlierTails(a, b);
      } else {
        EarlierHeads(a, b);
      }
    } else if b != "" {
      assert b[..0] == a;
    }
  }

  lemma EarlierHeads(a: string, b: string)
    requires a != "" && b != "" && a[0] != b[0]
    ensures Earlier(a, b) <==> a[0] < b[0]
  {
    if a[0] < b[0] {
      assert a[..0] == b[..0];
    }
    assert forall k | 0 < k <= |a| && k <= |b| :: a[..k][0] == a[0] && b[..k][0] == b[0];
  }

  lemma EarlierTails(a: string, b: string)
    requires a != "" && b != "" && a[0] == b[0]
    ensures Earlier(a, b) <==> Earlier(a[1..], b[1..])
  {
    var a', b' := a[1..], b[1..];
    assert |a| < |b| ==> b[..|a|] == [b[0]] + b'[..|a'|];
    assert a == [a[0]] + a';
    if k :| 0 <= k < |a| && k < |b| && a[..k] == b[..k] && a[k] < b[k] {
      assert a'[..k - 1] == a[..k][1..] && b'[..k - 1] == b[..k][1..];
      assert a'[k - 1] < b'[k - 1];
    }
    if k :| 0 <= k < |a'| && k < |b'| && a'[..k] == b'[..k] && a'[k] < b'[k] {
      assert a[..k + 1] == [a[0]] + a'[..k] && b[..k + 1] == [b[0]] + b'[..k];
      assert a[k + 1] < b[k + 1];
    }
  }

  /** One level: no folder comes after a file, and neither folders nor files come after a later name. */
  ghost predicate InOrder(es: seq<Entry>) {
    forall i, j | 0 <= i < j < |es| ::
      && (es[j].Folder? ==> es[i].Folder?)
      && (es[i].Folder? == es[j].Folder? ==> !Earlier(es[j].text, es[i].text))
  }

  /** Every level of the tree is in order. */
  ghost predicate AllInOrder(es: seq<Entry>)
    decreases Height(es), 1
  {
    InOrder(es) && forall i | 0 <= i < |es| && es[i].Folder? :: HeightAt(es, i); AllInOrder(es[i].children)
  }

  lemma {:induction false} HeightAt(es: seq<Entry>, i: nat)
    requires i < |es|
    ensures EntryHeight(es[i]) <= Height(es)
    ensures es[i].Folder? ==> Height(es[i].children) < Height(es)
  {
    if i > 0 {
      HeightAt(es[1..], i - 1);
    }
  }

  lemma BeforeIsStrict()
    ensures StrictOrder(Before) && TiesChain(Before)
  {
    hide Before;
    forall x, y, z ensures !(Before(x, y) && Before(y, x)) && (Before(x, y) && Before(y, z) ==> Before(x, z)) {
      BeforeOrder(x, y, z);
    }
    forall x, y, z | Tied(Before, x, y) && Tied(Before, y, z) ensures Tied(Before, x, z) {
      BeforeOrder(x, y, z);
      BeforeOrder(y, z, x);
    }
  }

  lemma SortedInOrder(es: seq<Entry>)
    ensures InOrder(Sorted(es)) && multiset(Sorted(es)) == multiset(es)
  {
    hide Less, Earlier, SortedBy;
    BeforeIsStrict();
    SortedByArranged(Before, es);
    var s := Sorted(es);
    forall i, j | 0 <= i < j < |s|
      ensures s[j].Folder? ==> s[i].Folder?
      ensures s[i].Folder? == s[j].Folder? ==> !Earlier(s[j].text, s[i].text)
    {
      assert !Before(s[j], s[i]);
      LessIsEarlier(s[j].text, s[i].text);
    }
  }

  lemma {:induction false} BelowInOrder(es: seq<Entry>)
    requires InOrder(es)
    ensures |SortBelow(es)| == |es|
    ensures forall i | 0 <= i < |es| :: SortBelow(es)[i] == SortEntry(es[i])
    ensures InOrder(SortBelow(es))
    decreases |es|
  {
    hide SortEntry, Earlier;
    SortBelowAt(es);
    forall i | 0 <= i < |es| ensures SortEntry(es[i]).text == es[i].text && SortEntry(es[i]).Folder? == es[i].Folder? {
      SameLabel(es[i]);
    }
  }

  lemma {:induction false} SortBelowAt(es: seq<Entry>)
    ensures |SortBelow(es)| == |es|
    ensures forall i | 0 <= i < |es| :: SortBelow(es)[i] == SortEntry(es[i])
    decreases |es|
  {
    hide SortEntry;
    if es != [] {
      SortBelowAt(es[1..]);
      assert forall i | 0 < i < |es| :: es[i] == es[1..][i - 1];
    }
  }

  lemma SameLabel(e: Entry)
    ensures SortEntry(e).text == e.text && SortEntry(e).Folder? == e.Folder?
  {
    hide SortChildren;
  }

  /** However the entries came, the sorted tree has folders before files and names in order, at every level. */
  lemma {:induction false} TreeInOrder(es: seq<Entry>)
    ensures AllInOrder(SortChildren(es))
    decreases Height(es)
  {
    hide InOrder, SortBelow;
    var s, tree := Sorted(es), SortChildren(es);
    SortedHeight(es);
    SortedInOrder(es);
    BelowInOrder(s);
    forall i | 0 <= i < |tree| && tree[i].Folder? ensures AllInOrder(tree[i].children) {
      HeightAt(s, i);
      SameLabel(s[i]);
      TreeInOrder(s[i].children);
    }
    Assembled(tree);
  }

  lemma Assembled(es: seq<Entry>)
    requires InOrder(es) && forall i | 0 <= i < |es| && es[i].Folder? :: AllInOrder(es[i].children)
    ensures AllInOrder(es)
  {
    hide InOrder;
  }

  /** The tree shown for a list of files. */
  lemma MadeTreeInOrder(files: seq<(string, string)>)
    ensures AllInOrder(SortChildren(InsertAll([], files)))
  {
    TreeInOrder(InsertAll([], files));
  }

  /** Entries of one level with the same name and type stay in the order in which they were added. */
  lemma SortStable(es: seq<Entry>, x: Entry)
    ensures Ties(Before, Sorted(es), x) == Ties(Before, es, x)
    ensures forall y :: Tied(Before, x, y) <==> x.text == y.text && x.Folder? == y.Folder?
  {
    BeforeIsStrict();
    SortedByStable(Before, es, x);
    hide Before, Ties;
    forall y ensures Tied(Before, x, y) <==> x.text == y.text && x.Folder? == y.Folder? {
      BeforeOrder(x, y, y);
    }
  }
}
