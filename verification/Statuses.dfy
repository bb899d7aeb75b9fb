/** The bug status of an unsafe report, and the three ways the code computes it.

  A mark carries a status exactly when its verdict is "bug". The collector used by the two batch
  algorithms depends on the order in which the database returns the rows, and the incremental sum
  does not always agree with it; both facts are stated here with their exact conditions. */
module Statuses {
  import opened Verdicts

  const BUG := 1

  datatype Entry = Bug(status: nat) | NotBug(code: nat)

  ghost predicate Valid(es: seq<Entry>) {
    forall e | e in es :: e.NotBug? ==> e.code != BUG
  }

  function Voice(e: Entry): Verdict {
    if e.Bug? then Assessed(BUG) else Assessed(e.code)
  }

  datatype Status = NoBugs | Agreed(status: nat) | Mixed

  /** One more mark, as the collector's `add` treats it. */
  function Next(s: Status, e: Entry): Status {
    match s
    case Mixed => Mixed
    case NoBugs => if e.Bug? then Agreed(e.status) else NoBugs
    case Agreed(status) => if e == Bug(status) then s else Mixed
  }

  function Collect(es: seq<Entry>): Status {
    if es == [] then NoBugs else Next(Collect(es[..|es| - 1]), es[|es| - 1])
  }

  class BugStatusCollector {
    var incompatible: set<nat>
    var statuses: map<nat, nat>

    ghost predicate Consistent()
      reads this
    {
      incompatible !! statuses.Keys
    }

    ghost function StatusOf(r: nat): Status
      reads this
    {
      if r in incompatible then Mixed else if r in statuses then Agreed(statuses[r]) else NoBugs
    }

    constructor ()
      ensures Consistent() && forall r :: StatusOf(r) == NoBugs
    {
      incompatible, statuses := {}, map[];
    }

    method Add(r: nat, e: Entry)
      requires Consistent()
      modifies this
      ensures Consistent()
      ensures StatusOf(r) == Next(old(StatusOf(r)), e)
      ensures forall q | q != r :: StatusOf(q) == old(StatusOf(q))
    {
      if r in incompatible { return; }
      if e.Bug? {
        if r !in statuses {
          statuses := statuses[r := e.status];
        }
        if statuses[r] != e.status {
          incompatible := incompatible + {r};
          statuses := statuses - {r};
        }
      } else if r in statuses {
        incompatible := incompatible + {r};
        statuses := statuses - {r};
      }
    }
  }

  // ---------------------------------------------------------------- what the collector computes

  ghost predicate HasBug(es: seq<Entry>) { exists e :: e in es && e.Bug? }

  ghost predicate HasOther(es: seq<Entry>) { exists e :: e in es && e.NotBug? }

  ghost predicate BugsAgree(es: seq<Entry>, status: nat) { forall e | e in es && e.Bug? :: e.status == status }

  /** All marks that are not bugs come before the first bug. */
  ghost predicate BugsLast(es: seq<Entry>) {
    forall i, j | 0 <= i < j < |es| && es[i].Bug? :: es[j].Bug?
  }

  lemma {:induction false} CollectMeaning(es: seq<Entry>)
    ensures Collect(es) == NoBugs <==> !HasBug(es)
    ensures forall s :: Collect(es) == Agreed(s) <==> HasBug(es) && BugsAgree(es, s) && BugsLast(es)
  {
    if es != [] {
      var init, last := es[..|es| - 1], es[|es| - 1];
      assert es == init + [last];
      CollectMeaning(init);
      assert HasBug(es) <==> HasBug(init) || last.Bug?;
      assert forall s :: BugsAgree(es, s) <==> BugsAgree(init, s) && (last.Bug? ==> last.status == s);
      assert BugsLast(es) <==> BugsLast(init) && (HasBug(init) ==> last.Bug?) by {
        if BugsLast(es) {
          assert forall i, j | 0 <= i < j < |init| && init[i].Bug? :: es[i] == init[i] && es[j] == init[j];
          if HasBug(init) {
            var i :| 0 <= i < |init| && init[i].Bug?;
            assert es[i].Bug? && es[|es| - 1] == last;
          }
        }
        if BugsLast(init) && (HasBug(init) ==> last.Bug?) {
          forall i, j | 0 <= i < j < |es| && es[i].Bug? ensures es[j].Bug? {
            assert i < |init| && init[i] == es[i];
            assert es[i] in init;
            if j < |init| { assert init[j] == es[j]; }
          }
        }
      }
      if Collect(init).Mixed? && HasBug(es) {
        forall s ensures !(BugsAgree(es, s) && BugsLast(es)) { assert Collect(init) != Agreed(s); assert HasBug(init); }
      }
    }
  }

  // ---------------------------------------------------------------- order of the rows

  function Only(es: seq<Entry>, bugs: bool): seq<Entry> {
    if es == [] then [] else (if es[0].Bug? == bugs then [es[0]] else []) + Only(es[1..], bugs)
  }

  lemma {:induction false} OnlySplits(es: seq<Entry>)
    ensures multiset(Only(es, true)) + multiset(Only(es, false)) == multiset(es)
    ensures forall b, e | e in Only(es, b) :: e.Bug? == b
    ensures forall b, e | e in es && e.Bug? == b :: e in Only(es, b)
    ensures forall b, e | e in Only(es, b) :: e in es
  {
    if es != [] {
      assert es == [es[0]] + es[1..];
      OnlySplits(es[1..]);
    }
  }

  /** The collected status is the same for every order of the rows if and only if the marks are not
      a mixture of bugs that all agree on a status with marks that are not bugs. */
  lemma OrderMatters(es: seq<Entry>)
    ensures (forall es' | multiset(es') == multiset(es) :: Collect(es') == Collect(es)) <==>
      !(HasBug(es) && HasOther(es) && exists s :: BugsAgree(es, s))
  {
    if HasBug(es) && HasOther(es) && exists s :: BugsAgree(es, s) {
      var a, b := BothOutcomes(es);
      assert Collect(a) != Collect(b);
    } else {
      forall es' | multiset(es') == multiset(es) ensures Collect(es') == Collect(es) {
        SameMembers(es, es');
        SettledOrder(es, es');
      }
    }
  }

  lemma SameMembers(es: seq<Entry>, es': seq<Entry>)
    requires multiset(es') == multiset(es)
    ensures forall e :: e in es <==> e in es'
  {
    forall e ensures e in es <==> e in es' {
      assert e in multiset(es) <==> e in multiset(es');
    }
  }

  lemma SettledOrder(es: seq<Entry>, es': seq<Entry>)
    requires forall e :: e in es <==> e in es'
    requires !(HasBug(es) && HasOther(es) && exists s :: BugsAgree(es, s))
    ensures Collect(es') == Collect(es)
  {
    CollectMeaning(es);
    CollectMeaning(es');
    assert HasBug(es) <==> HasBug(es');
    assert forall s :: BugsAgree(es, s) <==> BugsAgree(es', s);
    if !HasOther(es) {
      assert forall i | 0 <= i < |es| :: es[i] in es;
      assert forall i | 0 <= i < |es'| :: es'[i] in es';
      assert BugsLast(es) && BugsLast(es');
    }
    assert forall s :: Collect(es) == Agreed(s) <==> Collect(es') == Agreed(s);
    assert Collect(es).Agreed? ==> Collect(es) == Agreed(Collect(es).status);
    assert Collect(es').Agreed? ==> Collect(es') == Agreed(Collect(es').status);
  }

  lemma BugsAfter(others: seq<Entry>, bugs: seq<Entry>, s: nat)
    requires bugs != [] && (forall e | e in bugs :: e == Bug(s)) && forall e | e in others :: e.NotBug?
    ensures Collect(others + bugs) == Agreed(s)
  {
    var a := others + bugs;
    forall i | 0 <= i < |a| ensures a[i] == if i < |others| then others[i] else bugs[i - |others|] {}
    assert forall i | 0 <= i < |others| :: others[i] in others;
    assert forall i | 0 <= i < |bugs| :: bugs[i] in bugs;
    CollectMeaning(a);
    assert HasBug(a) by { assert bugs[0] in a; }
    assert BugsAgree(a, s);
    assert BugsLast(a);
  }

  lemma BugsBefore(bugs: seq<Entry>, others: seq<Entry>)
    requires bugs != [] && others != [] && (forall e | e in bugs :: e.Bug?) && forall e | e in others :: e.NotBug?
    ensures Collect(bugs + others) == Mixed
  {
    var b := bugs + others;
    assert b[0] == bugs[0] && b[0] in bugs && b[0] in b;
    assert b[|bugs|] == others[0] && b[|bugs|] in others;
    CollectMeaning(b);
    assert HasBug(b) && !BugsLast(b);
    match Collect(b)
    case Agreed(_) => assert false;
    case NoBugs => assert false;
    case Mixed =>
  }

  lemma BothOutcomes(es: seq<Entry>) returns (a: seq<Entry>, b: seq<Entry>)
    requires HasBug(es) && HasOther(es) && exists s :: BugsAgree(es, s)
    ensures multiset(a) == multiset(es) == multiset(b) && Collect(a).Agreed? && Collect(b) == Mixed
  {
    hide Collect, Only;
    var s :| BugsAgree(es, s);
    OnlySplits(es);
    var bugs, others := Only(es, true), Only(es, false);
    a, b := others + bugs, bugs + others;
    assert multiset(a) == multiset(others) + multiset(bugs);
    assert multiset(b) == multiset(bugs) + multiset(others);
    forall e | e in bugs ensures e == Bug(s) { assert e in es && e.Bug?; }
    BugsAfter(others, bugs, s);
    BugsBefore(bugs, others);
  }

  // ---------------------------------------------------------------- the incremental sum

  function Sum(before: Status, e: Entry, verdict: Verdict): Status {
    if before.NoBugs? then
      if e.NotBug? then NoBugs
      else if verdict == Incompatible then Mixed
      else Agreed(e.status)
    else if e.NotBug? then Mixed
    else if before == Agreed(e.status) then before
    else Mixed
  }

  ghost function VerdictOf(es: seq<Entry>): Verdict {
    Consensus(set e | e in es :: Voice(e))
  }

  /** Populating one more mark gives the status a recalculation in insertion order would give, if and
      only if the new mark is not the first bug on a report that already has other marks. */
  lemma IncrementAgrees(es: seq<Entry>, e: Entry)
    requires Valid(es + [e])
    ensures Sum(Collect(es), e, VerdictOf(es + [e])) == Collect(es + [e]) <==>
      !(e.Bug? && !HasBug(es) && es != [])
  {
    assert (es + [e])[..|es|] == es;
    CollectMeaning(es);
    if e.Bug? && !HasBug(es) {
      if es == [] {
        assert (set x | x in es + [e] :: Voice(x)) == {Assessed(BUG)};
      } else {
        var voices := set x | x in es + [e] :: Voice(x);
        assert es[0] in es && es[0] in es + [e] && e in es + [e];
        assert Voice(es[0]) in voices && Voice(e) in voices && Voice(es[0]) != Voice(e);
        assert Voice(es[0]) in voices - {WithoutMarks} && Voice(e) in voices - {WithoutMarks};
        assert VerdictOf(es + [e]) == Incompatible;
      }
    }
  }

  /** A first bug after a mark that is not one: the incremental status and the recalculated one differ. */
  lemma IncrementDiffers()
    ensures var es, e := [NotBug(0)], Bug(0); Sum(Collect(es), e, VerdictOf(es + [e])) != Collect(es + [e])
  {
    hide Sum, Collect, VerdictOf;
    IncrementAgrees([NotBug(0)], Bug(0));
  }
}
