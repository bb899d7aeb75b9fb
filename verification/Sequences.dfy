/** Sequences without repetition, and a stable sort. */
module Sequences {

  ghost predicate NoRepeats<T(!new)>(s: seq<T>) {
    forall i, j | 0 <= i < j < |s| :: s[i] != s[j]
  }

  lemma {:induction false} CountOnce<T(!new)>(s: seq<T>, x: T)
    requires NoRepeats(s)
    ensures multiset(s)[x] <= 1
  {
    if s != [] {
      var init, last := s[..|s| - 1], s[|s| - 1];
      assert s == init + [last];
      CountOnce(init, x);
      assert last !in init;
    }
  }

  lemma NoRepeatsWithin<T(!new)>(a: seq<T>, b: seq<T>)
    requires NoRepeats(a) && multiset(b) <= multiset(a)
    ensures NoRepeats(b)
  {
    forall i, j | 0 <= i < j < |b| ensures b[i] != b[j] {
      CountOnce(a, b[i]);
      assert b == b[..i] + [b[i]] + b[i + 1..j] + [b[j]] + b[j + 1..];
      assert multiset(b)[b[i]] <= 1;
    }
  }

  // ---------------------------------------------------------------- sorting

  function Place<T>(before: (T, T) -> bool, s: seq<T>, x: T): seq<T> {
    if s == [] then [x] else if before(x, s[0]) then [x] + s else [s[0]] + Place(before, s[1..], x)
  }

  /** A stable sort: elements of which neither is before the other keep their order. */
  function SortedBy<T>(before: (T, T) -> bool, s: seq<T>): seq<T> {
    if s == [] then [] else Place(before, SortedBy(before, s[..|s| - 1]), s[|s| - 1])
  }

  ghost predicate StrictOrder<T(!new)>(before: (T, T) -> bool) {
    (forall x, y :: !(before(x, y) && before(y, x))) &&
    (forall x, y, z :: before(x, y) && before(y, z) ==> before(x, z))
  }

  ghost predicate Arranged<T(!new)>(before: (T, T) -> bool, s: seq<T>) {
    forall i, j | 0 <= i < j < |s| :: !before(s[j], s[i])
  }

  lemma {:induction false} PlaceAdds<T(!new)>(before: (T, T) -> bool, s: seq<T>, x: T)
    ensures multiset(Place(before, s, x)) == multiset(s) + multiset{x}
    ensures forall y :: y in Place(before, s, x) <==> y in s || y == x
  {
    if s != [] {
      assert s == [s[0]] + s[1..];
      PlaceAdds(before, s[1..], x);
    }
  }

  lemma ArrangedFront<T(!new)>(before: (T, T) -> bool, x: T, s: seq<T>)
    requires Arranged(before, s) && forall y | y in s :: !before(y, x)
    ensures Arranged(before, [x] + s)
  {
    var all := [x] + s;
    forall i, j | 0 <= i < j < |all| ensures !before(all[j], all[i]) {
      assert all[j] == s[j - 1] && s[j - 1] in s;
    }
  }

  lemma {:induction false} PlaceArranged<T(!new)>(before: (T, T) -> bool, s: seq<T>, x: T)
    requires StrictOrder(before) && Arranged(before, s)
    ensures Arranged(before, Place(before, s, x))
  {
    if s == [] {
      assert Place(before, s, x) == [x];
    } else if before(x, s[0]) {
      forall y | y in s ensures !before(y, x) {
        var j :| 0 <= j < |s| && s[j] == y;
        assert !before(s[j], s[0]);
      }
      ArrangedFront(before, x, s);
    } else {
      var rest := s[1..];
      assert forall j | 0 <= j < |rest| :: rest[j] == s[j + 1];
      PlaceArranged(before, rest, x);
      PlaceAdds(before, rest, x);
      forall y | y in Place(before, rest, x) ensures !before(y, s[0]) {
        if y != x {
          var j :| 0 <= j < |rest| && rest[j] == y;
        }
      }
      ArrangedFront(before, s[0], Place(before, rest, x));
    }
  }

  lemma {:induction false} SortedByArranged<T(!new)>(before: (T, T) -> bool, s: seq<T>)
    requires StrictOrder(before)
    ensures Arranged(before, SortedBy(before, s)) && multiset(SortedBy(before, s)) == multiset(s)
  {
    if s != [] {
      hide Place, Arranged, StrictOrder, SortedBy;
      var init, last := s[..|s| - 1], s[|s| - 1];
      SortedByStep(before, s);
      MultisetStep(s);
      SortedByArranged(before, init);
      PlaceArranged(before, SortedBy(before, init), last);
      PlaceAdds(before, SortedBy(before, init), last);
    } else {
      assert SortedBy(before, s) == [];
    }
  }

  lemma SortedByStep<T>(before: (T, T) -> bool, s: seq<T>)
    requires s != []
    ensures SortedBy(before, s) == Place(before, SortedBy(before, s[..|s| - 1]), s[|s| - 1])
  {
    hide Place;
  }

  lemma MultisetStep<T>(s: seq<T>)
    requires s != []
    ensures multiset(s) == multiset(s[..|s| - 1]) + multiset{s[|s| - 1]}
  {
    assert s == s[..|s| - 1] + [s[|s| - 1]];
  }

  /** Neither element goes before the other. */
  predicate Tied<T>(before: (T, T) -> bool, x: T, y: T) {
    !before(x, y) && !before(y, x)
  }

  ghost predicate TiesChain<T(!new)>(before: (T, T) -> bool) {
    forall x, y, z :: Tied(before, x, y) && Tied(before, y, z) ==> Tied(before, x, z)
  }

  /** The elements tied with x, in order. */
  function Ties<T>(before: (T, T) -> bool, s: seq<T>, x: T): seq<T> {
    if s == [] then [] else (if Tied(before, x, s[0]) then [s[0]] else []) + Ties(before, s[1..], x)
  }

  lemma TiesHead<T>(before: (T, T) -> bool, s: seq<T>, y: T, x: T)
    ensures Ties(before, [y] + s, x) == (if Tied(before, x, y) then [y] else []) + Ties(before, s, x)
  {
    assert ([y] + s)[1..] == s;
  }

  lemma {:induction false} TiesLast<T>(before: (T, T) -> bool, s: seq<T>, y: T, x: T)
    ensures Ties(before, s + [y], x) == Ties(before, s, x) + if Tied(before, x, y) then [y] else []
  {
    var last := if Tied(before, x, y) then [y] else [];
    if s == [] {
      assert s + [y] == [y] && [y][1..] == [];
    } else {
      hide Tied, Ties;
      var head := if Tied(before, x, s[0]) then [s[0]] else [];
      assert s + [y] == [s[0]] + (s[1..] + [y]) && s == [s[0]] + s[1..];
      TiesHead(before, s[1..] + [y], s[0], x);
      TiesHead(before, s[1..], s[0], x);
      TiesLast(before, s[1..], y, x);
      assert head + (Ties(before, s[1..], x) + last) == head + Ties(before, s[1..], x) + last;
    }
  }

  lemma {:induction false} NoTies<T>(before: (T, T) -> bool, s: seq<T>, x: T)
    requires forall e | e in s :: !Tied(before, x, e)
    ensures Ties(before, s, x) == []
  {
    if s != [] {
      assert s[0] in s;
      NoTies(before, s[1..], x);
    }
  }

  /** What goes before the first element goes before all of them. */
  lemma BeforeAll<T(!new)>(before: (T, T) -> bool, s: seq<T>, y: T, j: nat)
    requires StrictOrder(before) && TiesChain(before) && Arranged(before, s) && j < |s| && before(y, s[0])
    ensures before(y, s[j])
  {
    var e := s[j];
    assert j > 0 ==> !before(e, s[0]);
    assert Tied(before, y, e) && Tied(before, e, s[0]) ==> Tied(before, y, s[0]);
  }

  lemma PlacedApart<T(!new)>(before: (T, T) -> bool, s: seq<T>, y: T, x: T)
    requires StrictOrder(before) && TiesChain(before) && Arranged(before, s) && s != [] && before(y, s[0]) && Tied(before, x, y)
    ensures Ties(before, s, x) == []
  {
    hide StrictOrder, Arranged, Ties;
    forall e | e in s ensures !Tied(before, x, e) {
      var j :| 0 <= j < |s| && s[j] == e;
      BeforeAll(before, s, y, j);
      assert Tied(before, y, x);
      assert Tied(before, x, e) ==> Tied(before, y, e);
    }
    NoTies(before, s, x);
  }

  lemma {:induction false} PlaceKeepsTies<T(!new)>(before: (T, T) -> bool, s: seq<T>, y: T, x: T)
    requires StrictOrder(before) && TiesChain(before) && Arranged(before, s)
    ensures Ties(before, Place(before, s, y), x) == Ties(before, s, x) + if Tied(before, x, y) then [y] else []
  {
    hide Tied, StrictOrder, TiesChain, Arranged, Ties;
    var last := if Tied(before, x, y) then [y] else [];
    if s == [] {
      assert Place(before, s, y) == [] + [y];
      TiesLast(before, s, y, x);
    } else if before(y, s[0]) {
      TiesHead(before, s, y, x);
      if Tied(before, x, y) {
        PlacedApart(before, s, y, x);
      }
    } else {
      var head := if Tied(before, x, s[0]) then [s[0]] else [];
      TiesHead(before, Place(before, s[1..], y), s[0], x);
      TiesHead(before, s[1..], s[0], x);
      assert s == [s[0]] + s[1..];
      ArrangedRest(before, s);
      PlaceKeepsTies(before, s[1..], y, x);
      assert head + (Ties(before, s[1..], x) + last) == head + Ties(before, s[1..], x) + last;
    }
  }

  lemma ArrangedRest<T(!new)>(before: (T, T) -> bool, s: seq<T>)
    requires Arranged(before, s) && s != []
    ensures Arranged(before, s[1..])
  {}

  /** The sort is stable: it keeps the order of tied elements. */
  lemma {:induction false} SortedByStable<T(!new)>(before: (T, T) -> bool, s: seq<T>, x: T)
    requires StrictOrder(before) && TiesChain(before)
    ensures Ties(before, SortedBy(before, s), x) == Ties(before, s, x)
  {
    hide Place, Arranged, StrictOrder, TiesChain, Ties;
    if s != [] {
      hide SortedBy;
      var init, last := s[..|s| - 1], s[|s| - 1];
      SortedByStep(before, s);
      SortedByStable(before, init, x);
      SortedByArranged(before, init);
      PlaceKeepsTies(before, SortedBy(before, init), last, x);
      TiesLast(before, init, last, x);
      assert s == init + [last];
    } else {
      assert SortedBy(before, s) == s;
    }
  }
}
