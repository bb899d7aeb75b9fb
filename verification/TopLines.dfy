/** The most covered lines of all files, found with a bounded buffer per file. */
module TopLines {

  /** A line number and how often the line was covered. */
  type Item = (string, int)

  const LIMIT := 30

  function Nums(s: seq<Item>): seq<int> {
    seq(|s|, i requires 0 <= i < |s| => s[i].1)
  }

  function Last<T>(s: seq<T>, n: nat): seq<T> {
    if |s| <= n then s else s[|s| - n..]
  }

  predicate Ascending(s: seq<int>) {
    forall i, j | 0 <= i < j < |s| :: s[i] <= s[j]
  }

  function Min(a: nat, b: nat): nat {
    if a < b then a else b
  }

  /** The nonzero counts. */
  function Nonzero(items: seq<Item>): multiset<int> {
    if items == [] then multiset{}
    else
      var count := items[|items| - 1].1;
      Nonzero(items[..|items| - 1]) + if count == 0 then multiset{} else multiset{count}
  }

  // ---------------------------------------------------------------- the largest elements of a multiset

  /** `kept` are the n largest of `all`. */
  ghost predicate IsTop(kept: multiset<int>, all: multiset<int>, n: nat) {
    kept <= all && |kept| == Min(n, |all|) && forall x, y | x in kept && y in all - kept :: y <= x
  }

  lemma SizeMonotone(a: multiset<int>, b: multiset<int>)
    requires a <= b
    ensures |a| <= |b| && (|a| == |b| ==> a == b)
  {
    assert b == a + (b - a);
    if |a| == |b| {
      assert |b - a| == 0;
    }
  }

  lemma Excess(a: multiset<int>, b: multiset<int>) returns (x: int)
    requires !(a <= b)
    ensures x in a && a[x] > b[x]
  {
    assert (forall y :: a[y] <= b[y]) ==> a <= b;
    x :| a[x] > b[x];
  }

  lemma TopExchange(k: multiset<int>, k': multiset<int>, all: multiset<int>, n: nat, x: int, y: int)
    requires IsTop(k, all, n) && IsTop(k', all, n)
    ensures !(k[x] > k'[x] && k'[y] > k[y])
  {
    assert k[x] > k'[x] ==> x in all - k';
    assert k'[y] > k[y] ==> y in all - k;
  }

  /** There is only one such choice. */
  lemma TopUnique(k: multiset<int>, k': multiset<int>, all: multiset<int>, n: nat)
    requires IsTop(k, all, n) && IsTop(k', all, n)
    ensures k == k'
  {
    if k <= k' {
      SizeMonotone(k, k');
    } else {
      var x := Excess(k, k');
      forall y ensures k'[y] <= k[y] {
        TopExchange(k, k', all, n, x, y);
      }
      SizeMonotone(k', k);
    }
  }

  lemma NotWithin(t: multiset<int>, k: multiset<int>, x: int)
    requires x in k && x !in t && |k| <= |t|
    ensures !(t <= k)
  {
    if t <= k {
      assert |t + multiset{x}| == |t| + 1;
      SizeMonotone(t + multiset{x}, k);
    }
  }

  /** An element left out of b' is no larger than any of the n largest of the whole. */
  lemma TopCrowded(k: multiset<int>, a: multiset<int>, t: multiset<int>, b': multiset<int>, b: multiset<int>, n: nat, x: int, y: int)
    requires t <= b' <= b && IsTop(t, b, n) && IsTop(k, a + b', n) && x in k && y in b - b'
    ensures y <= x
  {
    assert y in b - t;
    assert |k| <= |t| by {
      SizeMonotone(t, b);
    }
    if x !in t {
      NotWithin(t, k, x);
      var z := Excess(t, k);
      assert z in (a + b') - k;
    }
  }

  /**
   * Replacing a part b by some b' that still has the n largest elements of b does not change
   * the n largest elements of the whole.
   */
  lemma TopMerge(k: multiset<int>, a: multiset<int>, t: multiset<int>, b': multiset<int>, b: multiset<int>, n: nat)
    requires t <= b' <= b && IsTop(t, b, n) && IsTop(k, a + b', n)
    ensures IsTop(k, a + b, n)
  {
    SizeMonotone(b', b);
    SizeMonotone(t, b');
    assert |a + b'| == |a| + |b'| && |a + b| == |a| + |b|;
    assert |k| == Min(n, |a + b|);
    forall x, y | x in k && y in (a + b) - k ensures y <= x {
      if y !in (a + b') - k {
        assert y in b - b';
        TopCrowded(k, a, t, b', b, n, x, y);
      }
    }
  }

  lemma SplitTop(high: seq<int>, low: seq<int>, n: nat)
    requires |high| == Min(n, |high| + |low|) && forall x, y | x in high && y in low :: y <= x
    ensures IsTop(multiset(high), multiset(high) + multiset(low), n)
  {
    var h, l := multiset(high), multiset(low);
    assert (h + l) - h == l;
    assert forall x | x in h :: x in high;
    assert forall y | y in l :: y in low;
  }

  lemma AscendingSplit(s: seq<int>, m: nat)
    requires Ascending(s) && m <= |s|
    ensures forall x, y | x in s[m..] && y in s[..m] :: y <= x
  {
    forall x, y | x in s[m..] && y in s[..m] ensures y <= x {
      var i :| 0 <= i < |s| - m && s[m..][i] == x;
      var j :| 0 <= j < m && s[..m][j] == y;
      assert s[j] == y && s[m + i] == x;
    }
  }

  lemma SplitMultiset(s: seq<int>, m: nat)
    requires m <= |s|
    ensures multiset(s) == multiset(s[m..]) + multiset(s[..m])
  {
    assert s == s[..m] + s[m..];
  }

  /** The last n elements of an ascending sequence are its n largest. */
  lemma AscendingTop(s: seq<int>, n: nat)
    requires Ascending(s)
    ensures IsTop(multiset(Last(s, n)), multiset(s), n)
  {
    hide IsTop, Ascending;
    var m := |s| - |Last(s, n)|;
    assert Last(s, n) == s[m..];
    AscendingSplit(s, m);
    SplitTop(s[m..], s[..m], n);
    SplitMultiset(s, m);
  }

  // ---------------------------------------------------------------- the buffer of one file

  /** The buffer is ascending, holds only lines of the file, and ends with the largest counts so far. */
  ghost predicate Buffered(buffer: seq<Item>, items: seq<Item>) {
    Ascending(Nums(buffer)) && |buffer| <= LIMIT + 1 && multiset(buffer) <= multiset(items) &&
    multiset(Nums(buffer)) <= Nonzero(items) &&
    IsTop(multiset(Last(Nums(buffer), LIMIT)), Nonzero(items), LIMIT)
  }

  lemma NonzeroGrows(items: seq<Item>, item: Item)
    ensures Nonzero(items + [item]) == Nonzero(items) + if item.1 == 0 then multiset{} else multiset{item.1}
  {
    assert (items + [item])[..|items|] == items;
  }

  lemma BufferSkips(buffer: seq<Item>, items: seq<Item>, item: Item)
    requires Buffered(buffer, items) && item.1 == 0
    ensures Buffered(buffer, items + [item])
  {
    hide IsTop, Ascending, Last, Nonzero;
    NonzeroGrows(items, item);
    assert Nonzero(items + [item]) == Nonzero(items);
  }

  function Inserted(buffer: seq<Item>, i: nat, item: Item): seq<Item>
    requires i <= |buffer|
  {
    buffer[..i] + [item] + buffer[i..]
  }

  lemma InsertedNums(buffer: seq<Item>, i: nat, item: Item)
    requires i <= |buffer|
    ensures multiset(Nums(Inserted(buffer, i, item))) == multiset(Nums(buffer)) + multiset{item.1}
    ensures multiset(Inserted(buffer, i, item)) == multiset(buffer) + multiset{item}
  {
    assert buffer == buffer[..i] + buffer[i..];
    assert Nums(buffer) == Nums(buffer[..i]) + Nums(buffer[i..]);
    assert Nums(Inserted(buffer, i, item)) == Nums(buffer[..i]) + [item.1] + Nums(buffer[i..]);
  }

  lemma InsertedAscending(buffer: seq<Item>, i: nat, item: Item)
    requires i <= |buffer| && Ascending(Nums(buffer))
    requires forall j | 0 <= j < i :: buffer[j].1 < item.1
    requires i < |buffer| ==> item.1 <= buffer[i].1
    ensures Ascending(Nums(Inserted(buffer, i, item)))
  {
    var nums, out := Nums(buffer), Nums(Inserted(buffer, i, item));
    forall j, k | 0 <= j < k < |out| ensures out[j] <= out[k] {
      assert out[j] == (if j < i then nums[j] else if j == i then item.1 else nums[j - 1]);
      assert out[k] == (if k < i then nums[k] else if k == i then item.1 else nums[k - 1]);
      assert i < |nums| && k > i + 1 ==> nums[i] <= nums[k - 1];
    }
  }

  /** Inserting a line keeps the largest counts at the end of the buffer. */
  lemma BufferInserts(buffer: seq<Item>, items: seq<Item>, item: Item, i: nat)
    requires Buffered(buffer, items) && item.1 != 0 && i <= |buffer|
    requires forall j | 0 <= j < i :: buffer[j].1 < item.1
    requires i < |buffer| ==> item.1 <= buffer[i].1
    ensures var out := Inserted(buffer, i, item);
      Ascending(Nums(out)) && multiset(out) <= multiset(items + [item]) &&
      multiset(Nums(out)) <= Nonzero(items + [item]) &&
      IsTop(multiset(Last(Nums(out), LIMIT)), Nonzero(items + [item]), LIMIT)
  {
    hide IsTop, Ascending, Nonzero, Nums, Inserted;
    var out, nums := Inserted(buffer, i, item), Nums(buffer);
    InsertedAscending(buffer, i, item);
    InsertedNums(buffer, i, item);
    NonzeroGrows(items, item);
    AscendingTop(Nums(out), LIMIT);
    LastWithin(nums, LIMIT);
    var a := multiset{item.1};
    assert multiset(Nums(out)) == a + multiset(nums);
    TopMerge(multiset(Last(Nums(out), LIMIT)), a, multiset(Last(nums, LIMIT)), multiset(nums), Nonzero(items), LIMIT);
    assert a + Nonzero(items) == Nonzero(items + [item]);
  }

  lemma LastWithin<T>(s: seq<T>, n: nat)
    ensures multiset(Last(s, n)) <= multiset(s)
  {
    var m := |s| - |Last(s, n)|;
    assert s == s[..m] + s[m..];
  }

  lemma LastNums(s: seq<Item>, n: nat)
    ensures Nums(Last(s, n)) == Last(Nums(s), n)
  {}

  lemma TruncatedBuffer(out: seq<Item>, items: seq<Item>)
    requires Ascending(Nums(out)) && multiset(out) <= multiset(items) && multiset(Nums(out)) <= Nonzero(items)
    requires IsTop(multiset(Last(Nums(out), LIMIT)), Nonzero(items), LIMIT)
    ensures Buffered(Last(out, LIMIT), items)
  {
    hide IsTop, Nonzero, Nums;
    LastWithin(out, LIMIT);
    LastNums(out, LIMIT);
    LastWithin(Nums(out), LIMIT);
    var nums := Last(Nums(out), LIMIT);
    assert Last(nums, LIMIT) == nums by {
      assert |Nums(out)| == |out| by {
        NumsSize(out);
      }
    }
  }

  lemma NumsSize(s: seq<Item>)
    ensures |Nums(s)| == |s|
  {}

  method ParseLines(items: seq<Item>) returns (kept: seq<Item>)
    ensures multiset(kept) <= multiset(items)
    ensures IsTop(multiset(Nums(kept)), Nonzero(items), LIMIT)
  {
    hide IsTop, Nonzero, Nums, Last;
    var buffer: seq<Item> := [];
    assert Buffered([], items[..0]) by {
      EmptyBuffer();
    }
    for n := 0 to |items|
      invariant Buffered(buffer, items[..n])
    {
      var item := items[n];
      assert items[..n + 1] == items[..n] + [item];
      if item.1 == 0 {
        BufferSkips(buffer, items[..n], item);
      } else {
        var i := FindPlace(buffer, item.1);
        BufferInserts(buffer, items[..n], item, i);
        buffer := Inserted(buffer, i, item);
        TruncatedBuffer(buffer, items[..n + 1]);
        if |buffer| > LIMIT + 1 {
          buffer := Last(buffer, LIMIT);
        }
      }
    }
    assert items[..|items|] == items;
    LastNums(buffer, LIMIT);
    LastWithin(buffer, LIMIT);
    kept := Last(buffer, LIMIT);
  }

  lemma EmptyBuffer()
    ensures Buffered([], [])
  {}

  /** The first place whose count is not smaller; the end when there is none. */
  method FindPlace(buffer: seq<Item>, count: int) returns (i: nat)
    ensures i <= |buffer| && (forall j | 0 <= j < i :: buffer[j].1 < count) && (i < |buffer| ==> count <= buffer[i].1)
  {
    i := 0;
    while i < |buffer| && buffer[i].1 < count
      invariant i <= |buffer| && forall j | 0 <= j < i :: buffer[j].1 < count
    {
      i := i + 1;
    }
  }
}
