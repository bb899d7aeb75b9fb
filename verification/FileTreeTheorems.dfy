/** Round trip and canonical form of file trees. */
module FileTreeTheorems {
  import opened Options
  import opened Sequences
  import opened FileTree

  // ---------------------------------------------------------------- mapping over sequences

  function Map<A, B>(f: A -> B, s: seq<A>): seq<B> {
    if s == [] then [] else [f(s[0])] + Map(f, s[1..])
  }

  lemma {:induction false} MapConcat<A, B>(f: A -> B, a: seq<A>, b: seq<A>)
    ensures Map(f, a + b) == Map(f, a) + Map(f, b)
    decreases |a|
  {
    if a == [] {
      assert a + b == b;
    } else {
      assert (a + b)[0] == a[0] && (a + b)[1..] == a[1..] + b;
      MapConcat(f, a[1..], b);
    }
  }

  lemma MapOne<A, B>(f: A -> B, x: A)
    ensures Map(f, [x]) == [f(x)]
  {
    assert [x][1..] == [];
  }

  /** Taking out one element takes out one image. */
  lemma MapPull<A, B>(f: A -> B, b: seq<A>, x: A) returns (rest: seq<A>)
    requires x in multiset(b)
    ensures |rest| < |b|
    ensures multiset(b) == multiset{x} + multiset(rest) && multiset(Map(f, b)) == multiset{f(x)} + multiset(Map(f, rest))
  {
    assert x in b;
    var j :| 0 <= j < |b| && b[j] == x;
    rest := b[..j] + b[j + 1..];
    assert b == b[..j] + ([x] + b[j + 1..]);
    MapOne(f, x);
    MapConcat(f, b[..j], [x] + b[j + 1..]);
    MapConcat(f, [x], b[j + 1..]);
    MapConcat(f, b[..j], b[j + 1..]);
  }

  lemma {:induction false} MapMultiset<A, B>(f: A -> B, a: seq<A>, b: seq<A>)
    requires multiset(a) == multiset(b)
    ensures multiset(Map(f, a)) == multiset(Map(f, b))
    decreases |a|
  {
    if a == [] {
      assert |multiset(b)| == |b|;
    } else {
      hide Map;
      var x := a[0];
      var a' := MapPull(f, a, x);
      var b' := MapPull(f, b, x);
      assert multiset(a') == multiset(b') by {
        assert multiset(a') == multiset(a) - multiset{x};
        assert multiset(b') == multiset(b) - multiset{x};
      }
      MapMultiset(f, a', b');
    }
  }

  /** An injective map keeps the number of occurrences. */
  lemma {:induction false} MapCount<A(!new), B>(f: A -> B, a: seq<A>, x: A)
    requires forall y | f(y) == f(x) :: y == x
    ensures multiset(Map(f, a))[f(x)] == multiset(a)[x]
  {
    if a != [] {
      assert a == [a[0]] + a[1..];
      MapCount(f, a[1..], x);
    }
  }

  lemma {:induction false} MapMembers<A(!new), B>(f: A -> B, a: seq<A>, y: B)
    ensures y in Map(f, a) <==> exists x :: x in a && f(x) == y
  {
    if a != [] {
      assert a == [a[0]] + a[1..];
      MapMembers(f, a[1..], y);
    }
  }

  // ---------------------------------------------------------------- what a tree holds

  type Item = (Path, string)

  function Under(text: string): Item -> Item {
    (x: Item) => ([text] + x.0, x.1)
  }

  /** The files of a tree with their component paths, in order. */
  function Listing(es: seq<Entry>): seq<Item>
    decreases es, 0
  {
    if es == [] then [] else ListingOf(es[0]) + Listing(es[1..])
  }

  function ListingOf(e: Entry): seq<Item>
    decreases e, 1
  {
    match e
    case File(text, hash) => [([text], hash)]
    case Folder(text, children) => Map(Under(text), Listing(children))
  }

  lemma {:induction false} ListingConcat(a: seq<Entry>, b: seq<Entry>)
    ensures Listing(a + b) == Listing(a) + Listing(b)
    decreases |a|
  {
    hide ListingOf;
    if a == [] {
      assert a + b == b;
    } else {
      assert (a + b)[0] == a[0] && (a + b)[1..] == a[1..] + b;
      ListingConcat(a[1..], b);
    }
  }

  lemma ListingOne(e: Entry)
    ensures Listing([e]) == ListingOf(e)
  {
    assert [e][1..] == [];
  }

  /** Inserting a file adds that file and loses none. */
  lemma {:induction false} InsertListing(es: seq<Entry>, path: Path, hash: string)
    requires path != []
    ensures multiset(Listing(Insert(es, path, hash))) == multiset(Listing(es)) + multiset{(path, hash)}
    decreases |path|, 2, 0
  {
    if |path| == 1 {
      ListingConcat(es, [File(path[0], hash)]);
      ListingOne(File(path[0], hash));
      assert path == [path[0]];
    } else {
      InsertBelowListing(es, path, hash);
    }
  }

  lemma {:induction false} InsertBelowListing(es: seq<Entry>, path: Path, hash: string)
    requires |path| > 1
    ensures multiset(Listing(InsertBelow(es, path, hash))) == multiset(Listing(es)) + multiset{(path, hash)}
    decreases |path|, 1, |es|
  {
    if es == [] {
      FolderGains([], path, hash);
      ListingOne(Folder(path[0], Insert([], path[1..], hash)));
      assert Listing([]) == [];
    } else if es[0].Folder? && es[0].text == path[0] {
      FolderGains(es[0].children, path, hash);
      var first := Folder(es[0].text, Insert(es[0].children, path[1..], hash));
      assert ([first] + es[1..])[1..] == es[1..];
      assert Listing([first] + es[1..]) == ListingOf(first) + Listing(es[1..]);
    } else {
      InsertBelowListing(es[1..], path, hash);
      var rest := InsertBelow(es[1..], path, hash);
      assert ([es[0]] + rest)[1..] == rest;
      assert Listing([es[0]] + rest) == ListingOf(es[0]) + Listing(rest);
    }
  }

  lemma {:induction false} FolderGains(children: seq<Entry>, path: Path, hash: string)
    requires |path| > 1
    ensures multiset(ListingOf(Folder(path[0], Insert(children, path[1..], hash)))) ==
      multiset(ListingOf(Folder(path[0], children))) + multiset{(path, hash)}
    decreases |path|, 0, 0
  {
    InsertListing(children, path[1..], hash);
    var a, b := Listing(Insert(children, path[1..], hash)), Listing(children) + [(path[1..], hash)];
    MapMultiset(Under(path[0]), a, b);
    MapConcat(Under(path[0]), Listing(children), [(path[1..], hash)]);
    assert path == [path[0]] + path[1..];
    assert Map(Under(path[0]), [(path[1..], hash)]) == [(path, hash)];
  }

  // ---------------------------------------------------------------- sorting keeps the files

  lemma {:induction false} PlaceListing(es: seq<Entry>, x: Entry)
    ensures multiset(Listing(Place(Before, es, x))) == multiset(Listing(es)) + multiset(ListingOf(x))
  {
    hide ListingOf;
    if es == [] {
      ListingOne(x);
    } else if Before(x, es[0]) {
      assert ([x] + es)[1..] == es;
      assert Listing([x] + es) == ListingOf(x) + Listing(es);
    } else {
      PlaceListing(es[1..], x);
      var rest := Place(Before, es[1..], x);
      assert ([es[0]] + rest)[1..] == rest;
      assert Listing([es[0]] + rest) == ListingOf(es[0]) + Listing(rest);
    }
  }

  lemma LastListing(es: seq<Entry>)
    requires es != []
    ensures var init, last := es[..|es| - 1], es[|es| - 1];
      Listing(es) == Listing(init) + ListingOf(last) && Sorted(es) == Place(Before, Sorted(init), last)
  {
    hide Listing, ListingOf, Place;
    var init, last := es[..|es| - 1], es[|es| - 1];
    assert es == init + [last];
    ListingConcat(init, [last]);
    ListingOne(last);
  }

  lemma {:induction false} SortedListing(es: seq<Entry>)
    ensures multiset(Listing(Sorted(es))) == multiset(Listing(es))
  {
    if es != [] {
      hide *;
      var init, last := es[..|es| - 1], es[|es| - 1];
      SortedListing(init);
      PlaceListing(Sorted(init), last);
      LastListing(es);
      assert multiset(Listing(es)) == multiset(Listing(init)) + multiset(ListingOf(last));
    }
  }

  lemma {:induction false} SortKeepsFiles(es: seq<Entry>)
    ensures multiset(Listing(SortChildren(es))) == multiset(Listing(es))
    decreases Height(es), 2, 0
  {
    SortedHeight(es);
    SortedListing(es);
    SortBelowKeepsFiles(Sorted(es));
  }

  lemma {:induction false} SortBelowKeepsFiles(es: seq<Entry>)
    ensures multiset(Listing(SortBelow(es))) == multiset(Listing(es))
    decreases Height(es), 1, |es|
  {
    if es != [] {
      SortEntryKeepsFiles(es[0]);
      SortBelowKeepsFiles(es[1..]);
      assert SortBelow(es)[1..] == SortBelow(es[1..]);
    }
  }

  lemma {:induction false} SortEntryKeepsFiles(e: Entry)
    ensures multiset(ListingOf(SortEntry(e))) == multiset(ListingOf(e))
    decreases EntryHeight(e), 0, 0
  {
    if e.Folder? {
      SortKeepsFiles(e.children);
      MapMultiset(Under(e.text), Listing(SortChildren(e.children)), Listing(e.children));
    }
  }

  function AsItem(): ((string, string)) -> Item {
    (f: (string, string)) => (Split(f.0), f.1)
  }

  lemma {:induction false} InsertAllListing(files: seq<(string, string)>)
    ensures multiset(Listing(InsertAll([], files))) == multiset(Map(AsItem(), files))
  {
    if files != [] {
      hide Listing, Map, Insert, Split;
      var init, last := files[..|files| - 1], files[|files| - 1];
      InsertAllListing(init);
      InsertListing(InsertAll([], init), Split(last.0), last.1);
      assert files == init + [last];
      MapConcat(AsItem(), init, [last]);
      MapOne(AsItem(), last);
    }
  }

  // ---------------------------------------------------------------- parsing

  ghost predicate Named(es: seq<Entry>)
    decreases es, 0
  {
    es == [] || (EntryNamed(es[0]) && Named(es[1..]))
  }

  ghost predicate EntryNamed(e: Entry)
    decreases e, 1
  {
    e.text != "" && (e.Folder? ==> Named(e.children))
  }

  function Full(prefix: string, name: string): string {
    (if prefix != "" then prefix + [SEPARATOR] else "") + name
  }

  function Render(prefix: string): Item -> (string, string) {
    (x: Item) => (Full(prefix, if x.0 == [] then "" else Join(x.0)), x.1)
  }

  lemma {:induction false} ListingPaths(es: seq<Entry>)
    ensures forall x | x in Listing(es) :: x.0 != []
    decreases es, 0
  {
    if es != [] {
      EntryPaths(es[0]);
      ListingPaths(es[1..]);
    }
  }

  lemma {:induction false} EntryPaths(e: Entry)
    ensures forall x | x in ListingOf(e) :: x.0 != [] && x.0[0] == e.text && (|x.0| == 1 <==> e.File?)
    decreases e, 1
  {
    if e.Folder? {
      ListingPaths(e.children);
      forall x | x in ListingOf(e) ensures x.0 != [] && x.0[0] == e.text && |x.0| > 1 {
        MapMembers(Under(e.text), Listing(e.children), x);
      }
    }
  }

  /** Parsing succeeds exactly on trees without empty names, and then gives the listing with joined names. */
  lemma {:induction false} ParseMeaning(es: seq<Entry>, prefix: string)
    ensures Parse(es, prefix).Some? <==> Named(es)
    ensures Named(es) ==> Parse(es, prefix).value == Map(Render(prefix), Listing(es))
    decreases es, 0
  {
    if es != [] {
      ParseEntryMeaning(es[0], prefix);
      ParseMeaning(es[1..], prefix);
      MapConcat(Render(prefix), ListingOf(es[0]), Listing(es[1..]));
    }
  }

  lemma {:induction false} ParseEntryMeaning(e: Entry, prefix: string)
    ensures ParseEntry(e, prefix).Some? <==> EntryNamed(e)
    ensures EntryNamed(e) ==> ParseEntry(e, prefix).value == Map(Render(prefix), ListingOf(e))
    decreases e, 1
  {
    if e.text != "" {
      if e.Folder? {
        ParseMeaning(e.children, Full(prefix, e.text));
        ListingPaths(e.children);
        RenderUnder(prefix, e.text, Listing(e.children));
      } else {
        assert [([e.text], e.hash)][1..] == [];
      }
    }
  }

  lemma RenderOne(prefix: string, text: string, x: Item)
    requires text != "" && x.0 != []
    ensures Render(Full(prefix, text))(x) == Render(prefix)(Under(text)(x))
  {
    hide Join;
    JoinUnder(text, x.0);
    var name := Join(x.0);
    assert Full(Full(prefix, text), name) == Full(prefix, text + [SEPARATOR] + name);
  }

  lemma JoinUnder(text: string, path: Path)
    requires path != []
    ensures Join([text] + path) == text + [SEPARATOR] + Join(path)
  {
    assert ([text] + path)[1..] == path;
  }

  lemma {:induction false} RenderUnder(prefix: string, text: string, items: seq<Item>)
    requires text != "" && forall x | x in items :: x.0 != []
    ensures Map(Render(Full(prefix, text)), items) == Map(Render(prefix), Map(Under(text), items))
  {
    if items != [] {
      hide Render, Under;
      RenderUnder(prefix, text, items[1..]);
      assert items[0] in items;
      RenderOne(prefix, text, items[0]);
      assert Map(Under(text), items)[1..] == Map(Under(text), items[1..]);
    }
  }

  // ---------------------------------------------------------------- tidy trees

  /** At every level, at most one folder per name, and no folder is empty. */
  ghost predicate Tidy(es: seq<Entry>)
    decreases es, 0
  {
    es == [] ||
    (EntryTidy(es[0]) && Tidy(es[1..]) && forall e | e in es[1..] :: !(e.Folder? && es[0].Folder? && e.text == es[0].text))
  }

  ghost predicate EntryTidy(e: Entry)
    decreases e, 1
  {
    e.Folder? ==> e.children != [] && Tidy(e.children)
  }

  lemma {:induction false} TidyHasFiles(e: Entry)
    requires EntryTidy(e)
    ensures ListingOf(e) != []
    decreases e
  {
    if e.Folder? {
      TidyHasFiles(e.children[0]);
    }
  }

  ghost predicate Clean(x: Item) {
    forall p | p in x.0 :: p != ""
  }

  /** A tidy tree has an empty name somewhere exactly when some file has an empty path component. */
  lemma {:induction false} NamedMeaning(es: seq<Entry>)
    requires Tidy(es)
    ensures Named(es) <==> forall x | x in Listing(es) :: Clean(x)
    decreases es, 0
  {
    if es != [] {
      EntryNamedMeaning(es[0]);
      NamedMeaning(es[1..]);
    }
  }

  lemma {:induction false} EntryNamedMeaning(e: Entry)
    requires EntryTidy(e)
    ensures EntryNamed(e) <==> forall x | x in ListingOf(e) :: Clean(x)
    decreases e, 1
  {
    if e.Folder? {
      hide Listing, Map, Clean;
      NamedMeaning(e.children);
      UnderClean(e.text, Listing(e.children));
      FolderHasFiles(e);
      assert Listing(e.children)[0] in Listing(e.children);
    } else {
      var x := ([e.text], e.hash);
      FileClean(e);
      assert ListingOf(e) == [x] && x in ListingOf(e);
      assert forall y | y in ListingOf(e) :: y == x;
    }
  }

  lemma FileClean(e: Entry)
    requires e.File?
    ensures Clean(([e.text], e.hash)) <==> e.text != ""
  {
    assert e.text in [e.text];
    assert forall p | p in [e.text] :: p == e.text;
  }

  lemma FolderHasFiles(e: Entry)
    requires EntryTidy(e) && e.Folder?
    ensures Listing(e.children) != []
  {
    hide ListingOf;
    TidyHasFiles(e.children[0]);
  }

  lemma UnderClean(text: string, items: seq<Item>)
    ensures (forall x | x in Map(Under(text), items) :: Clean(x)) <==>
      forall x | x in items :: text != "" && Clean(x)
  {
    forall x | x in items ensures Under(text)(x) in Map(Under(text), items) && (Clean(Under(text)(x)) <==> text != "" && Clean(x)) {
      MapMembers(Under(text), items, Under(text)(x));
      var y := Under(text)(x);
      assert y.0[0] == text && y.0 == [text] + x.0;
      assert text in y.0 && forall p | p in x.0 :: p in y.0;
    }
    forall y | y in Map(Under(text), items) ensures exists x :: x in items && Under(text)(x) == y {
      MapMembers(Under(text), items, y);
    }
  }

  ghost predicate HasFolder(es: seq<Entry>, name: string) {
    exists e :: e in es && e.Folder? && e.text == name
  }

  lemma {:induction false} InsertTidy(es: seq<Entry>, path: Path, hash: string)
    requires path != [] && Tidy(es)
    ensures Tidy(Insert(es, path, hash)) && Insert(es, path, hash) != []
    decreases |path|, 2, 0
  {
    if |path| == 1 {
      TidySnoc(es, File(path[0], hash));
    } else {
      InsertBelowTidy(es, path, hash);
    }
  }

  lemma {:induction false} TidySnoc(es: seq<Entry>, x: Entry)
    requires Tidy(es) && EntryTidy(x) && (x.Folder? ==> !HasFolder(es, x.text))
    ensures Tidy(es + [x])
  {
    if es == [] {
      assert es + [x] == [x] && [x][1..] == [];
    } else {
      assert (es + [x])[0] == es[0] && (es + [x])[1..] == es[1..] + [x];
      TidySnoc(es[1..], x);
    }
  }

  lemma {:induction false} InsertBelowTidy(es: seq<Entry>, path: Path, hash: string)
    requires |path| > 1 && Tidy(es)
    ensures Tidy(InsertBelow(es, path, hash)) && InsertBelow(es, path, hash) != []
    ensures forall name :: HasFolder(InsertBelow(es, path, hash), name) <==> HasFolder(es, name) || name == path[0]
    decreases |path|, 1, |es|
  {
    if es == [] {
      InsertTidy([], path[1..], hash);
      var out := InsertBelow(es, path, hash);
      assert out[1..] == [] && out[0] in out;
    } else if es[0].Folder? && es[0].text == path[0] {
      InsertTidy(es[0].children, path[1..], hash);
      var out := InsertBelow(es, path, hash);
      assert out[1..] == es[1..] && out[0] in out && es[0] in es;
      HasFolderHead(es);
      HasFolderHead(out);
    } else {
      InsertBelowTidy(es[1..], path, hash);
      var out := InsertBelow(es, path, hash);
      assert out[1..] == InsertBelow(es[1..], path, hash);
      HasFolderHead(es);
      HasFolderHead(out);
      forall e | e in out[1..] ensures !(e.Folder? && es[0].Folder? && e.text == es[0].text) {
        if e.Folder? && es[0].Folder? && e.text == es[0].text {
          assert HasFolder(out[1..], es[0].text);
          assert false;
        }
      }
    }
  }

  lemma HasFolderHead(es: seq<Entry>)
    requires es != []
    ensures forall name :: HasFolder(es, name) <==> (es[0].Folder? && es[0].text == name) || HasFolder(es[1..], name)
  {
    assert es == [es[0]] + es[1..];
  }

  lemma {:induction false} InsertAllTidy(files: seq<(string, string)>)
    ensures Tidy(InsertAll([], files))
  {
    if files != [] {
      InsertAllTidy(files[..|files| - 1]);
      InsertTidy(InsertAll([], files[..|files| - 1]), Split(files[|files| - 1].0), files[|files| - 1].1);
    }
  }

  lemma {:induction false} TidyUnsnoc(es: seq<Entry>)
    requires Tidy(es) && es != []
    ensures var init, last := es[..|es| - 1], es[|es| - 1];
      Tidy(init) && EntryTidy(last) && (last.Folder? ==> !HasFolder(init, last.text))
  {
    if |es| > 1 {
      TidyUnsnoc(es[1..]);
      var init := es[..|es| - 1];
      assert init[1..] == es[1..][..|es| - 2] && es[1..][|es| - 2] == es[|es| - 1];
      HasFolderHead(init);
      assert es[|es| - 1] in es[1..] && forall e | e in init[1..] :: e in es[1..];
    }
  }

  lemma {:induction false} PlaceTidy(es: seq<Entry>, x: Entry)
    requires Tidy(es) && EntryTidy(x) && (x.Folder? ==> !HasFolder(es, x.text))
    ensures Tidy(Place(Before, es, x))
    ensures forall e :: e in Place(Before, es, x) <==> e in es || e == x
  {
    hide Before;
    if es == [] {
      assert [x][1..] == [];
    } else {
      HasFolderHead(es);
      if Before(x, es[0]) {
        var out := [x] + es;
        assert out[1..] == es;
        forall e | e in es ensures !(e.Folder? && x.Folder? && e.text == x.text) {
          assert e.Folder? ==> HasFolder(es, e.text);
        }
      } else {
        PlaceTidy(es[1..], x);
        var rest := Place(Before, es[1..], x);
        assert ([es[0]] + rest)[1..] == rest && es == [es[0]] + es[1..];
      }
    }
  }

  lemma {:induction false} SortedTidy(es: seq<Entry>)
    requires Tidy(es)
    ensures Tidy(Sorted(es))
    ensures forall e :: e in Sorted(es) <==> e in es
  {
    if es != [] {
      var init, last := es[..|es| - 1], es[|es| - 1];
      TidyUnsnoc(es);
      SortedTidy(init);
      assert es == init + [last];
      PlaceTidy(Sorted(init), last);
    }
  }

  lemma {:induction false} SortTidy(es: seq<Entry>)
    requires Tidy(es)
    ensures Tidy(SortChildren(es)) && (SortChildren(es) == [] <==> es == [])
    decreases Height(es), 2, 0
  {
    SortedHeight(es);
    SortedTidy(es);
    SortBelowTidy(Sorted(es));
    if es != [] {
      assert es[0] in Sorted(es);
    }
    if Sorted(es) != [] {
      assert Sorted(es)[0] in es;
    }
  }

  lemma {:induction false} SortBelowTidy(es: seq<Entry>)
    requires Tidy(es)
    ensures Tidy(SortBelow(es)) && |SortBelow(es)| == |es|
    ensures forall i | 0 <= i < |es| :: SortBelow(es)[i] == SortEntry(es[i])
    decreases Height(es), 1, |es|
  {
    if es != [] {
      SortEntryTidy(es[0]);
      SortBelowTidy(es[1..]);
      var out := SortBelow(es);
      assert out[1..] == SortBelow(es[1..]);
      forall e | e in out[1..] ensures !(e.Folder? && out[0].Folder? && e.text == out[0].text) {
        var i :| 0 <= i < |out[1..]| && out[1..][i] == e;
        assert es[1..][i] in es[1..];
      }
    }
  }

  lemma {:induction false} SortEntryTidy(e: Entry)
    requires EntryTidy(e)
    ensures EntryTidy(SortEntry(e)) && SortEntry(e).text == e.text && (SortEntry(e).Folder? <==> e.Folder?)
    decreases EntryHeight(e), 0, 0
  {
    if e.Folder? {
      SortTidy(e.children);
    }
  }

  ghost predicate CleanPath(name: string) {
    forall p | p in Split(name) :: p != ""
  }

  /** Round trip: parsing the tree made from a list fails exactly when some path has an empty component,
      and otherwise returns the same pairs. */
  lemma RoundTrip(files: seq<(string, string)>)
    ensures var parsed := Parse(SortChildren(InsertAll([], files)), "");
      && (parsed.Some? <==> forall f | f in files :: CleanPath(f.0))
      && (parsed.Some? ==> multiset(parsed.value) == multiset(files))
  {
    hide SortChildren, InsertAll, Listing, Tidy, Named, Parse, Map;
    var built := InsertAll([], files);
    var tree := SortChildren(built);
    InsertAllTidy(files);
    SortTidy(built);
    InsertAllListing(files);
    SortKeepsFiles(built);
    NamedMeaning(tree);
    ParseMeaning(tree, "");
    CleanItems(files, Listing(tree));
    MapMultiset(Render(""), Listing(tree), Map(AsItem(), files));
    RenderItems(files);
  }

  /** A path with two separators in a row. */
  lemma DoubledSeparator(hash: string)
    ensures Parse(SortChildren(InsertAll([], [("a//b", hash)])), "").None?
  {
    hide SortChildren, InsertAll, Parse;
    RoundTrip([("a//b", hash)]);
    var tail := "/b";
    assert "a//b"[1..] == "//b" && "//b"[1..] == tail && Split("//b") == [""] + Split(tail) && Split(tail) == [""] + Split(tail[1..]);
    assert Split("a//b") == [['a'] + Split("//b")[0]] + Split("//b")[1..];
    assert Split("a//b")[1] == "" && Split("a//b")[1] in Split("a//b");
    assert ("a//b", hash) in [("a//b", hash)];
  }

  lemma CleanItems(files: seq<(string, string)>, items: seq<Item>)
    requires multiset(items) == multiset(Map(AsItem(), files))
    ensures (forall x | x in items :: Clean(x)) <==> forall f | f in files :: CleanPath(f.0)
  {
    forall x ensures x in items <==> exists f :: f in files && AsItem()(f) == x {
      assert x in items <==> x in multiset(items);
      assert x in Map(AsItem(), files) <==> x in multiset(Map(AsItem(), files));
      MapMembers(AsItem(), files, x);
    }
    forall f | f in files ensures AsItem()(f) in items && (Clean(AsItem()(f)) <==> CleanPath(f.0)) {}
  }

  lemma {:induction false} RenderItems(files: seq<(string, string)>)
    ensures Map(Render(""), Map(AsItem(), files)) == files
  {
    if files != [] {
      hide Map, AsItem, Render;
      var head, rest := [files[0]], files[1..];
      assert files == head + rest;
      RenderItems(rest);
      MapConcat(AsItem(), head, rest);
      MapOne(AsItem(), files[0]);
      MapConcat(Render(""), [AsItem()(files[0])], Map(AsItem(), rest));
      MapOne(Render(""), AsItem()(files[0]));
      RenderFile(files[0]);
    }
  }

  lemma RenderFile(f: (string, string))
    ensures Render("")(AsItem()(f)) == f
  {
    hide Split, Join;
    JoinSplit(f.0);
    assert Full("", f.0) == f.0;
  }

  // ---------------------------------------------------------------- the order of entries

  lemma {:induction false} LessOrder(a: string, b: string, c: string)
    ensures !(Less(a, b) && Less(b, a))
    ensures Less(a, b) || Less(b, a) || a == b
    ensures Less(a, b) && Less(b, c) ==> Less(a, c)
    decreases |a| + |b| + |c|
  {
    if a != "" && b != "" {
      LessOrder(a[1..], b[1..], if c == "" then c else c[1..]);
      assert a == [a[0]] + a[1..] && b == [b[0]] + b[1..];
    }
  }

  predicate SameKey(x: Entry, y: Entry) {
    x.text == y.text && (x.Folder? <==> y.Folder?)
  }

  lemma BeforeOrder(x: Entry, y: Entry, z: Entry)
    ensures !(Before(x, y) && Before(y, x)) && (Before(x, y) ==> !SameKey(x, y))
    ensures Before(x, y) || Before(y, x) || SameKey(x, y)
    ensures Before(x, y) && Before(y, z) ==> Before(x, z)
    ensures SameKey(x, y) ==> (Before(z, x) <==> Before(z, y)) && (Before(x, z) <==> Before(y, z))
  {
    hide Less;
    LessOrder(x.text, y.text, z.text);
  }

  /** Strictly increasing at every level, and no empty folders: the form trees are shown in. */
  ghost predicate Canonical(es: seq<Entry>)
    decreases es, 0
  {
    es == [] || (EntryCanonical(es[0]) && Canonical(es[1..]) && forall e | e in es[1..] :: Before(es[0], e))
  }

  ghost predicate EntryCanonical(e: Entry)
    decreases e, 1
  {
    e.Folder? ==> e.children != [] && Canonical(e.children)
  }

  lemma {:induction false} CanonicalHasFiles(e: Entry)
    requires EntryCanonical(e)
    ensures ListingOf(e) != []
    decreases e
  {
    if e.Folder? {
      CanonicalHasFiles(e.children[0]);
    }
  }

  /** The key of the entry a file lies under. */
  predicate LiesUnder(x: Item, e: Entry) {
    x.0 != [] && x.0[0] == e.text && (|x.0| == 1 <==> e.File?)
  }

  lemma {:induction false} OwnerOf(es: seq<Entry>, x: Item) returns (e: Entry)
    requires x in Listing(es)
    ensures e in es && LiesUnder(x, e)
  {
    if x in ListingOf(es[0]) {
      EntryPaths(es[0]);
      e := es[0];
    } else {
      e := OwnerOf(es[1..], x);
    }
  }

  lemma {:induction false} ListingMember(es: seq<Entry>, e: Entry, x: Item)
    requires e in es && x in ListingOf(e)
    ensures x in Listing(es)
  {
    if e != es[0] {
      ListingMember(es[1..], e, x);
    }
  }

  /** Of two canonical lists that hold the same files, the first entries have the same key. */
  lemma FirstKeys(es: seq<Entry>, fs: seq<Entry>)
    requires Canonical(es) && Canonical(fs) && es != [] && multiset(Listing(es)) == multiset(Listing(fs))
    ensures fs != [] && SameKey(es[0], fs[0])
  {
    hide Before, ListingOf, Listing;
    var z := KeyFound(es, fs);
    var w := KeyFound(fs, es);
    BeforeOrder(es[0], fs[0], es[0]);
    if !SameKey(es[0], fs[0]) {
      assert fs == [fs[0]] + fs[1..] && es == [es[0]] + es[1..];
      BeforeOrder(es[0], z, fs[0]);
      BeforeOrder(fs[0], w, es[0]);
      assert false;
    }
  }

  /** The key of the first entry of one list occurs in the other. */
  lemma KeyFound(es: seq<Entry>, fs: seq<Entry>) returns (z: Entry)
    requires Canonical(es) && es != [] && multiset(Listing(es)) == multiset(Listing(fs))
    ensures fs != [] && z in fs && SameKey(es[0], z)
  {
    CanonicalHasFiles(es[0]);
    EntryPaths(es[0]);
    var x := ListingOf(es[0])[0];
    assert x in ListingOf(es[0]);
    ListingMember(es, es[0], x);
    assert x in multiset(Listing(fs));
    z := OwnerOf(fs, x);
  }

  /** The files under the first entry are those with its key. */
  lemma FirstFiles(es: seq<Entry>, x: Item)
    requires Canonical(es) && es != []
    ensures multiset(ListingOf(es[0]))[x] == if LiesUnder(x, es[0]) then multiset(Listing(es))[x] else 0
  {
    hide Before;
    EntryPaths(es[0]);
    if LiesUnder(x, es[0]) {
      if x in Listing(es[1..]) {
        var e := OwnerOf(es[1..], x);
        BeforeOrder(es[0], e, e);
        assert false;
      }
    } else {
      assert x !in ListingOf(es[0]);
    }
  }

  /** A canonical tree is determined by its files. */
  lemma {:induction false} CanonicalDetermined(es: seq<Entry>, fs: seq<Entry>)
    requires Canonical(es) && Canonical(fs) && multiset(Listing(es)) == multiset(Listing(fs))
    ensures es == fs
    decreases es, 0
  {
    hide Listing, ListingOf, Before, SameKey;
    if es == [] {
      if fs != [] {
        var z := KeyFound(fs, es);
      }
    } else {
      FirstKeys(es, fs);
      FirstFilesSame(es, fs);
      EntryDetermined(es[0], fs[0]);
      RestFiles(es, fs);
      CanonicalDetermined(es[1..], fs[1..]);
      assert es == [es[0]] + es[1..] && fs == [fs[0]] + fs[1..];
    }
  }

  lemma FirstFilesSame(es: seq<Entry>, fs: seq<Entry>)
    requires Canonical(es) && Canonical(fs) && es != [] && fs != [] && SameKey(es[0], fs[0])
    requires multiset(Listing(es)) == multiset(Listing(fs))
    ensures multiset(ListingOf(es[0])) == multiset(ListingOf(fs[0]))
  {
    hide Listing, ListingOf, Canonical;
    forall x: Item ensures multiset(ListingOf(es[0]))[x] == multiset(ListingOf(fs[0]))[x] {
      FirstFiles(es, x);
      FirstFiles(fs, x);
    }
  }

  lemma RestFiles(es: seq<Entry>, fs: seq<Entry>)
    requires es != [] && fs != [] && multiset(Listing(es)) == multiset(Listing(fs))
    requires multiset(ListingOf(es[0])) == multiset(ListingOf(fs[0]))
    ensures multiset(Listing(es[1..])) == multiset(Listing(fs[1..]))
  {
    hide ListingOf;
    assert multiset(Listing(es)) == multiset(ListingOf(es[0])) + multiset(Listing(es[1..]));
    assert multiset(Listing(fs)) == multiset(ListingOf(fs[0])) + multiset(Listing(fs[1..]));
    assert multiset(Listing(es[1..])) == multiset(Listing(es)) - multiset(ListingOf(es[0]));
    assert multiset(Listing(fs[1..])) == multiset(Listing(fs)) - multiset(ListingOf(fs[0]));
  }

  lemma {:induction false} EntryDetermined(x: Entry, y: Entry)
    requires EntryCanonical(x) && EntryCanonical(y) && SameKey(x, y)
    requires multiset(ListingOf(x)) == multiset(ListingOf(y))
    ensures x == y
    decreases x, 1
  {
    if x.File? {
      assert ListingOf(x)[0] in multiset(ListingOf(y));
    } else {
      forall a: Item ensures multiset(Listing(x.children))[a] == multiset(Listing(y.children))[a] {
        UnderInjective(x.text, a);
        MapCount(Under(x.text), Listing(x.children), a);
        MapCount(Under(x.text), Listing(y.children), a);
      }
      assert multiset(Listing(x.children)) == multiset(Listing(y.children));
      CanonicalDetermined(x.children, y.children);
    }
  }

  lemma UnderInjective(text: string, a: Item)
    ensures forall b | Under(text)(b) == Under(text)(a) :: b == a
  {
    forall b | Under(text)(b) == Under(text)(a) ensures b == a {
      assert ([text] + b.0)[1..] == b.0 && ([text] + a.0)[1..] == a.0;
    }
  }

  // ---------------------------------------------------------------- trees are canonical

  /** No path twice, not even with another hash. */
  ghost predicate Unique(m: multiset<Item>) {
    forall p, h, h' | (p, h) in m && (p, h') in m :: h == h' && m[(p, h)] <= 1
  }

  ghost predicate Increasing(es: seq<Entry>) {
    es == [] || (Increasing(es[1..]) && forall e | e in es[1..] :: Before(es[0], e))
  }

  lemma {:induction false} PlaceIncreasing(es: seq<Entry>, x: Entry)
    requires Increasing(es) && forall e | e in es :: !SameKey(e, x)
    ensures Increasing(Place(Before, es, x))
    ensures forall e :: e in Place(Before, es, x) <==> e in es || e == x
  {
    hide Before, SameKey;
    if es == [] {
      assert [x][1..] == [];
    } else {
      assert es == [es[0]] + es[1..];
      BeforeOrder(x, es[0], es[0]);
      BeforeOrder(es[0], x, x);
      if Before(x, es[0]) {
        assert ([x] + es)[1..] == es;
        forall e | e in es ensures Before(x, e) { BeforeOrder(x, es[0], e); }
      } else {
        SameKeySymmetric(es[0], x);
        PlaceIncreasing(es[1..], x);
        assert ([es[0]] + Place(Before, es[1..], x))[1..] == Place(Before, es[1..], x);
      }
    }
  }

  lemma SameKeySymmetric(x: Entry, y: Entry)
    ensures SameKey(x, y) <==> SameKey(y, x)
  {}

  /** In a tidy tree without repeated paths no two entries of a level have the same key. */
  lemma LastKey(es: seq<Entry>)
    requires Tidy(es) && es != [] && Unique(multiset(Listing(es)))
    ensures var init, last := es[..|es| - 1], es[|es| - 1];
      Tidy(init) && Unique(multiset(Listing(init))) && forall e | e in init :: !SameKey(e, last)
  {
    hide Listing, ListingOf, Tidy;
    var init, last := es[..|es| - 1], es[|es| - 1];
    TidyUnsnoc(es);
    assert es == init + [last];
    ListingConcat(init, [last]);
    ListingOne(last);
    UniqueParts(Listing(init), ListingOf(last));
    forall e | e in init ensures !SameKey(e, last) {
      if SameKey(e, last) {
        if last.File? {
          FileItem(e);
          FileItem(last);
          ListingMember(init, e, ([e.text], e.hash));
          assert false;
        }
      }
    }
  }

  lemma FileItem(e: Entry)
    requires e.File?
    ensures ([e.text], e.hash) in ListingOf(e)
  {}

  lemma UniqueParts(a: seq<Item>, b: seq<Item>)
    requires Unique(multiset(a + b))
    ensures Unique(multiset(a)) && Unique(multiset(b))
    ensures forall p, h, h' | (p, h) in a :: (p, h') !in b
  {
    assert multiset(a + b) == multiset(a) + multiset(b);
    forall p, h, h' | (p, h) in a ensures (p, h') !in b {
      assert (p, h) in multiset(a) && (p, h) in multiset(a + b);
      assert multiset(a + b)[(p, h)] <= 1;
      assert (p, h') in b ==> (p, h') in multiset(a + b) && (p, h') in multiset(b);
    }
    forall p, h, h' | (p, h) in multiset(a) && (p, h') in multiset(a) ensures h == h' && multiset(a)[(p, h)] <= 1 {
      assert (p, h) in multiset(a + b) && (p, h') in multiset(a + b);
    }
    forall p, h, h' | (p, h) in multiset(b) && (p, h') in multiset(b) ensures h == h' && multiset(b)[(p, h)] <= 1 {
      assert (p, h) in multiset(a + b) && (p, h') in multiset(a + b);
    }
  }

  lemma {:induction false} SortedIncreasing(es: seq<Entry>)
    requires Tidy(es) && Unique(multiset(Listing(es)))
    ensures Increasing(Sorted(es))
    ensures forall e :: e in Sorted(es) <==> e in es
  {
    hide Listing, Tidy, Unique, SameKey;
    if es != [] {
      var init, last := es[..|es| - 1], es[|es| - 1];
      LastKey(es);
      SortedIncreasing(init);
      assert es == init + [last];
      PlaceIncreasing(Sorted(init), last);
    }
  }

  lemma {:induction false} SortCanonical(es: seq<Entry>)
    requires Tidy(es) && Unique(multiset(Listing(es)))
    ensures Canonical(SortChildren(es))
    decreases Height(es), 2, 0
  {
    SortedHeight(es);
    SortedIncreasing(es);
    SortedTidy(es);
    SortedListing(es);
    SortBelowCanonical(Sorted(es));
  }

  lemma {:induction false} SortBelowCanonical(es: seq<Entry>)
    requires Tidy(es) && Increasing(es) && Unique(multiset(Listing(es)))
    ensures Canonical(SortBelow(es)) && |SortBelow(es)| == |es|
    ensures forall i | 0 <= i < |es| :: SameKey(SortBelow(es)[i], es[i])
    decreases Height(es), 1, |es|
  {
    if es != [] {
      hide ListingOf, Unique, EntryTidy, EntryCanonical, SortEntry, Before, SameKey;
      UniqueParts(ListingOf(es[0]), Listing(es[1..]));
      SortEntryCanonical(es[0]);
      SortBelowCanonical(es[1..]);
      assert SortBelow(es)[1..] == SortBelow(es[1..]);
      KeysKeepOrder(es[0], es[1..], SortEntry(es[0]), SortBelow(es[1..]));
    }
  }

  lemma KeysKeepOrder(x: Entry, rest: seq<Entry>, x': Entry, rest': seq<Entry>)
    requires |rest'| == |rest| && SameKey(x', x) && forall i | 0 <= i < |rest| :: SameKey(rest'[i], rest[i])
    requires forall e | e in rest :: Before(x, e)
    ensures forall e | e in rest' :: Before(x', e)
  {
    hide Before;
    forall e | e in rest' ensures Before(x', e) {
      var i :| 0 <= i < |rest'| && rest'[i] == e;
      assert rest[i] in rest;
      BeforeOrder(x, x', e);
      BeforeOrder(rest[i], e, x);
    }
  }

  lemma {:induction false} SortEntryCanonical(e: Entry)
    requires EntryTidy(e) && Unique(multiset(ListingOf(e)))
    ensures EntryCanonical(SortEntry(e)) && SameKey(SortEntry(e), e)
    decreases EntryHeight(e), 0, 0
  {
    if e.Folder? {
      UniqueBelow(e.text, Listing(e.children));
      SortCanonical(e.children);
      SortTidy(e.children);
    }
  }

  lemma UniqueBelow(text: string, items: seq<Item>)
    requires Unique(multiset(Map(Under(text), items)))
    ensures Unique(multiset(items))
  {
    hide Map;
    var m := multiset(Map(Under(text), items));
    forall p, h, h' | (p, h) in multiset(items) && (p, h') in multiset(items) ensures h == h' && multiset(items)[(p, h)] <= 1 {
      UnderInjective(text, (p, h));
      UnderInjective(text, (p, h'));
      MapCount(Under(text), items, (p, h));
      MapCount(Under(text), items, (p, h'));
      assert ([text] + p, h) in m && ([text] + p, h') in m;
    }
  }

  ghost predicate DistinctNames(files: seq<(string, string)>) {
    forall i, j | 0 <= i < j < |files| :: files[i].0 != files[j].0
  }

  lemma {:induction false} DistinctUnique(files: seq<(string, string)>)
    requires DistinctNames(files)
    ensures Unique(multiset(Map(AsItem(), files)))
  {
    if files != [] {
      var head, rest := files[0], files[1..];
      assert forall i, j | 0 <= i < j < |rest| :: rest[i] == files[i + 1] && rest[j] == files[j + 1];
      DistinctUnique(rest);
      var x, m := AsItem()(head), multiset(Map(AsItem(), rest));
      assert multiset(Map(AsItem(), files)) == multiset{x} + m;
      forall h | (x.0, h) in m ensures false {
        assert (x.0, h) in Map(AsItem(), rest);
        MapMembers(AsItem(), rest, (x.0, h));
        var f :| f in rest && AsItem()(f) == (x.0, h);
        JoinSplit(f.0);
        JoinSplit(head.0);
      }
    }
  }

  /** At every level the made tree has at most one folder per name, and no folder is empty. */
  lemma MadeTreeTidy(files: seq<(string, string)>)
    ensures Tidy(SortChildren(InsertAll([], files)))
  {
    InsertAllTidy(files);
    SortTidy(InsertAll([], files));
  }

  /** Without repeated paths the tree is canonical and holds exactly the listed files. */
  lemma MadeTreeCanonical(files: seq<(string, string)>)
    requires Unique(multiset(Map(AsItem(), files)))
    ensures Canonical(SortChildren(InsertAll([], files)))
    ensures multiset(Listing(SortChildren(InsertAll([], files)))) == multiset(Map(AsItem(), files))
  {
    hide SortChildren, InsertAll, Listing, Tidy, Canonical, Map, Unique;
    InsertAllTidy(files);
    InsertAllListing(files);
    SortCanonical(InsertAll([], files));
    SortKeepsFiles(InsertAll([], files));
  }

  /** With distinct paths the tree is the same for every order of the list. */
  lemma OrderIrrelevant(files: seq<(string, string)>, files': seq<(string, string)>)
    requires DistinctNames(files) && multiset(files) == multiset(files')
    ensures SortChildren(InsertAll([], files)) == SortChildren(InsertAll([], files'))
  {
    hide SortChildren, InsertAll, Listing, Tidy, Canonical, Map, Unique;
    DistinctUnique(files);
    MapMultiset(AsItem(), files, files');
    MadeTreeCanonical(files);
    MadeTreeCanonical(files');
    CanonicalDetermined(SortChildren(InsertAll([], files)), SortChildren(InsertAll([], files')));
  }
}
