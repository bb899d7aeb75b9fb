/** What lies at every path of the tree of files, repeated paths included. */
module FilePlaces {
  import opened Sequences
  import opened FileTree
  import opened FileTreeTheorems
  import opened TreeOrder

  /** The hashes of the files at a path, in the order of the tree. */
  function Hashes(es: seq<Entry>, path: Path): seq<string>
    requires path != []
    decreases |path|, 1, |es|
  {
    if es == [] then [] else HashesOf(es[0], path) + Hashes(es[1..], path)
  }

  function HashesOf(e: Entry, path: Path): seq<string>
    requires path != []
    decreases |path|, 0, 0
  {
    if e.text != path[0] then []
    else if e.File? then (if |path| == 1 then [e.hash] else [])
    else if |path| == 1 then []
    else Hashes(e.children, path[1..])
  }

  lemma {:induction false} HashesConcat(a: seq<Entry>, b: seq<Entry>, path: Path)
    requires path != []
    ensures Hashes(a + b, path) == Hashes(a, path) + Hashes(b, path)
    decreases |a|
  {
    hide HashesOf;
    if a == [] {
      assert a + b == b;
    } else {
      assert (a + b)[0] == a[0] && (a + b)[1..] == a[1..] + b;
      HashesConcat(a[1..], b, path);
    }
  }

  lemma OneHash(e: Entry, path: Path)
    requires path != []
    ensures Hashes([e], path) == HashesOf(e, path)
  {
    hide HashesOf;
    assert [e][1..] == [];
  }

  lemma HashesHead(e: Entry, es: seq<Entry>, path: Path)
    requires path != []
    ensures Hashes([e] + es, path) == HashesOf(e, path) + Hashes(es, path)
  {
    hide HashesOf;
    assert ([e] + es)[1..] == es;
  }

  // ---------------------------------------------------------------- building

  lemma {:induction false} NoSuchFolder(es: seq<Entry>, path: Path)
    requires |path| > 1 && forall e | e in es :: !(e.Folder? && e.text == path[0])
    ensures Hashes(es, path) == []
  {
    if es != [] {
      assert es[0] in es;
      NoSuchFolder(es[1..], path);
    }
  }

  function Here(path: Path, p: Path, hash: string): seq<string> {
    if path == p then [hash] else []
  }

  /** Inserting a file adds its hash at its path, after those that are there, and nowhere else. */
  lemma {:induction false} InsertHashes(es: seq<Entry>, p: Path, hash: string, path: Path)
    requires p != [] && path != [] && Tidy(es)
    ensures Hashes(Insert(es, p, hash), path) == Hashes(es, path) + Here(path, p, hash)
    decreases |p|, 2, 0
  {
    if |p| == 1 {
      HashesConcat(es, [File(p[0], hash)], path);
      OneHash(File(p[0], hash), path);
      assert path == p <==> |path| == 1 && path[0] == p[0];
    } else {
      InsertBelowHashes(es, p, hash, path);
    }
  }

  lemma {:induction false} InsertBelowHashes(es: seq<Entry>, p: Path, hash: string, path: Path)
    requires |p| > 1 && path != [] && Tidy(es)
    ensures Hashes(InsertBelow(es, p, hash), path) == Hashes(es, path) + Here(path, p, hash)
    decreases |p|, 1, |es|
  {
    hide HashesOf, Insert, Hashes, Tidy;
    if es == [] {
      OneHash(Folder(p[0], Insert([], p[1..], hash)), path);
      NothingAnywhere(path);
      FolderHashes(p[0], [], p, hash, path);
      EmptyFolder(p[0], path);
      assert Tidy([]) by { TidyNothing(); }
    } else {
      TidyRest(es);
      assert es == [es[0]] + es[1..];
      HashesHead(es[0], es[1..], path);
      var rest := Hashes(es[1..], path);
      if es[0].Folder? && es[0].text == p[0] {
        var folder := Folder(p[0], Insert(es[0].children, p[1..], hash));
        assert InsertBelow(es, p, hash) == [folder] + es[1..];
        HashesHead(folder, es[1..], path);
        FolderHashes(p[0], es[0].children, p, hash, path);
        assert es[0] == Folder(p[0], es[0].children);
        if path == p {
          NoSuchFolder(es[1..], path);
        }
      } else {
        InsertBelowHashes(es[1..], p, hash, path);
        assert InsertBelow(es, p, hash) == [es[0]] + InsertBelow(es[1..], p, hash);
        HashesHead(es[0], InsertBelow(es[1..], p, hash), path);
      }
    }
  }

  lemma TidyNothing()
    ensures Tidy([])
  {}

  lemma TidyRest(es: seq<Entry>)
    requires Tidy(es) && es != []
    ensures Tidy(es[1..]) && (es[0].Folder? ==> Tidy(es[0].children))
    ensures es[0].Folder? ==> forall e | e in es[1..] :: !(e.Folder? && e.text == es[0].text)
  {}

  lemma EmptyFolder(text: string, path: Path)
    requires path != []
    ensures HashesOf(Folder(text, []), path) == []
  {}

  lemma {:induction false} FolderHashes(text: string, children: seq<Entry>, p: Path, hash: string, path: Path)
    requires |p| > 1 && text == p[0] && path != [] && Tidy(children)
    ensures HashesOf(Folder(text, Insert(children, p[1..], hash)), path) == HashesOf(Folder(text, children), path) + Here(path, p, hash)
    decreases |p|, 0, 0
  {
    hide Insert, Tidy;
    assert path == p <==> path[0] == p[0] && path[1..] == p[1..];
    if |path| > 1 && path[0] == text {
      InsertHashes(children, p[1..], hash, path[1..]);
    }
  }

  // ---------------------------------------------------------------- sorting

  /** An entry that would be found at the head of the path. */
  function Probe(path: Path): Entry
    requires path != []
  {
    if |path| == 1 then File(path[0], "") else Folder(path[0], [])
  }

  lemma ProbeTies(e: Entry, path: Path)
    requires path != []
    ensures Tied(Before, Probe(path), e) <==> e.text == path[0] && (e.File? <==> |path| == 1)
    ensures !Tied(Before, Probe(path), e) ==> HashesOf(e, path) == []
  {
    hide Less, Hashes;
    LessOrder(e.text, path[0], "");
  }

  lemma {:induction false} HashesOfTies(es: seq<Entry>, path: Path)
    requires path != []
    ensures Hashes(es, path) == Hashes(Ties(Before, es, Probe(path)), path)
  {
    hide HashesOf, Tied, Probe, Hashes;
    if es != [] {
      var rest := Ties(Before, es[1..], Probe(path));
      assert es == [es[0]] + es[1..];
      HashesHead(es[0], es[1..], path);
      HashesOfTies(es[1..], path);
      ProbeTies(es[0], path);
      HashesHead(es[0], rest, path);
      assert Ties(Before, es, Probe(path)) == if Tied(Before, Probe(path), es[0]) then [es[0]] + rest else rest;
    }
  }

  lemma SortedHashes(es: seq<Entry>, path: Path)
    requires path != []
    ensures Hashes(Sorted(es), path) == Hashes(es, path)
  {
    hide Hashes, SortedBy, Ties;
    SortStable(es, Probe(path));
    HashesOfTies(es, path);
    HashesOfTies(Sorted(es), path);
  }

  /** Sorting leaves at every path the same files in the same order. */
  lemma {:induction false} TreeHashes(es: seq<Entry>, path: Path)
    requires path != []
    ensures Hashes(SortChildren(es), path) == Hashes(es, path)
    decreases |path|, 1, 0
  {
    hide Hashes;
    SortedHashes(es, path);
    BelowHashes(Sorted(es), path);
  }

  lemma {:induction false} BelowHashes(es: seq<Entry>, path: Path)
    requires path != []
    ensures Hashes(SortBelow(es), path) == Hashes(es, path)
    decreases |path|, 0, |es|
  {
    hide SortEntry, HashesOf;
    if es != [] {
      BelowHashes(es[1..], path);
      EntryHashes(es[0], path);
      assert SortBelow(es)[1..] == SortBelow(es[1..]);
    }
  }

  lemma {:induction false} EntryHashes(e: Entry, path: Path)
    requires path != []
    ensures HashesOf(SortEntry(e), path) == HashesOf(e, path)
    decreases |path|, 0, 0
  {
    hide SortChildren, Hashes;
    if e.Folder? && |path| > 1 {
      TreeHashes(e.children, path[1..]);
    }
  }

  // ---------------------------------------------------------------- the whole list

  /** The hashes listed for a path, in the order of the list. */
  function ListedHashes(files: seq<(string, string)>, path: Path): seq<string> {
    if files == [] then []
    else ListedHashes(files[..|files| - 1], path) + Here(path, Split(files[|files| - 1].0), files[|files| - 1].1)
  }

  lemma {:induction false} InsertAllHashes(files: seq<(string, string)>, path: Path)
    requires path != []
    ensures Hashes(InsertAll([], files), path) == ListedHashes(files, path)
  {
    hide Hashes, Insert, Split, Tidy;
    if files == [] {
      assert Hashes([], path) == [] by { NothingAnywhere(path); }
    } else {
      var init, last := files[..|files| - 1], files[|files| - 1];
      InsertAllHashes(init, path);
      InsertAllTidy(init);
      InsertHashes(InsertAll([], init), Split(last.0), last.1, path);
    }
  }

  lemma NothingAnywhere(path: Path)
    requires path != []
    ensures Hashes([], path) == []
  {}

  /** The tree has at every path exactly the files listed for it, in the order of the list. */
  lemma MadeTreeHashes(files: seq<(string, string)>, path: Path)
    requires path != []
    ensures Hashes(SortChildren(InsertAll([], files)), path) == ListedHashes(files, path)
  {
    hide Hashes, SortChildren, InsertAll;
    InsertAllHashes(files, path);
    TreeHashes(InsertAll([], files), path);
  }
}
