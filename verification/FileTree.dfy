/** Conversion between a list of (path, hash) pairs and the tree of folders and files shown to users. */
module FileTree {
  import opened Options
  import opened Sequences

  datatype Entry = File(text: string, hash: string) | Folder(text: string, children: seq<Entry>)

  type Path = seq<string>

  // ---------------------------------------------------------------- paths as strings

  const SEPARATOR := '/'

  function Split(s: string): (parts: Path)
    ensures |parts| >= 1
    ensures forall p | p in parts :: SEPARATOR !in p
  {
    if s == "" then [""]
    else
      var rest := Split(s[1..]);
      if s[0] == SEPARATOR then [""] + rest else [[s[0]] + rest[0]] + rest[1..]
  }

  function Join(parts: Path): string
    requires parts != []
  {
    if |parts| == 1 then parts[0] else parts[0] + [SEPARATOR] + Join(parts[1..])
  }

  lemma {:induction false} JoinSplit(s: string)
    ensures Join(Split(s)) == s
  {
    if s != "" {
      JoinSplit(s[1..]);
      assert s == [s[0]] + s[1..];
      if s[0] == SEPARATOR {
        JoinEmpty(Split(s[1..]));
      } else {
        JoinPrefix(s[0], Split(s[1..]));
      }
    }
  }

  lemma JoinEmpty(rest: Path)
    requires rest != []
    ensures Join([""] + rest) == [SEPARATOR] + Join(rest)
  {
    assert ([""] + rest)[1..] == rest;
  }

  lemma JoinPrefix(c: char, rest: Path)
    requires rest != []
    ensures Join([[c] + rest[0]] + rest[1..]) == [c] + Join(rest)
  {
    assert ([[c] + rest[0]] + rest[1..])[1..] == rest[1..];
  }

  // ---------------------------------------------------------------- building

  /** Put a file at a path, entering or creating one folder per directory name. */
  function Insert(es: seq<Entry>, path: Path, hash: string): seq<Entry>
    requires path != []
    decreases |path|, 1, 0
  {
    if |path| == 1 then es + [File(path[0], hash)] else InsertBelow(es, path, hash)
  }

  /** The search for the folder: the first one with the name, or a new one at the end. */
  function InsertBelow(es: seq<Entry>, path: Path, hash: string): seq<Entry>
    requires |path| > 1
    decreases |path|, 0, |es|
  {
    if es == [] then [Folder(path[0], Insert([], path[1..], hash))]
    else if es[0].Folder? && es[0].text == path[0] then
      [Folder(es[0].text, Insert(es[0].children, path[1..], hash))] + es[1..]
    else [es[0]] + InsertBelow(es[1..], path, hash)
  }

  function InsertAll(es: seq<Entry>, files: seq<(string, string)>): seq<Entry> {
    if files == [] then es
    else Insert(InsertAll(es, files[..|files| - 1]), Split(files[|files| - 1].0), files[|files| - 1].1)
  }

  // ---------------------------------------------------------------- sorting

  predicate Less(a: string, b: string) {
    b != "" && (a == "" || a[0] < b[0] || (a[0] == b[0] && Less(a[1..], b[1..])))
  }

  /** Folders before files, then by name. */
  predicate Before(x: Entry, y: Entry) {
    (x.Folder? && y.File?) || ((x.Folder? <==> y.Folder?) && Less(x.text, y.text))
  }

  /** A stable sort by key. */
  function Sorted(es: seq<Entry>): seq<Entry> {
    SortedBy(Before, es)
  }

  /** Sort a level, then the levels below. */
  function SortChildren(es: seq<Entry>): seq<Entry>
    decreases Height(es), 2, 0
  {
    SortedHeight(es);
    SortBelow(Sorted(es))
  }

  function SortBelow(es: seq<Entry>): seq<Entry>
    decreases Height(es), 1, |es|
  {
    if es == [] then [] else [SortEntry(es[0])] + SortBelow(es[1..])
  }

  function SortEntry(e: Entry): Entry
    decreases EntryHeight(e), 0, 0
  {
    match e
    case File(_, _) => e
    case Folder(text, children) => Folder(text, SortChildren(children))
  }

  function Max(a: nat, b: nat): nat { if a < b then b else a }

  function Height(es: seq<Entry>): nat
    decreases es, 0
  {
    if es == [] then 0 else Max(EntryHeight(es[0]), Height(es[1..]))
  }

  function EntryHeight(e: Entry): nat
    decreases e, 1
  {
    if e.File? then 0 else 1 + Height(e.children)
  }

  lemma {:induction false} PlaceHeight(es: seq<Entry>, x: Entry)
    ensures Height(Place(Before, es, x)) == Max(Height(es), EntryHeight(x))
  {
    if es == [] {
      assert [x][1..] == [];
    } else if Before(x, es[0]) {
      assert ([x] + es)[1..] == es;
    } else {
      PlaceHeight(es[1..], x);
      assert ([es[0]] + Place(Before, es[1..], x))[1..] == Place(Before, es[1..], x);
    }
  }

  lemma {:induction false} HeightSnoc(es: seq<Entry>, x: Entry)
    ensures Height(es + [x]) == Max(Height(es), EntryHeight(x))
  {
    if es == [] {
      assert es + [x] == [x] && [x][1..] == [];
    } else {
      assert (es + [x])[0] == es[0] && (es + [x])[1..] == es[1..] + [x];
      HeightSnoc(es[1..], x);
    }
  }

  lemma {:induction false} SortedHeight(es: seq<Entry>)
    ensures Height(Sorted(es)) == Height(es)
  {
    if es != [] {
      var init, last := es[..|es| - 1], es[|es| - 1];
      SortedHeight(init);
      PlaceHeight(Sorted(init), last);
      assert es == init + [last];
      HeightSnoc(init, last);
    }
  }

  /** The tree for a list of files. */
  method MakeTree(files: seq<(string, string)>) returns (tree: seq<Entry>)
    ensures tree == SortChildren(InsertAll([], files))
  {
    tree := [];
    for i := 0 to |files|
      invariant tree == InsertAll([], files[..i])
    {
      assert files[..i + 1][..i] == files[..i];
      tree := Insert(tree, Split(files[i].0), files[i].1);
    }
    assert files[..|files|] == files;
    tree := SortChildren(tree);
  }

  // ---------------------------------------------------------------- parsing

  /** The files of a tree with their full names; an empty name anywhere is an error. */
  function Parse(es: seq<Entry>, prefix: string): Option<seq<(string, string)>>
    decreases es, 0
  {
    if es == [] then Some([])
    else match (ParseEntry(es[0], prefix), Parse(es[1..], prefix))
      case (Some(a), Some(b)) => Some(a + b)
      case _ => None
  }

  function ParseEntry(e: Entry, prefix: string): Option<seq<(string, string)>>
    decreases e, 1
  {
    var name := (if prefix != "" then prefix + [SEPARATOR] else "") + e.text;
    if e.text == "" then None
    else match e
      case File(_, hash) => Some([(name, hash)])
      case Folder(_, children) => Parse(children, name)
  }
}
