/** `TableOfContents`: collects the notebooks of a directory tree, renders the
    contents text with one header per run of notebooks from one directory, and
    puts that text into the contents cell of a notebook. */
module TableOfContents {
  import opened Text
  import opened Sorting
  import opened Paths
  import opened NotebookMeta

  const Heading: string := "# Table of Contents"

  // ---------------------------------------------------------------------------
  // The contents text.
  // ---------------------------------------------------------------------------

  /** One line of the contents text. */
  datatype Line = Title | Header(section: Section) | Item(notebook: Notebook)

  function Render(line: Line): string
  {
    match line
    case Title => Heading + "\n"
    case Header(s) => "- __" + SectionText(s) + "__\n"
    case Item(n) => "  - " + NotebookText(n) + "\n"
  }

  function RenderAll(lines: seq<Line>): seq<string>
  {
    if lines == [] then [] else [Render(lines[0])] + RenderAll(lines[1..])
  }

  lemma {:induction false} RenderAllAppend(a: seq<Line>, b: seq<Line>)
    ensures RenderAll(a + b) == RenderAll(a) + RenderAll(b)
  {
    if a == [] {
      assert a + b == b;
    } else {
      assert (a + b)[1..] == a[1..] + b;
      RenderAllAppend(a[1..], b);
    }
  }

  lemma CompileStep(head: seq<Line>, rest: seq<Line>)
    requires |head| <= 2
    ensures RenderAll(head + rest) == seq(|head|, k requires 0 <= k < |head| => Render(head[k])) + RenderAll(rest)
  {
    RenderAllAppend(head, rest);
    if |head| == 2 {
      assert head[1..][1..] == [];
    } else if |head| == 1 {
      assert head[1..] == [];
    }
  }

  /** One notebook of the layout: its optional header and its item, then the
      layout of the notebooks after it. */
  lemma LayoutStep(files: seq<Notebook>, i: nat, prev: string)
    requires i < |files|
    ensures var section := files[i].directory;
      RenderAll(Layout(files[i..], prev))
      == (if section.dirname != prev then [Render(Header(section))] else []) + [Render(Item(files[i]))]
         + RenderAll(Layout(files[i + 1..], section.dirname))
  {
    var section := files[i].directory;
    assert files[i..][1..] == files[i + 1..];
    var rest := Layout(files[i + 1..], section.dirname);
    if section.dirname != prev {
      assert Layout(files[i..], prev) == [Header(section), Item(files[i])] + rest;
      CompileStep([Header(section), Item(files[i])], rest);
    } else {
      assert Layout(files[i..], prev) == [Item(files[i])] + rest;
      CompileStep([Item(files[i])], rest);
    }
  }

  /** The lines after the title, as the loop of `compile_toc` emits them: a
      header whenever a notebook's directory name differs from that of the
      last header (`prev` before the first), then the notebook's item. */
  function Layout(files: seq<Notebook>, prev: string): seq<Line>
  {
    if files == [] then []
    else
      var section := files[0].directory;
      (if section.dirname != prev then [Header(section)] else []) + [Item(files[0])]
      + Layout(files[1..], section.dirname)
  }

  /** The text `compile_toc` returns. */
  function TocText(files: seq<Notebook>): (toc: string)
    ensures StartsWith(toc, Heading + "\n")
  {
    assert ([Title] + Layout(files, ""))[1..] == Layout(files, "");
    Concat(RenderAll([Title] + Layout(files, "")))
  }

  // The same layout stated notebook by notebook, without a running "previous section".

  /** Notebook `k` opens a new directory group: its directory name differs from
      that of the notebook before it (or from `prev` for the first). */
  predicate OpensGroup(files: seq<Notebook>, k: nat, prev: string)
    requires k < |files|
  {
    files[k].directory.dirname != (if k == 0 then prev else files[k - 1].directory.dirname)
  }

  /** The lines for notebook `k`: a header if it opens a group, then its item. */
  function Block(files: seq<Notebook>, k: nat, prev: string): seq<Line>
    requires k < |files|
  {
    (if OpensGroup(files, k, prev) then [Header(files[k].directory)] else []) + [Item(files[k])]
  }

  function BlocksFrom(files: seq<Notebook>, k: nat, prev: string): seq<Line>
    requires k <= |files|
    decreases |files| - k
  {
    if k == |files| then [] else Block(files, k, prev) + BlocksFrom(files, k + 1, prev)
  }

  lemma {:induction false} LayoutSuffix(files: seq<Notebook>, k: nat, prev: string)
    requires k <= |files|
    ensures Layout(files[k..], if k == 0 then prev else files[k - 1].directory.dirname) == BlocksFrom(files, k, prev)
    decreases |files| - k
  {
    if k < |files| {
      var before := if k == 0 then prev else files[k - 1].directory.dirname;
      var section := files[k].directory;
      LayoutSuffix(files, k + 1, prev);
      assert files[k..][1..] == files[k + 1..];
      assert files[k..][0] == files[k];
      assert Layout(files[k..], before)
        == (if section.dirname != before then [Header(section)] else []) + [Item(files[k])]
           + Layout(files[k + 1..], section.dirname);
      assert Block(files, k, prev) == (if section.dirname != before then [Header(section)] else []) + [Item(files[k])];
    }
  }

  /** The contents lines are, notebook by notebook in input order, a header
      exactly when the notebook's directory differs from the previous
      notebook's (or, for the first, from the empty name), then one item. */
  lemma LayoutIsBlocks(files: seq<Notebook>, prev: string)
    ensures Layout(files, prev) == BlocksFrom(files, 0, prev)
  {
    LayoutSuffix(files, 0, prev);
    assert files[0..] == files;
  }

  /** The notebooks of the item lines, in order. */
  function ItemsOf(lines: seq<Line>): seq<Notebook>
  {
    if lines == [] then []
    else (if lines[0].Item? then [lines[0].notebook] else []) + ItemsOf(lines[1..])
  }

  lemma {:induction false} ItemsOfAppend(a: seq<Line>, b: seq<Line>)
    ensures ItemsOf(a + b) == ItemsOf(a) + ItemsOf(b)
  {
    if a == [] {
      assert a + b == b;
    } else {
      assert (a + b)[0] == a[0];
      assert (a + b)[1..] == a[1..] + b;
      ItemsOfAppend(a[1..], b);
      assert ItemsOf(a + b) == (if a[0].Item? then [a[0].notebook] else []) + ItemsOf(a[1..] + b);
    }
  }

  /** The contents list every notebook once, in input order. */
  lemma {:induction false} LayoutItems(files: seq<Notebook>, prev: string)
    ensures ItemsOf(Layout(files, prev)) == files
  {
    if files != [] {
      var section := files[0].directory;
      var head := (if section.dirname != prev then [Header(section)] else []) + [Item(files[0])];
      ItemsOfAppend(head, Layout(files[1..], section.dirname));
      LayoutItems(files[1..], section.dirname);
      if section.dirname != prev {
        assert ItemsOf(head) == [files[0]] by {
          assert head[1..] == [Item(files[0])];
        }
      }
      assert files == [files[0]] + files[1..];
    }
  }

  // ---------------------------------------------------------------------------
  // Replacing the contents cell.
  // ---------------------------------------------------------------------------

  /** A markdown cell whose source starts with the contents heading. */
  predicate IsTocCell(c: Cell)
  {
    IsMarkdown(c) && StartsWith(c.source, Heading)
  }

  // ---------------------------------------------------------------------------
  // Collecting the notebooks.
  // ---------------------------------------------------------------------------

  /** One step of `os.walk`: a directory and the file names in it. */
  datatype WalkEntry = WalkEntry(dirpath: string, filenames: seq<string>)

  predicate IsNotebookFile(name: string)
  {
    EndsWith(name, ".ipynb")
  }

  lemma StrLeIsTotalPreorder()
    ensures IsTotalPreorder(StrLe)
  {
    forall a, b ensures StrLe(a, b) || StrLe(b, a) {
      StrLeTotal(a, b);
    }
    forall a, b, c | StrLe(a, b) && StrLe(b, c) ensures StrLe(a, c) {
      StrLeTransitive(a, b, c);
    }
  }

  /** The notebook files among `names`, in their order. */
  function NotebookFiles(names: seq<string>): seq<string>
  {
    if names == [] then []
    else
      var last := names[|names| - 1];
      NotebookFiles(names[..|names| - 1]) + (if IsNotebookFile(last) then [last] else [])
  }

  /** The filter keeps every notebook file as often as it is listed and drops
      every other name, and it keeps a sorted list sorted. */
  lemma {:induction false} NotebookFilesSpec(names: seq<string>)
    ensures forall x :: multiset(NotebookFiles(names))[x] == if IsNotebookFile(x) then multiset(names)[x] else 0
    ensures SortedBy(names, StrLe) ==> SortedBy(NotebookFiles(names), StrLe)
  {
    if names != [] {
      var init := names[..|names| - 1];
      NotebookFilesSpec(init);
      if SortedBy(names, StrLe) {
        assert SortedBy(init, StrLe);
      }
      NotebookFilesStep(names, NotebookFiles(init));
    }
  }

  lemma NotebookFilesStep(names: seq<string>, initFiles: seq<string>)
    requires names != []
    requires forall x :: multiset(initFiles)[x] == if IsNotebookFile(x) then multiset(names[..|names| - 1])[x] else 0
    requires SortedBy(names[..|names| - 1], StrLe) ==> SortedBy(initFiles, StrLe)
    ensures var r := initFiles + (if IsNotebookFile(names[|names| - 1]) then [names[|names| - 1]] else []);
      && (forall x :: multiset(r)[x] == if IsNotebookFile(x) then multiset(names)[x] else 0)
      && (SortedBy(names, StrLe) ==> SortedBy(r, StrLe))
  {
    var init := names[..|names| - 1];
    var last := names[|names| - 1];
    assert names == init + [last];
    assert multiset(names) == multiset(init) + multiset{last};
    if SortedBy(names, StrLe) {
      NotebookFilesSortedStep(init, last, initFiles);
    }
  }

  /** A sorted list's last name is at or after every notebook file picked before it. */
  lemma NotebookFilesSortedStep(init: seq<string>, last: string, initFiles: seq<string>)
    requires SortedBy(init + [last], StrLe)
    requires forall x :: multiset(initFiles)[x] == if IsNotebookFile(x) then multiset(init)[x] else 0
    requires SortedBy(init, StrLe) ==> SortedBy(initFiles, StrLe)
    ensures SortedBy(initFiles, StrLe)
    ensures forall j :: 0 <= j < |initFiles| ==> StrLe(initFiles[j], last)
  {
    var names := init + [last];
    assert SortedBy(init, StrLe) by {
      forall i, j | 0 <= i < j < |init| ensures StrLe(init[i], init[j]) {
        assert init[i] == names[i] && init[j] == names[j];
      }
    }
    forall j | 0 <= j < |initFiles| ensures StrLe(initFiles[j], last) {
      assert initFiles[j] in multiset(initFiles);
      assert initFiles[j] in multiset(init);
      var k :| 0 <= k < |init| && init[k] == initFiles[j];
      assert names[k] == init[k] && names[|init|] == last;
    }
  }

  /** Two name lists sorted in code-point order with the same names are the
      same list: `filenames.sort()` has exactly one possible result. */
  lemma {:induction false} SortedNamesUnique(a: seq<string>, b: seq<string>)
    requires SortedBy(a, StrLe) && SortedBy(b, StrLe)
    requires multiset(a) == multiset(b)
    ensures a == b
  {
    if a == [] {
      assert |b| == |multiset(b)| == 0;
    } else {
      assert b != [] by { assert |b| == |multiset(b)| == |multiset(a)|; }
      SortedHeadsEqual(a, b);
      TailMultiset(a, b);
      SortedTail(a);
      SortedTail(b);
      SortedNamesUnique(a[1..], b[1..]);
      assert a == [a[0]] + a[1..];
      assert b == [b[0]] + b[1..];
    }
  }

  /** Sorted lists with the same names start with the same name. */
  lemma SortedHeadsEqual(a: seq<string>, b: seq<string>)
    requires a != [] && b != []
    requires SortedBy(a, StrLe) && SortedBy(b, StrLe)
    requires multiset(a) == multiset(b)
    ensures a[0] == b[0]
  {
    assert a[0] in multiset(b);
    var k :| 0 <= k < |b| && b[k] == a[0];
    assert StrLe(b[0], a[0]) by { StrLeTotal(a[0], a[0]); }
    assert b[0] in multiset(a);
    var m :| 0 <= m < |a| && a[m] == b[0];
    assert StrLe(a[0], b[0]) by { StrLeTotal(b[0], b[0]); }
    StrLeAntisymmetric(a[0], b[0]);
  }

  lemma TailMultiset(a: seq<string>, b: seq<string>)
    requires a != [] && b != [] && a[0] == b[0]
    requires multiset(a) == multiset(b)
    ensures multiset(a[1..]) == multiset(b[1..])
  {
    assert a == [a[0]] + a[1..];
    assert b == [b[0]] + b[1..];
    assert multiset(a[1..]) == multiset(a) - multiset([a[0]]);
    assert multiset(b[1..]) == multiset(b) - multiset([b[0]]);
  }

  lemma SortedTail(a: seq<string>)
    requires a != [] && SortedBy(a, StrLe)
    ensures SortedBy(a[1..], StrLe)
  {
    forall i, j | 0 <= i < j < |a[1..]| ensures StrLe(a[1..][i], a[1..][j]) {
      assert a[1..][i] == a[i + 1] && a[1..][j] == a[j + 1];
    }
  }

  /** `filenames.sort()`: the names in code-point order, as the one sorted
      permutation of `names`. */
  ghost function SortedNames(names: seq<string>): seq<string>
  {
    StrLeIsTotalPreorder();
    InsertionSortSpec(names, StrLe);
    var t :| SortedBy(t, StrLe) && multiset(t) == multiset(names); t
  }

  /** The sorted names are sorted and hold exactly the given names. */
  lemma SortedNamesSpec(names: seq<string>)
    ensures SortedBy(SortedNames(names), StrLe)
    ensures multiset(SortedNames(names)) == multiset(names)
  {
    StrLeIsTotalPreorder();
    InsertionSortSpec(names, StrLe);
  }

  /** `filenames.sort()`, computed by insertion sort. */
  method SortFilenames(names: seq<string>) returns (sorted: seq<string>)
    ensures sorted == SortedNames(names)
  {
    sorted := InsertionSort(names, StrLe);
    StrLeIsTotalPreorder();
    InsertionSortSpec(names, StrLe);
    SortedNamesSpec(names);
    SortedNamesUnique(sorted, SortedNames(names));
  }

  /** `filenames.sort()` then the `.ipynb` filter of `add_files`. */
  ghost function PickedFiles(filenames: seq<string>): seq<string>
  {
    NotebookFiles(SortedNames(filenames))
  }

  /** The files `add_files` picks from a directory are its notebook files,
      each as often as listed and no other name, in sorted order. */
  lemma PickedFilesSpec(filenames: seq<string>)
    ensures SortedBy(PickedFiles(filenames), StrLe)
    ensures forall x :: multiset(PickedFiles(filenames))[x] == if IsNotebookFile(x) then multiset(filenames)[x] else 0
  {
    SortedNamesSpec(filenames);
    NotebookFilesSpec(SortedNames(filenames));
  }

  /** The notebook for file `name` of directory `dir`. */
  function NotebookAt(dir: string, name: string, read: Path -> seq<Cell>, rel: Path -> string): Notebook
  {
    var p := Join(Path(dir), name);
    MakeNotebook(p, read(p), rel(p))
  }

  /** The notebooks for the file names `names` of directory `dir`. */
  function NotebooksIn(dir: string, names: seq<string>, read: Path -> seq<Cell>, rel: Path -> string): (r: seq<Notebook>)
    ensures |r| == |names|
  {
    if names == [] then []
    else NotebooksIn(dir, names[..|names| - 1], read, rel) + [NotebookAt(dir, names[|names| - 1], read, rel)]
  }

  /** Every notebook collected from one directory has that directory as its section. */
  lemma {:induction false} NotebooksInShareSection(dir: string, names: seq<string>, read: Path -> seq<Cell>, rel: Path -> string)
    requires forall k :: 0 <= k < |names| ==> names[k] != "" && '/' !in names[k]
    ensures forall n :: n in NotebooksIn(dir, names, read, rel) ==> n.directory == MakeSection(Path(dir))
  {
    if names != [] {
      var last := names[|names| - 1];
      NotebooksInShareSection(dir, names[..|names| - 1], read, rel);
      ParentOfJoin(Path(dir), last);
      assert NotebookAt(dir, last, read, rel).directory == MakeSection(Path(dir));
    }
  }

  /** The notebooks `add_files` appends for the first `i` directories of a
      walk, directory by directory. */
  ghost function CollectedUpTo(walk: seq<WalkEntry>, i: nat, read: Path -> seq<Cell>, rel: Path -> string): seq<Notebook>
    requires i <= |walk|
  {
    if i == 0 then []
    else CollectedUpTo(walk, i - 1, read, rel) + NotebooksIn(walk[i - 1].dirpath, PickedFiles(walk[i - 1].filenames), read, rel)
  }

  /** The notebooks `add_files` appends for a whole walk. */
  ghost function Collected(walk: seq<WalkEntry>, read: Path -> seq<Cell>, rel: Path -> string): seq<Notebook>
  {
    CollectedUpTo(walk, |walk|, read, rel)
  }

  lemma NotebookFilesPrefixStep(names: seq<string>, j: nat)
    requires j < |names|
    ensures NotebookFiles(names[..j + 1])
      == NotebookFiles(names[..j]) + (if IsNotebookFile(names[j]) then [names[j]] else [])
  {
    assert names[..j + 1][..j] == names[..j];
    assert names[..j + 1][j] == names[j];
  }

  lemma NotebooksInSnoc(dir: string, names: seq<string>, x: string, read: Path -> seq<Cell>, rel: Path -> string)
    ensures NotebooksIn(dir, names + [x], read, rel) == NotebooksIn(dir, names, read, rel) + [NotebookAt(dir, x, read, rel)]
  {
    assert (names + [x])[..|names|] == names;
  }

  class TableOfContents {
    var rootDir: string
    var files: seq<Notebook>
    var toc: string

    /** `TableOfContents(root)` over the walk of `root`; `read` gives a
        notebook's cells and `rel` its path relative to the contents notebook. */
    constructor (rootDir: string, walk: seq<WalkEntry>, read: Path -> seq<Cell>, rel: Path -> string)
      ensures this.rootDir == rootDir
      ensures files == Collected(walk, read, rel)
      ensures toc == TocText(files)
    {
      this.rootDir := rootDir;
      files := [];
      toc := "";
      new;
      AddFiles(walk, read, rel);
      toc := CompileToc();
    }

    /** `add_files`: for each directory in walk order, its notebook files in
        sorted order are appended. */
    method AddFiles(walk: seq<WalkEntry>, read: Path -> seq<Cell>, rel: Path -> string)
      modifies this`files
      ensures files == old(files) + Collected(walk, read, rel)
    {
      for i := 0 to |walk|
        invariant files == old(files) + CollectedUpTo(walk, i, read, rel)
      {
        AddDirectory(walk[i], read, rel);
        AppendAssoc(old(files), CollectedUpTo(walk, i, read, rel),
          NotebooksIn(walk[i].dirpath, PickedFiles(walk[i].filenames), read, rel));
      }
    }

    /** One directory of the walk inside `add_files`: its file names are
        sorted and each `.ipynb` file becomes a notebook. */
    method AddDirectory(e: WalkEntry, read: Path -> seq<Cell>, rel: Path -> string)
      modifies this`files
      ensures files == old(files) + NotebooksIn(e.dirpath, PickedFiles(e.filenames), read, rel)
    {
      var sorted := SortFilenames(e.filenames);
      ghost var picked: seq<string> := [];
      for j := 0 to |sorted|
        invariant picked == NotebookFiles(sorted[..j])
        invariant files == old(files) + NotebooksIn(e.dirpath, picked, read, rel)
      {
        NotebookFilesPrefixStep(sorted, j);
        if EndsWith(sorted[j], ".ipynb") {
          var notebook := NotebookAt(e.dirpath, sorted[j], read, rel);
          NotebooksInSnoc(e.dirpath, picked, sorted[j], read, rel);
          AppendAssoc(old(files), NotebooksIn(e.dirpath, picked, read, rel), [notebook]);
          picked := picked + [sorted[j]];
          files := files + [notebook];
        }
      }
      assert sorted[..|sorted|] == sorted;
    }

    /** `compile_toc`: the title, then per notebook a header when its directory
        name differs from the last header's, then its item, all concatenated. */
    method CompileToc() returns (text: string)
      ensures text == TocText(files)
    {
      ghost var target := RenderAll([Title] + Layout(files, ""));
      var lines: seq<string> := [Render(Title)];
      var prev := MakeSection(Path(""));
      assert prev.dirname == "";
      assert ([Title] + Layout(files, ""))[1..] == Layout(files, "");
      assert files[0..] == files;
      for i := 0 to |files|
        invariant lines + RenderAll(Layout(files[i..], prev.dirname)) == target
      {
        var section := files[i].directory;
        ghost var before := lines;
        ghost var rest := RenderAll(Layout(files[i + 1..], section.dirname));
        var item := Render(Item(files[i]));
        LayoutStep(files, i, prev.dirname);
        if section.dirname != prev.dirname {
          var header := Render(Header(section));
          assert RenderAll(Layout(files[i..], prev.dirname)) == [header] + [item] + rest;
          lines := lines + [header];
          prev := section;
          lines := lines + [item];
          AppendAssoc(before, [header], [item]);
          AppendAssoc(before, [header] + [item], rest);
        } else {
          assert RenderAll(Layout(files[i..], prev.dirname)) == [] + [item] + rest;
          lines := lines + [item];
          AppendAssoc(before, [item], rest);
        }
      }
      assert files[|files|..] == [];
      assert lines + [] == lines;
      text := Concat(lines);
    }

    /** The cell replacement of `write_toc`: every contents cell gets this
        contents text as its source; every other cell stays as it was. */
    method WriteToc(cells: array<Cell>)
      modifies cells
      ensures forall k :: 0 <= k < cells.Length ==>
        cells[k] == if IsTocCell(old(cells[k])) then old(cells[k]).(source := toc) else old(cells[k])
    {
      for k := 0 to cells.Length
        invariant forall j :: 0 <= j < k ==>
          cells[j] == if IsTocCell(old(cells[j])) then old(cells[j]).(source := toc) else old(cells[j])
        invariant forall j :: k <= j < cells.Length ==> cells[j] == old(cells[j])
      {
        if cells[k].cellType == "markdown" && StartsWith(cells[k].source, Heading) {
          cells[k] := cells[k].(source := toc);
        }
      }
    }
  }
}
