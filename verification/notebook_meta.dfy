/** The metadata the table-of-contents script derives for a notebook and its
    directory: identifier and title parsed from dash-separated names, the
    rendered entries, and the summary found under a "# Summary" heading. */
module NotebookMeta {
  import opened Base
  import opened Text
  import opened Paths

  // ---------------------------------------------------------------------------
  // Name parsing.
  // ---------------------------------------------------------------------------

  /** `name.split('-')[:loc]` */
  function LeadingParts(name: string, loc: nat): seq<string>
  {
    var parts := SplitOn(name, '-');
    parts[..Min(loc, |parts|)]
  }

  /** `name.split('-')[loc:]` */
  function TrailingParts(name: string, loc: nat): seq<string>
  {
    var parts := SplitOn(name, '-');
    parts[Min(loc, |parts|)..]
  }

  /** `_parse_name`: the first `loc` dash-separated parts, upper-cased, space-joined. */
  function ParseName(name: string, loc: nat := 1): string
  {
    Upper(JoinWith(" ", LeadingParts(name, loc)))
  }

  /** `_parse_id`: the parts after the first `loc`, upper-cased, space-joined. */
  function ParseId(name: string, loc: nat := 1): string
  {
    Upper(JoinWith(" ", TrailingParts(name, loc)))
  }

  /** At either end of the part list one side is empty and the other spells the
      whole name upper-cased with dashes as spaces. */
  lemma ParseAtEnds(name: string, loc: nat)
    ensures loc == 0 ==> ParseName(name, loc) == "" && ParseId(name, loc) == Upper(ReplaceChar(name, '-', ' '))
    ensures loc >= |SplitOn(name, '-')| ==> ParseName(name, loc) == Upper(ReplaceChar(name, '-', ' ')) && ParseId(name, loc) == ""
  {
    var parts := SplitOn(name, '-');
    JoinSplitReplace(name, '-', ' ');
    assert parts[..|parts|] == parts && parts[0..] == parts;
  }

  /** The two part lists split the name's parts at `loc`: together they are
      exactly the parts, and joining them with dashes gives the name back. */
  lemma PartsSplitName(name: string, loc: nat)
    ensures LeadingParts(name, loc) + TrailingParts(name, loc) == SplitOn(name, '-')
    ensures |LeadingParts(name, loc)| == Min(loc, |SplitOn(name, '-')|)
    ensures JoinWith("-", LeadingParts(name, loc) + TrailingParts(name, loc)) == name
  {
    var parts := SplitOn(name, '-');
    assert parts[..Min(loc, |parts|)] + parts[Min(loc, |parts|)..] == parts;
    JoinSplit(name, '-');
  }

  /** When `loc` leaves parts on both sides, the parsed name, a space and the
      parsed identifier spell the whole name upper-cased with dashes as spaces. */
  lemma ParsedNameAndIdSpellName(name: string, loc: nat)
    requires 0 < loc < |SplitOn(name, '-')|
    ensures ParseName(name, loc) + " " + ParseId(name, loc) == Upper(ReplaceChar(name, '-', ' '))
  {
    var a, b := LeadingParts(name, loc), TrailingParts(name, loc);
    var left, right := JoinWith(" ", a), JoinWith(" ", b);
    PartsSplitName(name, loc);
    JoinWithAppend(" ", a, b);
    JoinSplitReplace(name, '-', ' ');
    assert left + " " + right == ReplaceChar(name, '-', ' ');
    UpperConcat(left + " ", right);
    UpperConcat(left, " ");
    assert Upper(" ") == " ";
  }

  // ---------------------------------------------------------------------------
  // Sections and notebooks.
  // ---------------------------------------------------------------------------

  /** `SectionMetadata`: a notebook directory. */
  datatype Section = Section(path: Path, dirname: string, dirId: string, title: string)

  /** `SectionMetadata(path)`: the directory name parsed at one part. */
  function MakeSection(path: Path): Section
  {
    var dirname := Name(path);
    Section(path, dirname, ParseName(dirname, 1), ParseId(dirname, 1))
  }

  /** `str(SectionMetadata)`. */
  function SectionText(s: Section): string
  {
    s.dirId + " " + s.title
  }

  /** A section renders as its directory name upper-cased with dashes as spaces. */
  lemma SectionTextSpellsDirname(path: Path)
    requires 1 < |SplitOn(Name(path), '-')|
    ensures SectionText(MakeSection(path)) == Upper(ReplaceChar(Name(path), '-', ' '))
  {
    ParsedNameAndIdSpellName(Name(path), 1);
  }

  /** One notebook cell: its type and its source text. */
  datatype Cell = Cell(cellType: string, source: string)

  /** `NotebookMetadata`: a notebook file. */
  datatype Notebook = Notebook(
    path: Path,
    filename: string,
    directory: Section,
    fileId: string,
    title: string,
    summary: Option<string>,
    relPath: string)

  /** `NotebookMetadata(path)` for a notebook whose cells are `cells` and whose
      path relative to the contents notebook's directory is `relPath`: the file
      stem parsed at two parts, the parent directory as its section. */
  function MakeNotebook(path: Path, cells: seq<Cell>, relPath: string): Notebook
  {
    var stem := Stem(Name(path));
    Notebook(path, stem, MakeSection(Parent(path)), ParseName(stem, 2), ParseId(stem, 2), Summary(cells), relPath)
  }

  /** A notebook's identifier, a space and its title spell its file stem
      upper-cased with dashes as spaces. */
  lemma NotebookIdAndTitleSpellStem(path: Path, cells: seq<Cell>, relPath: string)
    requires 2 < |SplitOn(Stem(Name(path)), '-')|
    ensures var n := MakeNotebook(path, cells, relPath);
      n.fileId + " " + n.title == Upper(ReplaceChar(Stem(Name(path)), '-', ' '))
  {
    ParsedNameAndIdSpellName(Stem(Name(path)), 2);
  }

  /** Python truthiness of an optional string: present and non-empty. */
  predicate Truthy(s: Option<string>)
  {
    s.Some? && s.value != ""
  }

  /** The link part of a notebook entry: `file_id [title](rel_path)`. */
  function NotebookLink(n: Notebook): string
  {
    n.fileId + " [" + n.title + "](" + n.relPath + ")"
  }

  /** `str(NotebookMetadata)`: the link, then `: summary` only for a truthy summary. */
  function NotebookText(n: Notebook): (r: string)
    ensures StartsWith(r, NotebookLink(n))
    ensures r == NotebookLink(n) <==> !Truthy(n.summary)
    ensures Truthy(n.summary) ==> r[|NotebookLink(n)|..] == ": " + n.summary.value
  {
    if Truthy(n.summary) then NotebookLink(n) + ": " + n.summary.value else NotebookLink(n)
  }

  // ---------------------------------------------------------------------------
  // The summary search.
  // ---------------------------------------------------------------------------

  predicate IsMarkdown(c: Cell)
  {
    c.cellType == "markdown"
  }

  function Lines(c: Cell): seq<string>
  {
    SplitLines(c.source)
  }

  predicate IsSummaryHeading(line: string)
  {
    Strip(line) == "# Summary"
  }

  /** The text after line `l`: the later lines joined by newlines, stripped. */
  function TextAfter(lines: seq<string>, l: nat): string
    requires l < |lines|
  {
    Strip(JoinWith("\n", lines[l + 1..]))
  }

  /** The summary within one cell's lines: the text after the first heading line. */
  function SummaryIn(lines: seq<string>): Option<string>
  {
    if lines == [] then None
    else if IsSummaryHeading(lines[0]) then Some(TextAfter(lines, 0))
    else SummaryIn(lines[1..])
  }

  /** The summary of a notebook: from the first markdown cell that has a heading line. */
  function Summary(cells: seq<Cell>): Option<string>
  {
    if cells == [] then None
    else if IsMarkdown(cells[0]) && SummaryIn(Lines(cells[0])).Some? then SummaryIn(Lines(cells[0]))
    else Summary(cells[1..])
  }

  /** Line `l` of cell `c` is a summary heading in a markdown cell. */
  predicate HeadingAt(cells: seq<Cell>, c: int, l: int)
  {
    0 <= c < |cells| && IsMarkdown(cells[c]) && 0 <= l < |Lines(cells[c])| && IsSummaryHeading(Lines(cells[c])[l])
  }

  /** Line `l` of cell `c` is the first summary heading in reading order. */
  ghost predicate FirstHeadingAt(cells: seq<Cell>, c: int, l: int)
  {
    HeadingAt(cells, c, l) && forall c2, l2 :: HeadingAt(cells, c2, l2) ==> c < c2 || (c == c2 && l <= l2)
  }

  lemma {:induction false} SummaryInSpec(lines: seq<string>)
    ensures SummaryIn(lines).None? <==> forall l :: 0 <= l < |lines| ==> !IsSummaryHeading(lines[l])
    ensures SummaryIn(lines).Some? ==> exists l ::
      && 0 <= l < |lines| && IsSummaryHeading(lines[l])
      && (forall l2 :: 0 <= l2 < l ==> !IsSummaryHeading(lines[l2]))
      && SummaryIn(lines).value == TextAfter(lines, l)
  {
    if lines != [] && !IsSummaryHeading(lines[0]) {
      SummaryInSpec(lines[1..]);
      if SummaryIn(lines).Some? {
        var l :| 0 <= l < |lines[1..]| && IsSummaryHeading(lines[1..][l])
          && (forall l2 :: 0 <= l2 < l ==> !IsSummaryHeading(lines[1..][l2]))
          && SummaryIn(lines[1..]).value == TextAfter(lines[1..], l);
        assert lines[1..][l + 1..] == lines[l + 2..];
        assert SummaryIn(lines).value == TextAfter(lines, l + 1);
        forall l2 | 0 <= l2 < l + 1 ensures !IsSummaryHeading(lines[l2]) {
          if l2 > 0 { assert lines[l2] == lines[1..][l2 - 1]; }
        }
      } else {
        forall l | 0 <= l < |lines| ensures !IsSummaryHeading(lines[l]) {
          if l > 0 { assert lines[l] == lines[1..][l - 1]; }
        }
      }
    }
  }

  /** The summary is absent exactly when no markdown cell has a heading line;
      otherwise it is the stripped text after the first heading line. */
  lemma {:induction false} SummarySpec(cells: seq<Cell>)
    ensures Summary(cells).None? <==> forall c, l :: !HeadingAt(cells, c, l)
    ensures Summary(cells).Some? ==> exists c, l ::
      && FirstHeadingAt(cells, c, l)
      && Summary(cells).value == TextAfter(Lines(cells[c]), l)
  {
    if cells != [] {
      if IsMarkdown(cells[0]) && SummaryIn(Lines(cells[0])).Some? {
        SummaryFromHead(cells);
      } else {
        NoHeadingInHead(cells);
        SummarySpec(cells[1..]);
        SummaryFromTail(cells);
      }
    }
  }

  lemma HeadingShift(cells: seq<Cell>, c: int, l: int)
    requires cells != [] && c >= 0
    ensures HeadingAt(cells[1..], c, l) <==> HeadingAt(cells, c + 1, l)
  {
    if 0 <= c < |cells| - 1 {
      assert cells[1..][c] == cells[c + 1];
    }
  }

  lemma SummaryFromHead(cells: seq<Cell>)
    requires cells != [] && IsMarkdown(cells[0]) && SummaryIn(Lines(cells[0])).Some?
    ensures Summary(cells).Some?
    ensures exists c, l :: FirstHeadingAt(cells, c, l) && Summary(cells).value == TextAfter(Lines(cells[c]), l)
  {
    var lines := Lines(cells[0]);
    SummaryInSpec(lines);
    var l :| && 0 <= l < |lines| && IsSummaryHeading(lines[l])
      && (forall l2 :: 0 <= l2 < l ==> !IsSummaryHeading(lines[l2]))
      && SummaryIn(lines).value == TextAfter(lines, l);
    forall c2, l2 | HeadingAt(cells, c2, l2) && c2 == 0 ensures l <= l2 {
      assert IsSummaryHeading(lines[l2]);
    }
    assert HeadingAt(cells, 0, l);
  }

  lemma NoHeadingInHead(cells: seq<Cell>)
    requires cells != [] && !(IsMarkdown(cells[0]) && SummaryIn(Lines(cells[0])).Some?)
    ensures forall l :: !HeadingAt(cells, 0, l)
    ensures Summary(cells) == Summary(cells[1..])
  {
    SummaryInSpec(Lines(cells[0]));
  }

  lemma SummaryFromTail(cells: seq<Cell>)
    requires cells != [] && forall l :: !HeadingAt(cells, 0, l)
    requires Summary(cells) == Summary(cells[1..])
    requires Summary(cells[1..]).None? <==> forall c, l :: !HeadingAt(cells[1..], c, l)
    requires Summary(cells[1..]).Some? ==> exists c, l ::
      && FirstHeadingAt(cells[1..], c, l)
      && Summary(cells[1..]).value == TextAfter(Lines(cells[1..][c]), l)
    ensures Summary(cells).None? <==> forall c, l :: !HeadingAt(cells, c, l)
    ensures Summary(cells).Some? ==> exists c, l ::
      && FirstHeadingAt(cells, c, l)
      && Summary(cells).value == TextAfter(Lines(cells[c]), l)
  {
    if Summary(cells).Some? {
      var c, l :| FirstHeadingAt(cells[1..], c, l) && Summary(cells).value == TextAfter(Lines(cells[1..][c]), l);
      FirstHeadingShift(cells, c, l);
      assert Lines(cells[1..][c]) == Lines(cells[c + 1]);
    } else {
      NoHeadingShift(cells);
    }
  }

  /** The first heading of the later cells is the first heading of all cells
      when the first cell has none. */
  lemma FirstHeadingShift(cells: seq<Cell>, c: int, l: int)
    requires cells != [] && forall l :: !HeadingAt(cells, 0, l)
    requires FirstHeadingAt(cells[1..], c, l)
    ensures FirstHeadingAt(cells, c + 1, l)
  {
    HeadingShift(cells, c, l);
    forall c2, l2 | HeadingAt(cells, c2, l2) ensures c + 1 < c2 || (c + 1 == c2 && l <= l2) {
      if c2 > 0 {
        HeadingShift(cells, c2 - 1, l2);
      }
    }
  }

  /** No heading in the first cell nor in the later ones means none at all. */
  lemma NoHeadingShift(cells: seq<Cell>)
    requires cells != [] && forall l :: !HeadingAt(cells, 0, l)
    requires forall c, l :: !HeadingAt(cells[1..], c, l)
    ensures forall c, l :: !HeadingAt(cells, c, l)
  {
    forall c, l ensures !HeadingAt(cells, c, l) {
      if c > 0 {
        HeadingShift(cells, c - 1, l);
      }
    }
  }

  /** `_extract_summary` over the notebook's cells: the nested search with early return. */
  method ExtractSummary(cells: seq<Cell>) returns (summary: Option<string>)
    ensures summary == Summary(cells)
  {
    for c := 0 to |cells|
      invariant Summary(cells) == Summary(cells[c..])
    {
      assert cells[c..][1..] == cells[c + 1..];
      if cells[c].cellType == "markdown" {
        var lines := SplitLines(cells[c].source);
        for l := 0 to |lines|
          invariant SummaryIn(lines) == SummaryIn(lines[l..])
        {
          assert lines[l..][1..] == lines[l + 1..];
          if Strip(lines[l]) == "# Summary" {
            assert lines[l + 1..] == lines[l..][1..];
            return Some(Strip(JoinWith("\n", lines[l + 1..])));
          }
        }
      }
    }
    summary := None;
  }
}
