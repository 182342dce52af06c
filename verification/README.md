# mtg-modeling data and notebook tooling, modelled in Dafny

This project models the data-handling core of the mtg-modeling repository, a
set of Python tools for Magic: The Gathering price data, and proves
properties of that model. It covers four pieces:

- **The newer price wrangler** (`src/data/mtgjson_wrangler.py`,
  `MtgPricesJsonWrangler`):
  - the configuration check over its `paths` dictionary;
  - the split of the raw MTGJSON price file into a meta table and a nested
    price table;
  - the five unnest-then-unpivot passes that flatten the nested prices;
  - the rename, date cast and sort, and the automatic output name built from
    the first and last dates;
  - `load_data`.
- **The older price wrangler** (`src/data/mtgjson_data.py`): the same check
  under other key names, the split with its `persist` flag, and the chunk
  windows of `process_price_data`.
- **The fetcher** (`src/data/mtgjson_fetcher.py`): the dataset check, the
  derived paths and URL, the archive name for each operating system, and the
  shell steps of a download. The steps are returned as a plan, not run.
- **The table-of-contents script** (`scripts/table_of_contents.py`):
  - name parsing for sections and notebooks, and how each renders;
  - the `# Summary` search over a notebook's cells;
  - the `.ipynb` collection over a directory walk;
  - the contents text, with one header per run of notebooks from the same
    directory;
  - the replacement of the contents cell.

The Dafny modules follow the source:

| module | what it holds |
|---|---|
| `Base` | `Option`, `Result`, the error kinds |
| `Text` | Python string operations: `split`, `join`, `upper`, `strip`, `splitlines`, `in`, code-point order |
| `Sorting` | insertion sort with its sortedness and permutation proof |
| `Paths` | pathlib paths and the key-check loops shared by both wranglers |
| `Frames` | cells, rows, tables, raw records and the meta/price split |
| `Storage` | the file system as a `Disk` object |
| `Flattener` | the passes and final steps of `unstack_data` |
| `LeafListing` | the leaves of the nested table listed one by one, and the proof that the passes produce that list |
| `MtgjsonWrangler` | the newer wrangler class |
| `MtgjsonData` | the older wrangler class |
| `MtgjsonFetcher` | the fetcher class |
| `NotebookMeta` | section and notebook metadata |
| `TableOfContents` | the contents class |

The classes keep the source's mutable fields (`paths`, `final_filename`,
`meta`/`data`, `_files`, `toc`), and their methods carry `modifies` clauses.
Loops that update state are methods with invariants, proved against pure
specification functions. Properties of those functions are proved as lemmas.

Where the code and its docstrings disagree, the model follows the code:
- The newer wrangler writes `meta.parquet` into the interim directory, not
  the processed one.
- The newer wrangler's `raw_json_to_parquet` takes no `persist` argument.
- The third pass adds both `providers` and `currency` to the identifying
  columns.

## Model

| member | source | states |
|---|---|---|
| Paths.FirstMissing | src/data/mtgjson_wrangler.py:132-134 | None exactly when every expected key is present; otherwise the first key, in list order, that the dictionary lacks |
| Paths.FindMissingKey | src/data/mtgjson_wrangler.py:132-134 | the check loop returns the first missing key, or none when all are present |
| Paths.CastToPaths | src/data/mtgjson_wrangler.py:137-138 | the cast loop makes each expected key's value `Path(value)`; other keys and the key set are unchanged |
| Paths.ToPath | src/data/mtgjson_wrangler.py:137-138 | `Path(v)` of a string is the path of that text; a path object stays itself |
| Paths.Join | scripts/table_of_contents.py:98 | `dir / name`: an absolute name replaces the directory, an empty one adds nothing, the empty directory gives the name itself, otherwise the name follows the directory after one separator (the root `/` adds none) |
| Paths.NameAfterLastSeparator | scripts/table_of_contents.py:25 | `.name` is the text after the last separator, or the whole path when it has none |
| Paths.JoinParentName | scripts/table_of_contents.py:44-46 | a path with a name is its `.parent` joined with its `.name` (for paths not starting with two separators) |
| Paths.Stem | src/data/mtgjson_fetcher.py:14 | `.stem` is a prefix of the name; it is shorter only by a suffix that starts at the last dot, that dot being neither the first nor the last character; a name kept whole has no such dot |
| Storage.Disk.MakeDir | src/data/mtgjson_wrangler.py:142-143 | the directory and every missing parent (its lineage) exist afterwards, existing directories stay, files are unchanged |
| Paths.LineageSpec | src/data/mtgjson_wrangler.py:142-143 | the directories created with parents: the path itself (unless it is the root or the current directory), only leading parts of it, and with each member its parent, up to the root or the current directory |
| Storage.Disk.Write | src/data/mtgjson_wrangler.py:102 | the path holds the written table afterwards; every other file and every directory is unchanged |
| Paths.NameOfJoin | scripts/table_of_contents.py:98 | joining a directory with a bare file name gives a path whose `.name` is that file name |
| Paths.ParentOfJoin | scripts/table_of_contents.py:48 | the `.parent` of a file joined onto a directory is that directory |
| MtgjsonWrangler.MtgPricesJsonWrangler.Init | src/data/mtgjson_wrangler.py:10-20 | the fields `__init__` sets before validation: paths, `meta.parquet`, the interim file name, the optional final name |
| MtgjsonWrangler.MtgPricesJsonWrangler.ValidatePaths | src/data/mtgjson_wrangler.py:126-146 | a missing key raises KeyError for the first one and changes nothing; otherwise the keys become paths, the interim and processed directories exist together with their parents, a given final name moves into the interim directory, files are untouched |
| MtgjsonWrangler.MtgPricesJsonWrangler.Create | src/data/mtgjson_wrangler.py:10-22 | construction (final name `None` and interim name `nested_prices.parquet` by default) fails with the KeyError of validation, or yields a valid wrangler whose `paths` has the same keys, the expected ones as paths and the others unchanged, with both directories and their parents created and the final name placed under interim |
| MtgjsonWrangler.MtgPricesJsonWrangler.RawJsonToParquet | src/data/mtgjson_wrangler.py:77-114 | a missing raw file fails; otherwise the meta table and the nested price table are written into the interim directory and nothing else changes |
| Frames.MetaTable | src/data/mtgjson_wrangler.py:97-103 | one row per record with a non-null meta, holding exactly `field` and `meta` |
| Frames.PriceTable | src/data/mtgjson_wrangler.py:107-113 | one row per record with non-null data, holding exactly `uuid` (text) and a non-null `data` |
| Frames.SplitCountsAddUp | src/data/mtgjson_wrangler.py:97-113 | when every record has exactly one of meta and data, the two tables together have one row per record |
| Flattener.ExpandRow | src/data/mtgjson_wrangler.py:120-124 | unnesting fails with ColumnNotFound without a `data` column and with NotAStruct for a non-struct `data` cell |
| Flattener.FirstClash | src/data/mtgjson_wrangler.py:121 | unnest reports a field name equal to an existing column or to an earlier field; none exactly when all names are fresh and distinct |
| Flattener.Kept | src/data/mtgjson_wrangler.py:122-123 | the unpivoted fields are exactly the non-identifying, non-null fields |
| Flattener.PassFailsAtFirstFailure | src/data/mtgjson_wrangler.py:116-124 | a pass fails exactly when one of its rows cannot be unnested, and then with the error of the first such row |
| Flattener.ExpandRowEmitsKeptFields | src/data/mtgjson_wrangler.py:120-124 | a row yields one output row per kept field, in order, naming the field in the variable column and carrying its value as `data`; each identifying cell is copied from the row, or, for an identifying column the row lacks (`currency`), taken from the struct's field of that name |
| Flattener.ExpandRowShape | src/data/mtgjson_wrangler.py:121-123 | every row a pass emits from one row has exactly the identifying columns, the variable column and a non-null `data` |
| Flattener.PassShape | src/data/mtgjson_wrangler.py:120-124 | the same shape holds for every row of a whole pass |
| Flattener.AccumIndexValues | src/data/mtgjson_wrangler.py:33-45 | the accumulated index during each pass: uuid; +medium; +providers, currency; +list; +finish |
| Flattener.AccumIndexGrows | src/data/mtgjson_wrangler.py:44-45 | the identifying-column list of an earlier pass is a prefix of every later one |
| Flattener.StagesAreDistinct | src/data/mtgjson_wrangler.py:33-47 | no pass's variable column is an identifying column or `data` |
| Flattener.RunErrorPersists | src/data/mtgjson_wrangler.py:44-48 | once a pass fails, the run's result is that failure |
| Flattener.PassLeaves | src/data/mtgjson_wrangler.py:120-124 | the `data` cells of a pass's output hold, one level down, as many non-null leaf prices as its input did |
| Flattener.RunLeaves | src/data/mtgjson_wrangler.py:44-48 | after any number of passes the leaves count is that of the input |
| Flattener.RunRowsHaveData | src/data/mtgjson_wrangler.py:123 | after at least one pass no row has a null `data` |
| Flattener.FlattenConservesLeaves | src/data/mtgjson_wrangler.py:44-55 | the flat table has as many rows as the nested table has non-null leaf prices |
| LeafListing.PassLeafRows | src/data/mtgjson_wrangler.py:120-124 | a pass lists, one level down, the same leaf rows as its input, in the same order |
| LeafListing.RunLeafRows | src/data/mtgjson_wrangler.py:44-48 | after any number of passes the table lists the same leaf rows as the nested input |
| LeafListing.FlattenListsLeaves | src/data/mtgjson_wrangler.py:44-55 | the flat table holds, as a multiset, exactly the leaves of the nested table listed one by one: for each non-null leaf price one row with its uuid, the field name chosen at every level, the `currency` of its provider struct, and the price, renamed and date-cast |
| Flattener.RowLeIsTotalPreorder | src/data/mtgjson_wrangler.py:53 | the seven-column sort order, nulls first, is total and transitive |
| Flattener.Finish | src/data/mtgjson_wrangler.py:50-55 | rename, cast and sort give a table sorted by the seven columns that is a permutation of the renamed, cast rows |
| Flattener.Flatten | src/data/mtgjson_wrangler.py:44-55 | the reshaping fails exactly when a pass fails; otherwise the flat table is sorted by uuid, medium, providers, currency, list, finish, date and has one row per unpivoted row |
| Flattener.FinishMembers | src/data/mtgjson_wrangler.py:50-52 | every flat row is a renamed, date-cast row of the unpivoted table |
| Flattener.ExpandRowKeepsCell | src/data/mtgjson_wrangler.py:122 | unpivot copies an identifying cell unchanged into every row it emits |
| Flattener.PassKeepsLabels | src/data/mtgjson_wrangler.py:120-124 | a pass keeps every text label of its input rows and adds a text label in its variable column |
| Flattener.RunKeepsLabels | src/data/mtgjson_wrangler.py:44-48 | after n passes each row has text labels in uuid and every variable column so far |
| Flattener.StageFacts | src/data/mtgjson_wrangler.py:33-47 | every label column before a pass is one of its identifying columns, and none is `data` |
| Flattener.FinishRowShape | src/data/mtgjson_wrangler.py:51-52 | a fully labelled unpivoted row becomes a row with exactly the final columns, a date and a price |
| Flattener.FlattenIsComplete | src/data/mtgjson_wrangler.py:44-55 | every flat row has exactly uuid, medium, providers, currency, list, finish, date, price; labels are text, `date` a date, `price` non-null |
| MtgjsonWrangler.RunStages | src/data/mtgjson_wrangler.py:40-48 | the pass loop with its growing `accum_index` computes the five-pass run, stopping at the first failure |
| MtgjsonWrangler.MinDate | src/data/mtgjson_wrangler.py:60 | none exactly when no row has a date; otherwise a date of the table at or before every date in it |
| MtgjsonWrangler.MaxDate | src/data/mtgjson_wrangler.py:61 | none exactly when no row has a date; otherwise a date of the table at or after every date in it |
| MtgjsonWrangler.AutoName | src/data/mtgjson_wrangler.py:59-64 | a table without dates gets the name `flat_prices_None_None.parquet` in the interim directory |
| MtgjsonWrangler.AutoNameRange | src/data/mtgjson_wrangler.py:59-64 | the automatic name is `interim / flat_prices_<lo>_<hi>.parquet`, where lo is a date of the table at or before every date in it (the earliest) and hi one at or after every date (the latest) |
| MtgjsonWrangler.MtgPricesJsonWrangler.UnstackData | src/data/mtgjson_wrangler.py:24-65 | a missing nested file or a failing pass changes nothing; otherwise the flattened table is written under the given name or the automatic one, which becomes the final name |
| MtgjsonWrangler.MtgPricesJsonWrangler.LoadData | src/data/mtgjson_wrangler.py:69-75 | ValueError exactly when no final name is set; otherwise the table stored under it, or FileNotFound |
| MtgjsonData.MtgPricesJsonWrangler.Init | src/data/mtgjson_data.py:10-16 | no tables kept yet, file names `meta.parquet` and `allCardPrices.parquet` |
| MtgjsonData.MtgPricesJsonWrangler.ValidatePaths | src/data/mtgjson_data.py:77-94 | a missing key raises KeyError for the first one and changes nothing; otherwise the keys become paths and the interim and processed directories exist together with their parents |
| MtgjsonData.MtgPricesJsonWrangler.Create | src/data/mtgjson_data.py:10-18 | construction fails with validation's KeyError, or yields a valid wrangler with no tables kept, the file names `meta.parquet` and `allCardPrices.parquet`, a `paths` with the same keys (the expected ones as paths, the others unchanged), and both directories created with their parents |
| Frames.FullMetaTable | src/data/mtgjson_data.py:54-57 | one row per record with a non-null meta, keeping `field`, `meta` and `data` |
| MtgjsonData.MtgPricesJsonWrangler.RawJsonToParquet | src/data/mtgjson_data.py:34-75 | a missing raw file fails; otherwise meta goes to processed and prices to interim; with persist (the default) both tables are kept on the instance, without it the instance is unchanged |
| MtgjsonData.WindowsFromShape | src/data/mtgjson_data.py:25-27 | windows start at multiples of 10000 from the first, are non-empty, at most 10000 rows long, end to end, and end at the row count |
| MtgjsonData.ChunkWindowsPartition | src/data/mtgjson_data.py:24-27 | the chunk windows cover rows 0 to n-1, each row in one window, with no overlap; none for an empty table |
| MtgjsonData.MtgPricesJsonWrangler.ProcessPriceData | src/data/mtgjson_data.py:20-32 | the loop visits exactly the chunk windows in order and sums the rows each chunk yields |
| MtgjsonFetcher.ValidateDataset | src/data/mtgjson_fetcher.py:45-47 | passes exactly for the two datasets, otherwise ValueError |
| MtgjsonFetcher.Extension | src/data/mtgjson_fetcher.py:53-64 | Linux: `tar.gz` for the parquet bundle and `gz` otherwise; Windows: `zip`; any other system raises ValueError |
| MtgjsonFetcher.Filename | src/data/mtgjson_fetcher.py:53-66 | the archive name is the dataset, a dot, its extension; unsupported systems raise ValueError |
| MtgjsonFetcher.TarExactlyForParquetBundle | src/data/mtgjson_fetcher.py:71-74 | on Linux the downloaded file's name contains "tar" exactly for the parquet bundle |
| MtgjsonFetcher.MtgJsonFetcher.Init | src/data/mtgjson_fetcher.py:11-20 | final path `save_root/stem`, file path `save_root/filename`, URL is the API root plus the file name |
| MtgjsonFetcher.MtgJsonFetcher.Create | src/data/mtgjson_fetcher.py:11-20 | with the save root `data/raw/mtgjson` by default: an unknown dataset fails before any directory is made; otherwise the save root and final directory are made with their parents, then an unsupported system fails |
| MtgjsonFetcher.MtgJsonFetcher.Fetch | src/data/mtgjson_fetcher.py:22-33 | Linux: wget, then tar for the parquet bundle or gunzip into the final directory, rm, du. Windows: download, expand into the final directory, remove, measure |
| Sorting.InsertionSortSpec | scripts/table_of_contents.py:95 | sorting by a total preorder yields a sorted permutation of the input |
| Text.SplitLinesSpec | scripts/table_of_contents.py:77 | no line from `splitlines` holds a line break, only empty text has no lines, and the lines of non-empty text are exactly the pieces between the `\n`s of the text with every boundary (`\r\n` as one) written as `\n` and a final boundary dropped |
| Text.StripSpec | scripts/table_of_contents.py:79 | `strip` returns the slice between leading and trailing whitespace; both ends of a non-empty result are non-space |
| NotebookMeta.PartsSplitName | scripts/table_of_contents.py:9-17 | the leading and trailing part lists together are the dash-separated parts and rejoin to the name |
| NotebookMeta.ParsedNameAndIdSpellName | scripts/table_of_contents.py:9-17 | with parts on both sides of loc, parsed name + space + parsed id is the name upper-cased with dashes as spaces |
| NotebookMeta.ParseAtEnds | scripts/table_of_contents.py:9-17 | with `loc` 0 the name is empty and the id spells the whole name; with `loc` at or past the last part the name spells the whole name and the id is empty (upper-cased, dashes as spaces) |
| NotebookMeta.SectionTextSpellsDirname | scripts/table_of_contents.py:20-39 | for a directory name with at least one dash (two or more parts), a section renders as that name upper-cased with dashes as spaces; with no dash `_parse_id` is empty and the text ends in a space (`ParseAtEnds`) |
| NotebookMeta.NotebookIdAndTitleSpellStem | scripts/table_of_contents.py:42-68 | for a file stem with at least two dashes (three or more parts), a notebook's id, a space and its title spell the stem upper-cased with dashes as spaces; with fewer parts the title is empty (`ParseAtEnds`) |
| NotebookMeta.NotebookText | scripts/table_of_contents.py:57-61 | the entry is the link, followed by `: summary` exactly when the summary is non-empty |
| NotebookMeta.SummaryInSpec | scripts/table_of_contents.py:77-80 | within one cell: none exactly when no line strips to the heading; otherwise the stripped text after the first such line |
| NotebookMeta.SummarySpec | scripts/table_of_contents.py:70-82 | none exactly when no markdown cell has a heading line; otherwise the text after the first heading in reading order |
| NotebookMeta.ExtractSummary | scripts/table_of_contents.py:70-82 | the nested loop with early return computes that summary |
| TableOfContents.NotebookFilesSpec | scripts/table_of_contents.py:96-97 | the filter keeps each `.ipynb` name as often as listed, drops every other name, and keeps sorted lists sorted |
| TableOfContents.SortedNamesUnique | scripts/table_of_contents.py:95 | two sorted lists with the same names are equal, so `sort()` has one result |
| TableOfContents.SortedNamesSpec | scripts/table_of_contents.py:95 | the sorted names are sorted and a permutation of the given names |
| TableOfContents.SortFilenames | scripts/table_of_contents.py:95 | the insertion sort computes that unique sorted list |
| TableOfContents.PickedFilesSpec | scripts/table_of_contents.py:95-97 | the files picked from a directory are sorted and are exactly its notebook files, with multiplicity |
| TableOfContents.NotebooksInShareSection | scripts/table_of_contents.py:98-100 | every notebook collected from one directory has that directory as its section |
| TableOfContents.TableOfContents.AddFiles | scripts/table_of_contents.py:92-100 | the list grows by each walked directory's picked notebooks, directory by directory in walk order |
| TableOfContents.TableOfContents.AddDirectory | scripts/table_of_contents.py:94-100 | one directory's step appends a notebook for each picked file, in sorted order |
| TableOfContents.TocText | scripts/table_of_contents.py:103-114 | the contents text starts with the `# Table of Contents` line |
| TableOfContents.LayoutIsBlocks | scripts/table_of_contents.py:107-113 | per notebook in order: a header exactly when its directory name differs from the previous notebook's (or from the empty name, for the first), then its item |
| TableOfContents.LayoutItems | scripts/table_of_contents.py:107-113 | the items list every collected notebook once, in collection order |
| TableOfContents.TableOfContents.CompileToc | scripts/table_of_contents.py:103-114 | the loop with its running previous section computes that layout, concatenated after the title |
| TableOfContents.TableOfContents.constructor | scripts/table_of_contents.py:86-90 | the notebooks are those collected from the walk, and `toc` is their contents text |
| TableOfContents.TableOfContents.WriteToc | scripts/table_of_contents.py:122-126 | every markdown cell starting with the heading gets the contents text as its source; every other cell is unchanged |

## Left out

- Reading and writing JSON, parquet and notebook files is not modelled. Files are entries of a `Disk` object holding tables and raw records, and the conversions of pandas, polars and nbformat are not modelled.
- Flattener.UnnestUnpivot: emits rows grouped by input row. Polars stacks unpivot output column by column. The final sort makes the order immaterial for the flat table, so intermediate row order is not captured.
- Flattener.ExpandRow: a missing identifying column reads as a null cell. Polars would raise an error. Columns other than the identifying ones and `data` are dropped, where polars, called without `on`, would unpivot them too; the nested price table has no such column, but `Flattener.RunLeaves`, `LeafListing.FlattenListsLeaves` and `Flattener.FlattenIsComplete` are stated for every table under this reading. Polars errors other than a missing `data` column, a non-struct `data` and a duplicate column name are not modelled.
- Storage.Disk.MakeDir: a file sitting at the path or at one of its parents, where Python raises `FileExistsError` or `NotADirectoryError`, is not modelled; directories and files are separate entries of `Disk`. Parents are found on the path text, so the same directory spelled two ways counts twice.
- Flattener.CastDate: text becomes a date unchecked. Malformed dates and the actual `pl.Date` parsing are not modelled.
- Dates print and compare as their ISO text. The `datetime`/`date` types are not modelled.
- Text.Upper: upper-cases ASCII letters only. Python's full Unicode case mapping is not modelled.
- Paths.Join: concatenates with `/` without normalisation, and `Paths.Name` and `Paths.Parent` read the text as it is. `.` components are kept: a walk rooted at `.` gives paths `./x.ipynb`, whose parent is named `.`, so that section renders as `.` with its own header, where pathlib gives an empty name. Trailing separators are kept: the name of `a/b/` is empty, where pathlib gives `b`. `..`, repeated separators and Windows separators are not modelled either.
- Flattener.FlattenIsComplete: does not promise text in `currency`. That cell is the `currency` field of the provider struct, which `LeafListing.FlattenListsLeaves` and `Flattener.ExpandRowEmitsKeptFields` state, and it is null for a provider without one.
- `os.walk` is a given list of directories and file names. Its directory order and the `dirnames.sort()` that steers it are inputs, not modelled.
- A notebook's cells and its path relative to the contents notebook (`resolve().relative_to(..., walk_up=True)`) come from function parameters. File reading and path resolution are not modelled.
- WriteToc: models only the cell replacement. Executing the notebook with `ExecutePreprocessor` and saving it with `nbformat` are not modelled.
- MtgjsonFetcher.MtgJsonFetcher.Fetch: returns the shell commands as a plan and does not run them. Their exit codes (the reported "size") and the printed timestamps are not modelled.
- Fetch: the `ValueError` branch for another system is unreachable, because `__init__` already rejects such systems. The model requires a valid fetcher and omits that branch.
- MtgjsonData.MtgPricesJsonWrangler.ProcessPriceData: models the chunk windows and the running row total, with each chunk's row count a parameter. The method's free names (`df`, `interim_root`, `_extract_nested_data`), its chunk files and its `None` result are not modelled.
- `paths` is copied into the wrangler's own map. That the caller's dictionary is the same object, and sees the cast values, is not modelled.
- `print` output is not modelled.
