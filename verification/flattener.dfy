/** The reshaping at the heart of `unstack_data`: five unnest-then-unpivot
    passes over the nested price table, then the rename of the payload to
    `price`, the date cast and the sort. Every function here is a pure
    function of its input table; the class in MtgjsonWrangler runs them. */
module Flattener {
  import opened Base
  import opened Text
  import opened Sorting
  import opened Frames

  // ---------------------------------------------------------------------------
  // The stages.
  // ---------------------------------------------------------------------------

  /** One entry of the `indices` dictionary: the variable column a pass
      creates and the identifying columns it adds to the accumulated index. */
  datatype Stage = Stage(variable: string, index: seq<string>)

  /** The `indices` dictionary of `unstack_data`, in iteration order. */
  const Stages: seq<Stage> := [
    Stage("medium", ["uuid"]),
    Stage("providers", ["medium"]),
    Stage("list", ["providers", "currency"]),
    Stage("finish", ["list"]),
    Stage("date", ["finish"])
  ]

  /** `accum_index` during pass `i`: every stage's identifying columns up to `i`. */
  function AccumIndex(i: nat): seq<string>
    requires i < |Stages|
  {
    if i == 0 then Stages[0].index else AccumIndex(i - 1) + Stages[i].index
  }

  /** The identifying-column list only grows: each pass's list extends every earlier one. */
  lemma {:induction false} AccumIndexGrows(i: nat, j: nat)
    requires i <= j < |Stages|
    ensures AccumIndex(i) <= AccumIndex(j)
    decreases j
  {
    if i < j {
      AccumIndexGrows(i, j - 1);
      assert AccumIndex(j) == AccumIndex(j - 1) + Stages[j].index;
    }
  }

  lemma AccumIndexValues()
    ensures AccumIndex(0) == ["uuid"]
    ensures AccumIndex(1) == ["uuid", "medium"]
    ensures AccumIndex(2) == ["uuid", "medium", "providers", "currency"]
    ensures AccumIndex(3) == ["uuid", "medium", "providers", "currency", "list"]
    ensures AccumIndex(4) == ["uuid", "medium", "providers", "currency", "list", "finish"]
  {
  }

  // ---------------------------------------------------------------------------
  // One pass: `df.unnest("data").unpivot(index=..., value_name="data",
  // variable_name=...).drop_nulls("data")`.
  // ---------------------------------------------------------------------------

  /** The value of the first field called `name`, null if there is none. */
  function Lookup(fs: seq<Field>, name: string): Value
  {
    if fs == [] then Null else if fs[0].name == name then fs[0].value else Lookup(fs[1..], name)
  }

  /** Field `k` repeats a taken name: an existing column or an earlier field. */
  predicate ClashAt(fs: seq<Field>, taken: set<string>, k: int)
  {
    0 <= k < |fs| && (fs[k].name in taken || exists j :: 0 <= j < k && fs[j].name == fs[k].name)
  }

  /** The first name unnesting `fs` beside the columns `taken` would duplicate. */
  function FirstClash(fs: seq<Field>, taken: set<string>): (r: Option<string>)
    ensures r.None? ==> forall k :: 0 <= k < |fs| ==> fs[k].name !in taken
    ensures r.None? ==> forall j, k :: 0 <= j < k < |fs| ==> fs[j].name != fs[k].name
    ensures r.Some? ==> exists k :: ClashAt(fs, taken, k) && fs[k].name == r.value
  {
    if fs == [] then None
    else if fs[0].name in taken then
      assert ClashAt(fs, taken, 0);
      Some(fs[0].name)
    else
      var r := FirstClash(fs[1..], taken + {fs[0].name});
      if r.Some? then
        var k :| ClashAt(fs[1..], taken + {fs[0].name}, k) && fs[1..][k].name == r.value;
        ClashShift(fs, taken, k);
        r
      else
        r
  }

  /** A clash in the tail of `fs`, with its head's name taken, is a clash in `fs`. */
  lemma ClashShift(fs: seq<Field>, taken: set<string>, k: int)
    requires fs != [] && ClashAt(fs[1..], taken + {fs[0].name}, k)
    ensures ClashAt(fs, taken, k + 1)
  {
    if fs[k + 1].name != fs[0].name && fs[k + 1].name !in taken {
      var j :| 0 <= j < k && fs[1..][j].name == fs[1..][k].name;
      assert fs[j + 1].name == fs[k + 1].name;
    }
  }

  /** The cell of column `c` once `data` has been unnested into the fields `fs`. */
  function Unnested(row: Row, fs: seq<Field>, c: string): Value
  {
    if c in row && c != "data" then row[c] else Lookup(fs, c)
  }

  /** The identifying columns of the unnested row. */
  function IndexCells(row: Row, fs: seq<Field>, index: seq<string>): Row
  {
    map c | c in index :: Unnested(row, fs, c)
  }

  /** The fields an unpivot keeps after `drop_nulls`: not identifying, not null, in order. */
  function Kept(fs: seq<Field>, index: seq<string>): (kept: seq<Field>)
    ensures forall f :: f in kept <==> f in fs && f.name !in index && f.value != Null
    ensures |kept| <= |fs|
  {
    if fs == [] then []
    else
      assert forall f :: f in fs <==> f == fs[0] || f in fs[1..];
      (if fs[0].name in index || fs[0].value == Null then [] else [fs[0]]) + Kept(fs[1..], index)
  }

  /** The unpivoted row for field `f`: identifying cells, the field name, its value. */
  function OutRow(base: Row, variable: string, f: Field): Row
  {
    base[variable := Str(f.name)]["data" := f.value]
  }

  /** One unpivoted row per kept field, in field order. */
  function Emit(base: Row, variable: string, kept: seq<Field>): (t: Table)
    ensures |t| == |kept|
    ensures forall k :: 0 <= k < |t| ==> t[k] == OutRow(base, variable, kept[k])
  {
    if kept == [] then [] else [OutRow(base, variable, kept[0])] + Emit(base, variable, kept[1..])
  }

  /** The rows one input row contributes to a pass, or the error polars raises:
      no `data` column, a `data` cell that is not a struct, or a field whose name
      is already a column. */
  function ExpandRow(row: Row, variable: string, index: seq<string>): (r: Result<Table>)
    ensures "data" !in row ==> r == Err(ColumnNotFound("data"))
    ensures "data" in row && !row["data"].Null? && !row["data"].Struct? ==> r == Err(NotAStruct("data"))
  {
    if "data" !in row then Err(ColumnNotFound("data"))
    else match row["data"]
      case Null => Ok([])
      case Struct(fs) =>
        (match FirstClash(fs, row.Keys - {"data"})
         case Some(name) => Err(DuplicateColumn(name))
         case None => Ok(Emit(IndexCells(row, fs, index), variable, Kept(fs, index))))
      case _ => Err(NotAStruct("data"))
  }

  /** Row `k` is the first row of `rows` that a pass cannot expand. */
  predicate FirstFailure(rows: Table, variable: string, index: seq<string>, k: int)
  {
    && 0 <= k < |rows|
    && ExpandRow(rows[k], variable, index).Err?
    && forall j :: 0 <= j < k ==> ExpandRow(rows[j], variable, index).Ok?
  }

  /** One pass over a table: each row unnested and unpivoted, the rows
      contributed by each input row in turn. */
  function UnnestUnpivot(rows: Table, variable: string, index: seq<string>): Result<Table>
  {
    if rows == [] then Ok([])
    else match ExpandRow(rows[0], variable, index)
      case Err(e) => Err(e)
      case Ok(head) =>
        match UnnestUnpivot(rows[1..], variable, index)
        case Err(e) => Err(e)
        case Ok(tail) => Ok(head + tail)
  }

  /** A pass fails exactly when one of its rows cannot be expanded, and then
      with the error of the first such row. */
  lemma {:induction false} PassFailsAtFirstFailure(rows: Table, variable: string, index: seq<string>)
    ensures UnnestUnpivot(rows, variable, index).Err? <==>
      exists k :: 0 <= k < |rows| && ExpandRow(rows[k], variable, index).Err?
    ensures UnnestUnpivot(rows, variable, index).Err? ==>
      exists k :: FirstFailure(rows, variable, index, k) && UnnestUnpivot(rows, variable, index) == ExpandRow(rows[k], variable, index)
  {
    if rows != [] {
      PassFailsAtFirstFailure(rows[1..], variable, index);
      if ExpandRow(rows[0], variable, index).Ok? && UnnestUnpivot(rows[1..], variable, index).Err? {
        var k :| FirstFailure(rows[1..], variable, index, k)
          && UnnestUnpivot(rows[1..], variable, index) == ExpandRow(rows[1..][k], variable, index);
        assert FirstFailure(rows, variable, index, k + 1) by {
          forall j | 0 <= j < k + 1 ensures ExpandRow(rows[j], variable, index).Ok? {
            if j > 0 { assert rows[j] == rows[1..][j - 1]; }
          }
        }
      }
      if exists k :: 0 <= k < |rows| && ExpandRow(rows[k], variable, index).Err? {
        var k :| 0 <= k < |rows| && ExpandRow(rows[k], variable, index).Err?;
        if k > 0 { assert rows[k] == rows[1..][k - 1]; }
      }
    }
  }

  /** A successful pass is its first row's output followed by the pass over the other rows. */
  lemma PassUnfold(rows: Table, variable: string, index: seq<string>)
    requires rows != [] && UnnestUnpivot(rows, variable, index).Ok?
    ensures ExpandRow(rows[0], variable, index).Ok? && UnnestUnpivot(rows[1..], variable, index).Ok?
    ensures UnnestUnpivot(rows, variable, index).value
      == ExpandRow(rows[0], variable, index).value + UnnestUnpivot(rows[1..], variable, index).value
  {
  }

  /** A row a pass emits holds exactly the identifying columns, the variable
      column and `data`; its `data` is never null and its variable cell is text. */
  predicate PassRow(e: Row, variable: string, index: seq<string>)
  {
    && e.Keys == (set c | c in index) + {variable, "data"}
    && e["data"] != Null
    && (variable != "data" ==> e[variable].Str?)
  }

  lemma ExpandRowShape(row: Row, variable: string, index: seq<string>)
    requires ExpandRow(row, variable, index).Ok?
    ensures forall e :: e in ExpandRow(row, variable, index).value ==> PassRow(e, variable, index)
  {
    if row["data"].Struct? {
      var fs := row["data"].fields;
      var kept := Kept(fs, index);
      var base := IndexCells(row, fs, index);
      var es := Emit(base, variable, kept);
      assert FirstClash(fs, row.Keys - {"data"}).None?;
      assert ExpandRow(row, variable, index).value == es;
      forall e | e in es ensures PassRow(e, variable, index) {
        var k :| 0 <= k < |es| && es[k] == e;
        assert kept[k] in kept;
        OutRowShape(row, fs, index, variable, kept[k]);
      }
    }
  }

  /** An emitted row for a non-null field has the shape of `PassRow`. */
  lemma OutRowShape(row: Row, fs: seq<Field>, index: seq<string>, variable: string, f: Field)
    requires f.value != Null
    ensures PassRow(OutRow(IndexCells(row, fs, index), variable, f), variable, index)
  {
    var base := IndexCells(row, fs, index);
    assert base.Keys == (set c | c in index);
  }

  /** Every row of a pass's output has the shape of `PassRow`. */
  lemma {:induction false} PassShape(rows: Table, variable: string, index: seq<string>)
    requires UnnestUnpivot(rows, variable, index).Ok?
    ensures forall e :: e in UnnestUnpivot(rows, variable, index).value ==> PassRow(e, variable, index)
  {
    if rows != [] {
      ExpandRowShape(rows[0], variable, index);
      PassShape(rows[1..], variable, index);
    }
  }

  /** The first `n` passes, in stage order, each with the index accumulated so far. */
  function Run(rows: Table, n: nat): Result<Table>
    requires n <= |Stages|
  {
    if n == 0 then Ok(rows)
    else match Run(rows, n - 1)
      case Err(e) => Err(e)
      case Ok(t) => UnnestUnpivot(t, Stages[n - 1].variable, AccumIndex(n - 1))
  }

  /** A pass that fails stops the run: the error of the first failing pass is the run's error. */
  lemma {:induction false} RunErrorPersists(rows: Table, i: nat, n: nat)
    requires i <= n <= |Stages|
    requires Run(rows, i).Err?
    ensures Run(rows, n) == Run(rows, i)
    decreases n
  {
    if i < n {
      RunErrorPersists(rows, i, n - 1);
    }
  }

  /** The stage list never makes a pass's variable column collide. */
  lemma StagesAreDistinct(i: nat)
    requires i < |Stages|
    ensures Stages[i].variable !in AccumIndex(i) && Stages[i].variable != "data" && "data" !in AccumIndex(i)
  {
    AccumIndexValues();
  }

  // ---------------------------------------------------------------------------
  // What one pass does to one row.
  // ---------------------------------------------------------------------------

  /** One pass emits one row per non-identifying, non-null field of a row's
      struct, in field order; each copies the row's identifying cells, names
      its field in the variable column and carries the field's value as `data`. */
  lemma ExpandRowEmitsKeptFields(row: Row, variable: string, index: seq<string>)
    requires variable !in index && variable != "data" && "data" !in index
    requires ExpandRow(row, variable, index).Ok?
    requires "data" in row && row["data"].Struct?
    ensures var es := ExpandRow(row, variable, index).value;
      var kept := Kept(row["data"].fields, index);
      && |es| == |kept|
      && (forall k :: 0 <= k < |es| ==> es[k][variable] == Str(kept[k].name) && es[k]["data"] == kept[k].value)
      && (forall k, c :: 0 <= k < |es| && c in index && c in row ==> es[k][c] == row[c])
      && (forall k, c :: 0 <= k < |es| && c in index && c !in row ==> es[k][c] == Lookup(row["data"].fields, c))
  {
    var fs := row["data"].fields;
    assert FirstClash(fs, row.Keys - {"data"}).None?;
    var es := ExpandRow(row, variable, index).value;
    forall k, c | 0 <= k < |es| && c in index && c in row ensures es[k][c] == row[c] {
      assert c != "data";
    }
  }

  // ---------------------------------------------------------------------------
  // Row conservation.
  // ---------------------------------------------------------------------------

  /** The number of non-null leaf prices below `v`, when `v` sits at nesting
      level `i` (level 0 is the struct under a card's uuid). A field named by an
      identifying column at its level (`currency`) is a label, not a branch. */
  function Leaves(v: Value, i: nat): nat
    requires i <= |Stages|
    decreases v
  {
    if v.Null? then 0
    else if i == |Stages| then 1
    else if v.Struct? then FieldLeaves(v.fields, i)
    else 0
  }

  function FieldLeaves(fs: seq<Field>, i: nat): nat
    requires i < |Stages|
    decreases fs
  {
    if fs == [] then 0
    else (if fs[0].name in AccumIndex(i) then 0 else Leaves(fs[0].value, i + 1)) + FieldLeaves(fs[1..], i)
  }

  /** The leaves below the `data` cells of a table at level `i`. */
  function SumLeaves(t: Table, i: nat): nat
    requires i <= |Stages|
  {
    if t == [] then 0 else Leaves(Cell(t[0], "data"), i) + SumLeaves(t[1..], i)
  }

  lemma {:induction false} SumLeavesAppend(a: Table, b: Table, i: nat)
    requires i <= |Stages|
    ensures SumLeaves(a + b, i) == SumLeaves(a, i) + SumLeaves(b, i)
  {
    if a == [] {
      assert a + b == b;
    } else {
      assert (a + b)[1..] == a[1..] + b;
      SumLeavesAppend(a[1..], b, i);
    }
  }

  lemma {:induction false} KeptLeaves(fs: seq<Field>, i: nat, base: Row, variable: string)
    requires i < |Stages|
    ensures SumLeaves(Emit(base, variable, Kept(fs, AccumIndex(i))), i + 1) == FieldLeaves(fs, i)
  {
    if fs != [] {
      var kept := Kept(fs, AccumIndex(i));
      KeptLeaves(fs[1..], i, base, variable);
      if fs[0].name !in AccumIndex(i) && fs[0].value != Null {
        assert kept[1..] == Kept(fs[1..], AccumIndex(i));
        assert Cell(OutRow(base, variable, fs[0]), "data") == fs[0].value;
      } else {
        assert kept == Kept(fs[1..], AccumIndex(i));
        assert fs[0].name !in AccumIndex(i) ==> Leaves(fs[0].value, i + 1) == 0;
      }
    }
  }

  /** A pass moves every leaf of a row's struct one level down, into exactly one output row. */
  lemma ExpandRowLeaves(row: Row, i: nat)
    requires i < |Stages|
    requires ExpandRow(row, Stages[i].variable, AccumIndex(i)).Ok?
    ensures SumLeaves(ExpandRow(row, Stages[i].variable, AccumIndex(i)).value, i + 1)
      == Leaves(Cell(row, "data"), i)
  {
    if row["data"].Struct? {
      var fs := row["data"].fields;
      KeptLeaves(fs, i, IndexCells(row, fs, AccumIndex(i)), Stages[i].variable);
    }
  }

  lemma {:induction false} PassLeaves(rows: Table, i: nat)
    requires i < |Stages|
    requires UnnestUnpivot(rows, Stages[i].variable, AccumIndex(i)).Ok?
    ensures SumLeaves(UnnestUnpivot(rows, Stages[i].variable, AccumIndex(i)).value, i + 1) == SumLeaves(rows, i)
    decreases |rows|
  {
    if rows != [] {
      PassSumLeaves(rows, Stages[i].variable, AccumIndex(i), i + 1);
      ExpandRowLeaves(rows[0], i);
      PassLeaves(rows[1..], i);
    }
  }

  /** The leaves a pass's output holds are those of its first row's expansion
      and those of the rest of its output. */
  lemma PassSumLeaves(rows: Table, variable: string, index: seq<string>, j: nat)
    requires j <= |Stages| && rows != [] && UnnestUnpivot(rows, variable, index).Ok?
    ensures ExpandRow(rows[0], variable, index).Ok? && UnnestUnpivot(rows[1..], variable, index).Ok?
    ensures SumLeaves(UnnestUnpivot(rows, variable, index).value, j)
      == SumLeaves(ExpandRow(rows[0], variable, index).value, j) + SumLeaves(UnnestUnpivot(rows[1..], variable, index).value, j)
  {
    PassUnfold(rows, variable, index);
    SumLeavesAppend(ExpandRow(rows[0], variable, index).value, UnnestUnpivot(rows[1..], variable, index).value, j);
  }

  /** After `n` passes the `data` cells hold exactly the leaves the input held. */
  lemma {:induction false} RunLeaves(rows: Table, n: nat)
    requires n <= |Stages|
    requires Run(rows, n).Ok?
    ensures SumLeaves(Run(rows, n).value, n) == SumLeaves(rows, 0)
  {
    if n > 0 {
      RunLeaves(rows, n - 1);
      PassLeaves(Run(rows, n - 1).value, n - 1);
    }
  }

  lemma {:induction false} SumLeavesOfLeafRows(t: Table)
    requires forall row :: row in t ==> Cell(row, "data") != Null
    ensures SumLeaves(t, |Stages|) == |t|
  {
    if t != [] {
      assert t[0] in t;
      SumLeavesOfLeafRows(t[1..]);
    }
  }

  // ---------------------------------------------------------------------------
  // The final steps: rename, date cast, sort.
  // ---------------------------------------------------------------------------

  /** `.rename({"data": "price"})` on one row. */
  function RenameData(row: Row): Row
  {
    if "data" in row then (row - {"data"})["price" := row["data"]] else row
  }

  /** `pl.col("date").cast(pl.Date)` on one row: ISO date text becomes a date. */
  function CastDate(row: Row): Row
  {
    if "date" in row && row["date"].Str? then row["date" := Day(row["date"].s)] else row
  }

  /** The sort columns of `unstack_data`, in priority order. */
  const SortColumns: seq<string> := ["uuid", "medium", "providers", "currency", "list", "finish", "date"]

  /** Cells order by kind first (nulls first, as polars sorts them), then by value. */
  function Rank(v: Value): nat
  {
    match v
    case Null => 0
    case Num(_) => 1
    case Str(_) => 2
    case Day(_) => 3
    case Struct(_) => 4
  }

  predicate CellLe(a: Value, b: Value)
  {
    if Rank(a) != Rank(b) then Rank(a) < Rank(b)
    else match a
      case Num(x) => x <= b.x
      case Str(s) => StrLe(s, b.s)
      case Day(d) => StrLe(d, b.iso)
      case _ => true
  }

  lemma CellLeTotal(a: Value, b: Value)
    ensures CellLe(a, b) || CellLe(b, a)
  {
    if a.Str? && b.Str? { StrLeTotal(a.s, b.s); }
    if a.Day? && b.Day? { StrLeTotal(a.iso, b.iso); }
  }

  lemma CellLeTransitive(a: Value, b: Value, c: Value)
    requires CellLe(a, b) && CellLe(b, c)
    ensures CellLe(a, c)
  {
    if a.Str? && b.Str? && c.Str? { StrLeTransitive(a.s, b.s, c.s); }
    if a.Day? && b.Day? && c.Day? { StrLeTransitive(a.iso, b.iso, c.iso); }
  }

  /** Lexicographic order on sort keys. */
  predicate KeyLe(a: seq<Value>, b: seq<Value>)
  {
    if a == [] then true
    else if b == [] then false
    else if !CellLe(b[0], a[0]) then true
    else if !CellLe(a[0], b[0]) then false
    else KeyLe(a[1..], b[1..])
  }

  lemma {:induction false} KeyLeTotal(a: seq<Value>, b: seq<Value>)
    ensures KeyLe(a, b) || KeyLe(b, a)
  {
    if a != [] && b != [] {
      CellLeTotal(a[0], b[0]);
      KeyLeTotal(a[1..], b[1..]);
    }
  }

  lemma {:induction false} KeyLeTransitive(a: seq<Value>, b: seq<Value>, c: seq<Value>)
    requires KeyLe(a, b) && KeyLe(b, c)
    ensures KeyLe(a, c)
  {
    if a != [] && b != [] && c != [] {
      CellLeTotal(a[0], b[0]);
      CellLeTotal(b[0], c[0]);
      CellLeTotal(a[0], c[0]);
      if CellLe(a[0], b[0]) && CellLe(b[0], c[0]) { CellLeTransitive(a[0], b[0], c[0]); }
      if CellLe(b[0], a[0]) && CellLe(c[0], b[0]) { CellLeTransitive(c[0], b[0], a[0]); }
      if CellLe(c[0], a[0]) && CellLe(a[0], b[0]) { CellLeTransitive(c[0], a[0], b[0]); }
      if CellLe(b[0], c[0]) && CellLe(c[0], a[0]) { CellLeTransitive(b[0], c[0], a[0]); }
      if CellLe(a[0], b[0]) && CellLe(b[0], a[0]) && CellLe(b[0], c[0]) && CellLe(c[0], b[0]) {
        KeyLeTransitive(a[1..], b[1..], c[1..]);
      }
    }
  }

  function SortKey(row: Row): seq<Value>
  {
    seq(|SortColumns|, k requires 0 <= k < |SortColumns| => Cell(row, SortColumns[k]))
  }

  predicate RowLe(a: Row, b: Row)
  {
    KeyLe(SortKey(a), SortKey(b))
  }

  lemma RowLeIsTotalPreorder()
    ensures IsTotalPreorder(RowLe)
  {
    forall a, b ensures RowLe(a, b) || RowLe(b, a) {
      KeyLeTotal(SortKey(a), SortKey(b));
    }
    forall a, b, c | RowLe(a, b) && RowLe(b, c) ensures RowLe(a, c) {
      KeyLeTransitive(SortKey(a), SortKey(b), SortKey(c));
    }
  }

  /** `rename` and `cast` applied to every row of a table, in order. */
  function Relabel(t: Table): Table
  {
    seq(|t|, k requires 0 <= k < |t| => CastDate(RenameData(t[k])))
  }

  /** Rename, cast and sort the fully unpivoted table. */
  function Finish(t: Table): (r: Table)
    ensures SortedBy(r, RowLe)
    ensures multiset(r) == multiset(Relabel(t))
    ensures |r| == |t|
  {
    var mapped := Relabel(t);
    RowLeIsTotalPreorder();
    InsertionSortSpec(mapped, RowLe);
    InsertionSort(mapped, RowLe)
  }

  /** The whole reshaping of `unstack_data`, from the nested price table to the
      flat one: it fails exactly when a pass fails, and its table is sorted by
      (uuid, medium, providers, currency, list, finish, date). */
  function Flatten(rows: Table): (r: Result<Table>)
    ensures r.Err? <==> Run(rows, |Stages|).Err?
    ensures r.Ok? ==> SortedBy(r.value, RowLe) && |r.value| == |Run(rows, |Stages|).value|
  {
    match Run(rows, |Stages|)
    case Err(e) => Err(e)
    case Ok(t) => Ok(Finish(t))
  }

  // ---------------------------------------------------------------------------
  // Column completeness.
  // ---------------------------------------------------------------------------

  /** Every row of `t` holds a text label in every column of `cols`. */
  predicate Labelled(t: Table, cols: seq<string>)
  {
    forall row: Row, c: string :: row in t && c in cols ==> c in row && row[c].Str?
  }

  /** The label columns after `n` passes: `uuid` and the variable column of every pass so far. */
  function Labels(n: nat): seq<string>
    requires n <= |Stages|
  {
    if n == 0 then ["uuid"] else Labels(n - 1) + [Stages[n - 1].variable]
  }

  lemma LabelsValue()
    ensures Labels(|Stages|) == ["uuid", "medium", "providers", "list", "finish", "date"]
  {
    assert Labels(1) == ["uuid", "medium"];
    assert Labels(2) == ["uuid", "medium", "providers"];
    assert Labels(3) == ["uuid", "medium", "providers", "list"];
    assert Labels(4) == ["uuid", "medium", "providers", "list", "finish"];
  }

  /** A pass copies an identifying cell of a row unchanged into each row it emits. */
  lemma ExpandRowKeepsCell(row: Row, variable: string, index: seq<string>, c: string)
    requires c in index && c in row && c != variable && c != "data"
    requires ExpandRow(row, variable, index).Ok?
    ensures forall e :: e in ExpandRow(row, variable, index).value ==> e[c] == row[c]
  {
    if row["data"].Struct? {
      var fs := row["data"].fields;
      var es := ExpandRow(row, variable, index).value;
      forall e | e in es ensures e[c] == row[c] {
        var k :| 0 <= k < |es| && es[k] == e;
        assert e == OutRow(IndexCells(row, fs, index), variable, Kept(fs, index)[k]);
      }
    }
  }

  lemma {:induction false} PassKeepsLabels(rows: Table, variable: string, index: seq<string>, cols: seq<string>)
    requires variable != "data" && "data" !in cols
    requires forall c :: c in cols ==> c in index
    requires Labelled(rows, cols)
    requires UnnestUnpivot(rows, variable, index).Ok?
    ensures Labelled(UnnestUnpivot(rows, variable, index).value, cols + [variable])
  {
    if rows != [] {
      var head := ExpandRow(rows[0], variable, index).value;
      var tail := UnnestUnpivot(rows[1..], variable, index).value;
      assert Labelled(rows[1..], cols) by {
        forall row: Row, c: string | row in rows[1..] && c in cols ensures c in row && row[c].Str? {
          assert row in rows;
        }
      }
      PassKeepsLabels(rows[1..], variable, index, cols);
      ExpandRowShape(rows[0], variable, index);
      forall c | c in cols && c != variable
        ensures forall e: Row :: e in head ==> c in e && e[c].Str?
      {
        assert rows[0] in rows;
        ExpandRowKeepsCell(rows[0], variable, index, c);
      }
    }
  }

  /** After `n` passes every row carries a text label in `uuid` and in every
      variable column created so far, when every input row has a text `uuid`. */
  lemma {:induction false} RunKeepsLabels(rows: Table, n: nat)
    requires n <= |Stages|
    requires Labelled(rows, ["uuid"])
    requires Run(rows, n).Ok?
    ensures Labelled(Run(rows, n).value, Labels(n))
  {
    if n > 0 {
      RunKeepsLabels(rows, n - 1);
      var t := Run(rows, n - 1).value;
      assert Run(rows, n) == UnnestUnpivot(t, Stages[n - 1].variable, AccumIndex(n - 1));
      StageFacts(n - 1);
      PassKeepsLabels(t, Stages[n - 1].variable, AccumIndex(n - 1), Labels(n - 1));
    }
  }

  /** Pass `i` neither creates nor relies on a `data` label, and every label
      before it is one of its identifying columns. */
  lemma StageFacts(i: nat)
    requires i < |Stages|
    ensures Stages[i].variable != "data" && "data" !in Labels(i)
    ensures forall c :: c in Labels(i) ==> c in AccumIndex(i)
  {
    AccumIndexValues();
    assert Labels(1) == ["uuid", "medium"];
    assert Labels(2) == ["uuid", "medium", "providers"];
    assert Labels(3) == ["uuid", "medium", "providers", "list"];
    assert Labels(4) == ["uuid", "medium", "providers", "list", "finish"];
  }

  /** The identifying columns of the flat table: every column but the price. */
  const KeyColumns: set<string> := {"uuid", "medium", "providers", "currency", "list", "finish", "date"}

  lemma DataIsNoKeyColumn()
    ensures "data" !in KeyColumns
  {
    assert "data"[3] != "date"[3];
  }

  /** The columns of the flat table. */
  const FinalColumns: set<string> := KeyColumns + {"price"}

  /** The shape of a flat-table row: exactly the final columns, a text label in
      each column the passes created, a date in `date` and a non-null price.
      `currency` is copied from the provider struct and is null where a provider
      has none. */
  predicate FlatRow(row: Row)
  {
    && row.Keys == FinalColumns
    && row["uuid"].Str? && row["medium"].Str? && row["providers"].Str?
    && row["list"].Str? && row["finish"].Str?
    && row["date"].Day?
    && row["price"] != Null
  }

  // ---------------------------------------------------------------------------
  // The properties of the flattened table.

  // ---------------------------------------------------------------------------

  /** Every row of a run of at least one pass carries a non-null payload. */
  lemma RunRowsHaveData(rows: Table, n: nat)
    requires 0 < n <= |Stages|
    requires Run(rows, n).Ok?
    ensures forall row :: row in Run(rows, n).value ==> Cell(row, "data") != Null
  {
    PassShape(Run(rows, n - 1).value, Stages[n - 1].variable, AccumIndex(n - 1));
  }

  /** The flat table has exactly one row per non-null leaf price of its input. */
  lemma FlattenConservesLeaves(rows: Table)
    requires Flatten(rows).Ok?
    ensures |Flatten(rows).value| == SumLeaves(rows, 0)
  {
    var t := Run(rows, |Stages|).value;
    RunLeaves(rows, |Stages|);
    RunRowsHaveData(rows, |Stages|);
    SumLeavesOfLeafRows(t);
  }

  /** Each row of the flat table is a renamed, date-cast row of the fully unpivoted table. */
  lemma FinishMembers(t: Table, row: Row)
    requires row in Finish(t)
    ensures exists r :: r in t && row == CastDate(RenameData(r))
  {
    var mapped := Relabel(t);
    assert row in multiset(mapped);
    var k :| 0 <= k < |mapped| && mapped[k] == row;
    assert t[k] in t;
  }

  /** A fully unpivoted row with every label becomes a flat-table row. */
  lemma FinishRowShape(r: Row)
    requires r.Keys == KeyColumns + {"data"}
    requires r["data"] != Null && r["date"].Str?
    requires forall c :: c in Labels(|Stages|) ==> c in r && r[c].Str?
    ensures FlatRow(CastDate(RenameData(r)))
  {
    LabelsValue();
    assert "uuid" in Labels(|Stages|) && "medium" in Labels(|Stages|) && "providers" in Labels(|Stages|);
    assert "list" in Labels(|Stages|) && "finish" in Labels(|Stages|);
    var renamed := (r - {"data"})["price" := r["data"]];
    assert RenameData(r) == renamed;
    assert renamed.Keys == (r.Keys - {"data"}) + {"price"};
    DataIsNoKeyColumn();
    assert r.Keys - {"data"} == KeyColumns;
    assert CastDate(renamed) == renamed["date" := Day(r["date"].s)];
  }

  /** Every row of the flat table has exactly the final columns, a text label in
      each, a date and a price, when every input row has a text `uuid`. */
  lemma FlattenIsComplete(rows: Table)
    requires Labelled(rows, ["uuid"])
    requires Flatten(rows).Ok?
    ensures forall row :: row in Flatten(rows).value ==> FlatRow(row)
  {
    var t := Run(rows, |Stages|).value;
    RunKeepsLabels(rows, |Stages|);
    PassShape(Run(rows, 4).value, "date", AccumIndex(4));
    AccumIndexValues();
    assert (set c | c in AccumIndex(4)) + {"date", "data"}
      == KeyColumns + {"data"};
    forall row | row in Flatten(rows).value ensures FlatRow(row) {
      FinishMembers(t, row);
      var r :| r in t && row == CastDate(RenameData(r));
      FinishRowShape(r);
    }
  }
}
