/** The leaves of the nested price table listed one by one, depth first, each
    as the flat row it should become, and the proof that the passes of
    `unstack_data` produce exactly that list. */
module LeafListing {
  import opened Base
  import opened Frames
  import opened Flattener

  /** The rows of the leaves below `v`, the value at level `i` of the row `row`,
      listed depth first. Each holds the labels on the path to its leaf: the
      identifying cells of every level (with identifying fields such as
      `currency` taken from the struct they sit in), the name of the field
      chosen at every level, and the leaf itself as `data`. */
  function LeafRows(row: Row, v: Value, i: nat): seq<Row>
    requires i <= |Stages|
    decreases v
  {
    if v.Null? then []
    else if i == |Stages| then [row["data" := v]]
    else if v.Struct? then FieldRows(row, v.fields, v.fields, i)
    else []
  }

  /** The leaf rows below the fields `fs`, a suffix of the struct `all` at level `i`. */
  function FieldRows(row: Row, all: seq<Field>, fs: seq<Field>, i: nat): seq<Row>
    requires i < |Stages|
    decreases fs
  {
    if fs == [] then []
    else
      var labels := IndexCells(row, all, AccumIndex(i))[Stages[i].variable := Str(fs[0].name)];
      (if fs[0].name in AccumIndex(i) then [] else LeafRows(labels["data" := fs[0].value], fs[0].value, i + 1))
      + FieldRows(row, all, fs[1..], i)
  }

  /** The leaf rows below the `data` cells of a table at level `i`, row by row. */
  function TableLeafRows(t: Table, i: nat): seq<Row>
    requires i <= |Stages|
  {
    if t == [] then [] else LeafRows(t[0], Cell(t[0], "data"), i) + TableLeafRows(t[1..], i)
  }

  lemma {:induction false} TableLeafRowsAppend(a: Table, b: Table, i: nat)
    requires i <= |Stages|
    ensures TableLeafRows(a + b, i) == TableLeafRows(a, i) + TableLeafRows(b, i)
  {
    if a == [] {
      assert a + b == b;
    } else {
      assert (a + b)[1..] == a[1..] + b;
      TableLeafRowsAppend(a[1..], b, i);
    }
  }

  lemma {:induction false} KeptLeafRows(row: Row, all: seq<Field>, fs: seq<Field>, i: nat)
    requires i < |Stages|
    ensures TableLeafRows(Emit(IndexCells(row, all, AccumIndex(i)), Stages[i].variable, Kept(fs, AccumIndex(i))), i + 1)
      == FieldRows(row, all, fs, i)
  {
    if fs != [] {
      var base := IndexCells(row, all, AccumIndex(i));
      var kept := Kept(fs, AccumIndex(i));
      var es := Emit(base, Stages[i].variable, kept);
      KeptLeafRows(row, all, fs[1..], i);
      if fs[0].name !in AccumIndex(i) && fs[0].value != Null {
        assert kept[1..] == Kept(fs[1..], AccumIndex(i));
        assert es[1..] == Emit(base, Stages[i].variable, kept[1..]);
        assert Cell(es[0], "data") == fs[0].value;
      } else {
        assert kept == Kept(fs[1..], AccumIndex(i));
      }
    }
  }

  /** A pass replaces a row by rows that list, at the next level, the same leaf rows in the same order. */
  lemma ExpandRowLeafRows(row: Row, i: nat)
    requires i < |Stages|
    requires ExpandRow(row, Stages[i].variable, AccumIndex(i)).Ok?
    ensures TableLeafRows(ExpandRow(row, Stages[i].variable, AccumIndex(i)).value, i + 1)
      == LeafRows(row, Cell(row, "data"), i)
  {
    if row["data"].Struct? {
      var fs := row["data"].fields;
      assert FirstClash(fs, row.Keys - {"data"}).None?;
      KeptLeafRows(row, fs, fs, i);
    }
  }

  lemma {:induction false} PassLeafRows(rows: Table, i: nat)
    requires i < |Stages|
    requires UnnestUnpivot(rows, Stages[i].variable, AccumIndex(i)).Ok?
    ensures TableLeafRows(UnnestUnpivot(rows, Stages[i].variable, AccumIndex(i)).value, i + 1)
      == TableLeafRows(rows, i)
    decreases |rows|
  {
    if rows != [] {
      PassTableLeafRows(rows, Stages[i].variable, AccumIndex(i), i + 1);
      ExpandRowLeafRows(rows[0], i);
      PassLeafRows(rows[1..], i);
    }
  }

  /** A pass's output lists the leaf rows of its first row's expansion, then
      those of the rest of its output. */
  lemma PassTableLeafRows(rows: Table, variable: string, index: seq<string>, j: nat)
    requires j <= |Stages| && rows != [] && UnnestUnpivot(rows, variable, index).Ok?
    ensures ExpandRow(rows[0], variable, index).Ok? && UnnestUnpivot(rows[1..], variable, index).Ok?
    ensures TableLeafRows(UnnestUnpivot(rows, variable, index).value, j)
      == TableLeafRows(ExpandRow(rows[0], variable, index).value, j) + TableLeafRows(UnnestUnpivot(rows[1..], variable, index).value, j)
  {
    PassUnfold(rows, variable, index);
    TableLeafRowsAppend(ExpandRow(rows[0], variable, index).value, UnnestUnpivot(rows[1..], variable, index).value, j);
  }

  /** After `n` passes the table lists, at level `n`, the leaf rows of its input. */
  lemma {:induction false} RunLeafRows(rows: Table, n: nat)
    requires n <= |Stages|
    requires Run(rows, n).Ok?
    ensures TableLeafRows(Run(rows, n).value, n) == TableLeafRows(rows, 0)
  {
    if n > 0 {
      RunLeafRows(rows, n - 1);
      PassLeafRows(Run(rows, n - 1).value, n - 1);
    }
  }

  /** Below the last level every row with a payload is its own leaf row. */
  lemma {:induction false} LeafRowsOfLeafTable(t: Table)
    requires forall row :: row in t ==> Cell(row, "data") != Null
    ensures TableLeafRows(t, |Stages|) == t
  {
    if t != [] {
      assert t[0] in t;
      assert t[0]["data" := t[0]["data"]] == t[0];
      LeafRowsOfLeafTable(t[1..]);
    }
  }

  // ---------------------------------------------------------------------------
  // The flat table.
  // ---------------------------------------------------------------------------

  /** The flat table holds exactly the leaf rows of the nested table, renamed
      and date-cast, each as often as it is listed. */
  lemma FlattenListsLeaves(rows: Table)
    requires Flatten(rows).Ok?
    ensures multiset(Flatten(rows).value) == multiset(Relabel(TableLeafRows(rows, 0)))
  {
    var t := Run(rows, |Stages|).value;
    RunLeafRows(rows, |Stages|);
    RunRowsHaveData(rows, |Stages|);
    LeafRowsOfLeafTable(t);
  }
}
