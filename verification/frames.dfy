/** The data the price wranglers handle: cells, rows and tables of a data
    frame, the raw records `pandas.read_json` makes of the price file, and the
    meta/price split of those records. */
module Frames {

  /** One cell. `Null` is pandas' NaN/None and polars' null; `Struct` is a
      nested JSON object, its fields in order. */
  datatype Value =
    | Null
    | Str(s: string)
    | Num(x: real)
    | Day(iso: string)  // a calendar date, held as its ISO text
    | Struct(fields: seq<Field>)

  datatype Field = Field(name: string, value: Value)

  /** A row maps each column name to its cell. */
  type Row = map<string, Value>

  type Table = seq<Row>

  /** The cell of `col`, null where the row has no such column. */
  function Cell(row: Row, col: string): Value
  {
    if col in row then row[col] else Null
  }

  /** One row of the frame read from the price file: its index (a
      metadata field name or a card uuid) and its `meta` and `data` cells. */
  datatype RawRecord = RawRecord(index: string, meta: Value, data: Value)

  predicate HasMeta(rec: RawRecord) { rec.meta != Null }

  predicate HasData(rec: RawRecord) { rec.data != Null }

  /** How many records satisfy `keep`. */
  function Count(raw: seq<RawRecord>, keep: RawRecord -> bool): nat
  {
    if raw == [] then 0 else (if keep(raw[0]) then 1 else 0) + Count(raw[1..], keep)
  }

  /** `dropna(subset=[...])` followed by a per-row reshaping: the records that
      `keep` accepts, in order, each turned into a row by `shape`. */
  function Select(raw: seq<RawRecord>, keep: RawRecord -> bool, shape: RawRecord -> Row): (t: Table)
    ensures |t| == Count(raw, keep)
    ensures forall row :: row in t <==> exists rec :: rec in raw && keep(rec) && row == shape(rec)
  {
    if raw == [] then []
    else
      var rest := Select(raw[1..], keep, shape);
      assert forall rec :: rec in raw <==> rec == raw[0] || rec in raw[1..];
      (if keep(raw[0]) then [shape(raw[0])] else []) + rest
  }

  /** When every record carries exactly one of the two markers, the two
      selections together account for every record. */
  lemma {:induction false} SplitCountsAddUp(raw: seq<RawRecord>)
    requires forall rec :: rec in raw ==> HasMeta(rec) != HasData(rec)
    ensures Count(raw, HasMeta) + Count(raw, HasData) == |raw|
  {
    if raw != [] {
      SplitCountsAddUp(raw[1..]);
    }
  }

  /** A row of the price table: the index label renamed to `uuid`, `meta` dropped. */
  function PriceRow(rec: RawRecord): Row
  {
    map["uuid" := Str(rec.index), "data" := rec.data]
  }

  /** The price table both wranglers write: records without price data are
      dropped, the meta column is removed, and the index label becomes a
      `uuid` column. */
  function PriceTable(raw: seq<RawRecord>): (t: Table)
    ensures |t| == Count(raw, HasData)
    ensures forall row :: row in t <==> exists rec :: rec in raw && rec.data != Null && row == PriceRow(rec)
    ensures forall row :: row in t ==> row.Keys == {"uuid", "data"} && row["uuid"].Str? && row["data"] != Null
  {
    Select(raw, HasData, PriceRow)
  }

  /** A row of the meta table of the newer wrangler: the index label renamed to
      `field`, `data` dropped. */
  function MetaRow(rec: RawRecord): Row
  {
    map["field" := Str(rec.index), "meta" := rec.meta]
  }

  /** The meta table of the newer wrangler: records without meta data are
      dropped, the price column is removed, and the index label becomes a
      `field` column. */
  function MetaTable(raw: seq<RawRecord>): (t: Table)
    ensures |t| == Count(raw, HasMeta)
    ensures forall row :: row in t <==> exists rec :: rec in raw && rec.meta != Null && row == MetaRow(rec)
    ensures forall row :: row in t ==> row.Keys == {"field", "meta"} && row["field"].Str? && row["meta"] != Null
  {
    Select(raw, HasMeta, MetaRow)
  }

  /** A row of the meta table of the older wrangler, which keeps the `data` column. */
  function FullMetaRow(rec: RawRecord): Row
  {
    map["field" := Str(rec.index), "meta" := rec.meta, "data" := rec.data]
  }

  /** The older meta table: the records that have a `meta` value, each keeping
      its field name (the former index) together with its `meta` and `data` cells. */
  function FullMetaTable(raw: seq<RawRecord>): (t: Table)
    ensures |t| == Count(raw, HasMeta)
    ensures forall row :: row in t <==> exists rec :: rec in raw && rec.meta != Null && row == FullMetaRow(rec)
    ensures forall row :: row in t ==> row.Keys == {"field", "meta", "data"} && row["field"].Str? && row["meta"] != Null
  {
    Select(raw, HasMeta, FullMetaRow)
  }
}
