/** `MtgPricesJsonWrangler` of the older price wrangler: the same configuration
    check under other key names, a split that keeps the meta table whole and
    can keep both tables on the instance, and the chunk windows of
    `process_price_data`. */
module MtgjsonData {
  import opened Base
  import opened Paths
  import opened Frames
  import opened Storage

  /** The configuration keys the wrangler needs, in the order it checks them. */
  const ExpectedKeys: seq<string> := ["raw_filepath", "interim_path", "processed_path"]

  /** Rows per chunk of `process_price_data`. */
  const ChunkSize: nat := 10000

  /** The half-open row range `[start, end)` of one chunk. */
  datatype Window = Window(start: nat, end: nat)

  /** `[start, min(start + ChunkSize, n))` for each `start` in `range(from, n, ChunkSize)`. */
  function WindowsFrom(from: nat, n: nat): seq<Window>
    decreases n - from
  {
    if from >= n then [] else [Window(from, Min(from + ChunkSize, n))] + WindowsFrom(from + ChunkSize, n)
  }

  /** The chunk windows over `n` rows. */
  function ChunkWindows(n: nat): seq<Window>
  {
    WindowsFrom(0, n)
  }

  /** The windows from `from` are each one chunk long (the last possibly shorter),
      non-empty, placed end to end, and end at `n`. */
  lemma {:induction false} WindowsFromShape(from: nat, n: nat)
    ensures var w := WindowsFrom(from, n);
      && (from < n <==> |w| > 0)
      && (|w| > 0 ==> w[0].start == from && w[|w| - 1].end == n)
      && (forall k :: 0 <= k < |w| ==> w[k].start == from + k * ChunkSize)
      && (forall k :: 0 <= k < |w| ==> w[k].start < w[k].end <= n && w[k].end - w[k].start <= ChunkSize)
      && (forall k :: 0 <= k < |w| - 1 ==> w[k].end == w[k + 1].start)
    decreases n - from
  {
    if from < n {
      var w := WindowsFrom(from, n);
      var rest := WindowsFrom(from + ChunkSize, n);
      WindowsFromShape(from + ChunkSize, n);
      assert w[1..] == rest;
      forall k | 1 <= k < |w| ensures w[k].start == from + k * ChunkSize {
        assert w[k] == rest[k - 1];
      }
      if rest != [] {
        assert w[0].end == from + ChunkSize == rest[0].start;
      }
    }
  }

  /** Row `x` lies in one of the windows `w`. */
  predicate Covered(w: seq<Window>, x: int)
  {
    exists k :: 0 <= k < |w| && w[k].start <= x < w[k].end
  }

  /** The chunk windows partition `[0, n)`: they start at 0, are increasing and
      pairwise disjoint, and every row lies in one of them. */
  lemma ChunkWindowsPartition(n: nat)
    ensures var w := ChunkWindows(n);
      && (n > 0 ==> w[0].start == 0 && w[|w| - 1].end == n)
      && (n == 0 ==> w == [])
      && (forall j, k :: 0 <= j < k < |w| ==> w[j].end <= w[k].start)
      && (forall x :: 0 <= x < n ==> Covered(w, x))
  {
    var w := ChunkWindows(n);
    WindowsFromShape(0, n);
    forall j, k | 0 <= j < k < |w| ensures w[j].end <= w[k].start {
      assert w[j].end <= w[j].start + ChunkSize == j * ChunkSize + ChunkSize;
      assert w[k].start == k * ChunkSize;
    }
    forall x | 0 <= x < n ensures Covered(w, x) {
      CoveredBy(w, n, x, |w| - 1);
    }
  }

  /** Row `x` lies in one of the first `last + 1` windows when it is below the end of window `last`. */
  lemma {:induction false} CoveredBy(w: seq<Window>, n: nat, x: nat, last: nat)
    requires last < |w| && w[0].start == 0 && x < w[last].end
    requires forall k :: 0 <= k < |w| - 1 ==> w[k].end == w[k + 1].start
    ensures exists k :: 0 <= k <= last && w[k].start <= x < w[k].end
    decreases last
  {
    if w[last].start > x {
      CoveredBy(w, n, x, last - 1);
    }
  }

  /** The rows the chunks contribute in total. */
  function TotalRows(ws: seq<Window>, extract: (nat, nat) -> nat): nat
  {
    if ws == [] then 0 else TotalRows(ws[..|ws| - 1], extract) + extract(ws[|ws| - 1].start, ws[|ws| - 1].end)
  }

  class MtgPricesJsonWrangler {
    var paths: map<string, PathLike>
    var meta: Option<Table>
    var data: Option<Table>
    var metaFilename: string
    var dataFilename: string
    /** The file system the wrangler reads and writes. */
    const disk: Disk

    /** The state validation establishes: every expected key holds a path. */
    predicate Valid()
      reads this
    {
      forall k :: k in ExpectedKeys ==> k in paths && paths[k].PathObj?
    }

    function Dir(key: string): Path
      reads this
      requires Valid() && key in ExpectedKeys
    {
      paths[key].p
    }

    /** The field assignments of `__init__` that precede validation. */
    constructor Init(paths: map<string, PathLike>, disk: Disk)
      ensures this.paths == paths && meta == None && data == None && this.disk == disk
      ensures metaFilename == "meta.parquet" && dataFilename == "allCardPrices.parquet"
    {
      this.paths := paths;
      meta := None;
      data := None;
      metaFilename := "meta.parquet";
      dataFilename := "allCardPrices.parquet";
      this.disk := disk;
    }

    /** `_validate_paths`: a missing key fails before anything is touched;
        otherwise the keys become paths and the two directories exist. */
    method ValidatePaths() returns (o: Outcome)
      modifies this`paths, disk
      ensures FirstMissing(old(paths), ExpectedKeys).Some? ==>
        o == Fail(KeyError(FirstMissing(old(paths), ExpectedKeys).value)) && paths == old(paths) && unchanged(disk)
      ensures FirstMissing(old(paths), ExpectedKeys).None? ==>
        && o == Pass && Valid()
        && paths.Keys == old(paths).Keys
        && (forall k :: k in ExpectedKeys ==> paths[k] == PathObj(ToPath(old(paths)[k])))
        && (forall k :: k in paths && k !in ExpectedKeys ==> paths[k] == old(paths)[k])
        && disk.dirs == old(disk.dirs) + Lineage(Dir("interim_path")) + Lineage(Dir("processed_path"))
        && disk.files == old(disk.files) && disk.json == old(disk.json)
    {
      var missing := FindMissingKey(paths, ExpectedKeys);
      if missing.Some? {
        return Fail(KeyError(missing.value));
      }
      paths := CastToPaths(paths, ExpectedKeys);
      assert Valid();
      disk.MakeDir(Dir("interim_path"));
      disk.MakeDir(Dir("processed_path"));
      o := Pass;
    }

    /** `__init__`: the field assignments, then validation. */
    static method Create(paths: map<string, PathLike>, disk: Disk) returns (r: Result<MtgPricesJsonWrangler>)
      modifies disk
      ensures FirstMissing(paths, ExpectedKeys).Some? ==>
        r == Err(KeyError(FirstMissing(paths, ExpectedKeys).value)) && unchanged(disk)
      ensures FirstMissing(paths, ExpectedKeys).None? ==>
        && r.Ok? && fresh(r.value) && r.value.Valid() && r.value.disk == disk
        && r.value.meta == None && r.value.data == None
        && r.value.metaFilename == "meta.parquet" && r.value.dataFilename == "allCardPrices.parquet"
        && r.value.paths.Keys == paths.Keys
        && (forall k :: k in ExpectedKeys ==> r.value.paths[k] == PathObj(ToPath(paths[k])))
        && (forall k :: k in paths && k !in ExpectedKeys ==> r.value.paths[k] == paths[k])
        && disk.dirs == old(disk.dirs) + Lineage(ToPath(paths["interim_path"])) + Lineage(ToPath(paths["processed_path"]))
        && disk.files == old(disk.files) && disk.json == old(disk.json)
    {
      var w := new MtgPricesJsonWrangler.Init(paths, disk);
      var o := w.ValidatePaths();
      if o.Fail? {
        return Err(o.error);
      }
      assert w.Dir("interim_path") == ToPath(paths["interim_path"]);
      assert w.Dir("processed_path") == ToPath(paths["processed_path"]);
      r := Ok(w);
    }

    /** `raw_json_to_parquet(persist)`: writes the meta table (with its `data`
        column) to the processed directory and the price table to the interim
        directory; with `persist` both are also kept on the instance, without
        it the instance is left as it was. */
    method RawJsonToParquet(persist: bool := true) returns (o: Outcome)
      requires Valid()
      modifies this`meta, this`data, disk
      ensures Dir("raw_filepath") !in old(disk.json) ==>
        o == Fail(FileNotFound(Dir("raw_filepath").s)) && unchanged(disk) && meta == old(meta) && data == old(data)
      ensures Dir("raw_filepath") in old(disk.json) ==>
        var raw := old(disk.json)[Dir("raw_filepath")];
        && o == Pass
        && disk.files == old(disk.files)[Join(Dir("processed_path"), metaFilename) := FullMetaTable(raw)]
                                        [Join(Dir("interim_path"), dataFilename) := PriceTable(raw)]
        && disk.json == old(disk.json) && disk.dirs == old(disk.dirs)
        && (persist ==> meta == Some(FullMetaTable(raw)) && data == Some(PriceTable(raw)))
        && (!persist ==> meta == old(meta) && data == old(data))
    {
      var source := Dir("raw_filepath");
      if source !in disk.json {
        return Fail(FileNotFound(source.s));
      }
      var raw := disk.json[source];
      var metaTable := FullMetaTable(raw);
      disk.Write(Join(Dir("processed_path"), metaFilename), metaTable);
      var dataTable := PriceTable(raw);
      disk.Write(Join(Dir("interim_path"), dataFilename), dataTable);
      if persist {
        data := Some(dataTable);
        meta := Some(metaTable);
      }
      o := Pass;
    }

    /** The window loop of `process_price_data` over a table of `n` rows, where
        `extract(start, end)` is the number of rows the chunk `[start, end)`
        yields: visits the chunk windows in order and adds up their rows. */
    method ProcessPriceData(n: nat, extract: (nat, nat) -> nat) returns (windows: seq<Window>, totLen: nat)
      ensures windows == ChunkWindows(n)
      ensures totLen == TotalRows(windows, extract)
    {
      totLen := 0;
      windows := [];
      var start := 0;
      while start < n
        invariant windows + WindowsFrom(start, n) == ChunkWindows(n)
        invariant totLen == TotalRows(windows, extract)
        decreases n - start
      {
        var end := Min(start + ChunkSize, n);
        assert WindowsFrom(start, n) == [Window(start, end)] + WindowsFrom(start + ChunkSize, n);
        windows := windows + [Window(start, end)];
        totLen := totLen + extract(start, end);
        start := start + ChunkSize;
      }
    }
  }
}
