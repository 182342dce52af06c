/** `MtgPricesJsonWrangler` of the newer price wrangler: configuration check,
    the split of the raw price file into a meta table and a nested price
    table, the flattening of the nested table, and loading the result. */
module MtgjsonWrangler {
  import opened Base
  import opened Text
  import opened Paths
  import opened Frames
  import opened Storage
  import opened Flattener

  /** The configuration keys the wrangler needs, in the order it checks them. */
  const ExpectedKeys: seq<string> := ["raw_file", "interim", "processed"]

  const NoDataMessage: string := "No data to load.  Run unstack_data() first."

  /** The earliest date of the `date` column; none for a column without dates. */
  function MinDate(t: Table): (r: Option<string>)
    ensures r.None? <==> forall k :: 0 <= k < |t| ==> !Cell(t[k], "date").Day?
    ensures r.Some? ==> exists k :: 0 <= k < |t| && Cell(t[k], "date") == Day(r.value)
    ensures r.Some? ==> forall k :: 0 <= k < |t| && Cell(t[k], "date").Day? ==> StrLe(r.value, Cell(t[k], "date").iso)
  {
    if t == [] then None
    else
      var rest := MinDate(t[1..]);
      match Cell(t[0], "date")
      case Day(d) =>
        StrLeTotal(d, d);
        if rest.None? then Some(d)
        else if StrLe(d, rest.value) then
          LowerBoundShift(t, d, rest.value);
          Some(d)
        else
          StrLeTotal(d, rest.value);
          LowerBoundShift(t, rest.value, rest.value);
          rest
      case _ => rest
  }

  /** A bound below the first date and every later one is below all of them. */
  lemma LowerBoundShift(t: Table, lo: string, restLo: string)
    requires t != []
    requires Cell(t[0], "date").Day? ==> StrLe(lo, Cell(t[0], "date").iso)
    requires StrLe(lo, restLo)
    requires forall k :: 0 <= k < |t[1..]| && Cell(t[1..][k], "date").Day? ==> StrLe(restLo, Cell(t[1..][k], "date").iso)
    ensures forall k :: 0 <= k < |t| && Cell(t[k], "date").Day? ==> StrLe(lo, Cell(t[k], "date").iso)
  {
    forall k | 1 <= k < |t| && Cell(t[k], "date").Day? ensures StrLe(lo, Cell(t[k], "date").iso) {
      assert t[k] == t[1..][k - 1];
      StrLeTransitive(lo, restLo, Cell(t[k], "date").iso);
    }
  }

  /** The latest date of the `date` column; none for a column without dates. */
  function MaxDate(t: Table): (r: Option<string>)
    ensures r.None? <==> forall k :: 0 <= k < |t| ==> !Cell(t[k], "date").Day?
    ensures r.Some? ==> exists k :: 0 <= k < |t| && Cell(t[k], "date") == Day(r.value)
    ensures r.Some? ==> forall k :: 0 <= k < |t| && Cell(t[k], "date").Day? ==> StrLe(Cell(t[k], "date").iso, r.value)
  {
    if t == [] then None
    else
      var rest := MaxDate(t[1..]);
      match Cell(t[0], "date")
      case Day(d) =>
        StrLeTotal(d, d);
        if rest.None? then Some(d)
        else if StrLe(rest.value, d) then
          UpperBoundShift(t, d, rest.value);
          Some(d)
        else
          StrLeTotal(d, rest.value);
          UpperBoundShift(t, rest.value, rest.value);
          rest
      case _ => rest
  }

  lemma UpperBoundShift(t: Table, hi: string, restHi: string)
    requires t != []
    requires Cell(t[0], "date").Day? ==> StrLe(Cell(t[0], "date").iso, hi)
    requires StrLe(restHi, hi)
    requires forall k :: 0 <= k < |t[1..]| && Cell(t[1..][k], "date").Day? ==> StrLe(Cell(t[1..][k], "date").iso, restHi)
    ensures forall k :: 0 <= k < |t| && Cell(t[k], "date").Day? ==> StrLe(Cell(t[k], "date").iso, hi)
  {
    forall k | 1 <= k < |t| && Cell(t[k], "date").Day? ensures StrLe(Cell(t[k], "date").iso, hi) {
      assert t[k] == t[1..][k - 1];
      StrLeTransitive(Cell(t[k], "date").iso, restHi, hi);
    }
  }

  /** How an f-string prints a date or a missing one. */
  function ShowDate(d: Option<string>): string
  {
    if d.None? then "None" else d.value
  }

  /** The file name `unstack_data` picks when none was given. A table without
      dates has no earliest or latest date, and both print as `None`. */
  function AutoName(interim: Path, t: Table): (p: Path)
    ensures (forall k :: 0 <= k < |t| ==> !Cell(t[k], "date").Day?) ==>
      p == Join(interim, "flat_prices_None_None.parquet")
  {
    var name := "flat_prices_" + ShowDate(MinDate(t)) + "_" + ShowDate(MaxDate(t)) + ".parquet";
    assert MinDate(t).None? ==> name == "flat_prices_None_None.parquet" by {
      if MinDate(t).None? {
        NoDatesName();
      }
    }
    Join(interim, name)
  }

  lemma NoDatesName()
    ensures "flat_prices_" + "None" + "_" + "None" + ".parquet" == "flat_prices_None_None.parquet"
  {
    assert "flat_prices_" + "None" == "flat_prices_None";
    assert "flat_prices_None" + "_" == "flat_prices_None_";
    assert "flat_prices_None_" + "None" == "flat_prices_None_None";
  }

  /** The automatic name spans the table's dates: the first date in it is the
      earliest date of the table, the second the latest. */
  lemma AutoNameRange(interim: Path, t: Table)
    requires exists k :: 0 <= k < |t| && Cell(t[k], "date").Day?
    ensures exists lo, hi ::
      && AutoName(interim, t) == Join(interim, "flat_prices_" + lo + "_" + hi + ".parquet")
      && (exists k :: 0 <= k < |t| && Cell(t[k], "date") == Day(lo))
      && (exists k :: 0 <= k < |t| && Cell(t[k], "date") == Day(hi))
      && (forall k :: 0 <= k < |t| && Cell(t[k], "date").Day? ==> StrLe(lo, Cell(t[k], "date").iso) && StrLe(Cell(t[k], "date").iso, hi))
  {
    var lo, hi := MinDate(t).value, MaxDate(t).value;
    assert AutoName(interim, t) == Join(interim, "flat_prices_" + lo + "_" + hi + ".parquet");
  }

  /** The pass loop of `unstack_data`: `accum_index` grows by each stage's
      identifying columns before its pass; the first failing pass ends the loop. */
  method RunStages(nested: Table) returns (r: Result<Table>)
    ensures r == Run(nested, |Stages|)
  {
    var accum: seq<string> := [];
    var t := nested;
    for i := 0 to |Stages|
      invariant accum == (if i == 0 then [] else AccumIndex(i - 1))
      invariant Run(nested, i) == Ok(t)
    {
      accum := accum + Stages[i].index;
      var pass := UnnestUnpivot(t, Stages[i].variable, accum);
      RunStep(nested, i, t, accum);
      if pass.Err? {
        RunErrorPersists(nested, i + 1, |Stages|);
        return pass;
      }
      t := pass.value;
    }
    r := Ok(t);
  }

  /** One turn of the pass loop: the grown index is that of pass `i`, and the
      pass applied to the table after `i` passes gives the run of `i + 1`. */
  lemma RunStep(nested: Table, i: nat, t: Table, accum: seq<string>)
    requires i < |Stages| && Run(nested, i) == Ok(t)
    requires accum == (if i == 0 then [] else AccumIndex(i - 1)) + Stages[i].index
    ensures accum == AccumIndex(i)
    ensures Run(nested, i + 1) == UnnestUnpivot(t, Stages[i].variable, accum)
  {
  }

  class MtgPricesJsonWrangler {
    var paths: map<string, PathLike>
    var metaFilename: string
    var interimFilename: string
    var finalFilename: Option<Path>
    /** The file system the wrangler reads and writes. */
    const disk: Disk

    /** The state validation establishes: every expected key holds a path. */
    predicate Valid()
      reads this
    {
      forall k :: k in ExpectedKeys ==> k in paths && paths[k].PathObj?
    }

    function Dir(key: string): Path
      reads this
      requires Valid() && key in ExpectedKeys
    {
      paths[key].p
    }

    /** The field assignments of `__init__` that precede validation. */
    constructor Init(paths: map<string, PathLike>, filename: Option<string>, interimFilename: string, disk: Disk)
      ensures this.paths == paths && this.metaFilename == "meta.parquet"
      ensures this.interimFilename == interimFilename && this.disk == disk
      ensures this.finalFilename == (if filename.None? then None else Some(Path(filename.value)))
    {
      this.paths := paths;
      this.metaFilename := "meta.parquet";
      this.interimFilename := interimFilename;
      this.finalFilename := if filename.None? then None else Some(Path(filename.value));
      this.disk := disk;
    }

    /** `_validate_paths`: a missing key fails before anything is touched;
        otherwise the keys become paths, the two directories exist and a given
        final file name is placed in the interim directory. The raw file need
        not exist. */
    method ValidatePaths() returns (o: Outcome)
      modifies this, disk
      ensures FirstMissing(old(paths), ExpectedKeys).Some? ==>
        o == Fail(KeyError(FirstMissing(old(paths), ExpectedKeys).value)) && unchanged(this) && unchanged(disk)
      ensures FirstMissing(old(paths), ExpectedKeys).None? ==>
        && o == Pass && Valid()
        && paths.Keys == old(paths).Keys
        && (forall k :: k in ExpectedKeys ==> paths[k] == PathObj(ToPath(old(paths)[k])))
        && (forall k :: k in paths && k !in ExpectedKeys ==> paths[k] == old(paths)[k])
        && disk.dirs == old(disk.dirs) + Lineage(Dir("interim")) + Lineage(Dir("processed"))
        && disk.files == old(disk.files) && disk.json == old(disk.json)
        && finalFilename == (if old(finalFilename).None? then None else Some(Join(Dir("interim"), old(finalFilename).value.s)))
        && metaFilename == old(metaFilename) && interimFilename == old(interimFilename)
    {
      var missing := FindMissingKey(paths, ExpectedKeys);
      if missing.Some? {
        return Fail(KeyError(missing.value));
      }
      paths := CastToPaths(paths, ExpectedKeys);
      assert Valid();
      disk.MakeDir(Dir("interim"));
      disk.MakeDir(Dir("processed"));
      if finalFilename.Some? {
        finalFilename := Some(Join(Dir("interim"), finalFilename.value.s));
      }
      o := Pass;
    }

    /** `__init__`: the field assignments, then validation. */
    static method Create(paths: map<string, PathLike>, disk: Disk,
                         filename: Option<string> := None, interimFilename: string := "nested_prices.parquet")
      returns (r: Result<MtgPricesJsonWrangler>)
      modifies disk
      ensures FirstMissing(paths, ExpectedKeys).Some? ==>
        r == Err(KeyError(FirstMissing(paths, ExpectedKeys).value)) && unchanged(disk)
      ensures FirstMissing(paths, ExpectedKeys).None? ==>
        && r.Ok? && fresh(r.value) && r.value.Valid() && r.value.disk == disk
        && r.value.paths.Keys == paths.Keys
        && (forall k :: k in ExpectedKeys ==> r.value.paths[k] == PathObj(ToPath(paths[k])))
        && (forall k :: k in paths && k !in ExpectedKeys ==> r.value.paths[k] == paths[k])
        && disk.dirs == old(disk.dirs) + Lineage(ToPath(paths["interim"])) + Lineage(ToPath(paths["processed"]))
        && disk.files == old(disk.files) && disk.json == old(disk.json)
        && r.value.finalFilename == (if filename.None? then None else Some(Join(ToPath(paths["interim"]), filename.value)))
        && r.value.metaFilename == "meta.parquet" && r.value.interimFilename == interimFilename
    {
      var w := new MtgPricesJsonWrangler.Init(paths, filename, interimFilename, disk);
      var o := w.ValidatePaths();
      if o.Fail? {
        return Err(o.error);
      }
      assert w.Dir("interim") == ToPath(paths["interim"]);
      assert w.Dir("processed") == ToPath(paths["processed"]);
      r := Ok(w);
    }

    /** `raw_json_to_parquet`: reads the raw price file and writes the meta table
        and the nested price table, both into the interim directory. */
    method RawJsonToParquet() returns (o: Outcome)
      requires Valid()
      modifies disk
      ensures Dir("raw_file") !in old(disk.json) ==> o == Fail(FileNotFound(Dir("raw_file").s)) && unchanged(disk)
      ensures Dir("raw_file") in old(disk.json) ==>
        var raw := old(disk.json)[Dir("raw_file")];
        && o == Pass
        && disk.files == old(disk.files)[Join(Dir("interim"), metaFilename) := MetaTable(raw)]
                                        [Join(Dir("interim"), interimFilename) := PriceTable(raw)]
        && disk.json == old(disk.json) && disk.dirs == old(disk.dirs)
    {
      var source := Dir("raw_file");
      if source !in disk.json {
        return Fail(FileNotFound(source.s));
      }
      var raw := disk.json[source];
      disk.Write(Join(Dir("interim"), metaFilename), MetaTable(raw));
      disk.Write(Join(Dir("interim"), interimFilename), PriceTable(raw));
      o := Pass;
    }

    /** `unstack_data`: reads the nested price table, runs the five passes with
        the growing identifying-column list, renames, casts and sorts, names the
        output from its dates when no name was given, and writes it. */
    method UnstackData() returns (o: Outcome)
      requires Valid()
      modifies this`finalFilename, disk
      ensures var source := Join(Dir("interim"), interimFilename);
        && (source !in old(disk.files) ==>
              o == Fail(FileNotFound(source.s)) && unchanged(disk) && finalFilename == old(finalFilename))
        && (source in old(disk.files) && Flatten(old(disk.files)[source]).Err? ==>
              o == Fail(Flatten(old(disk.files)[source]).error) && unchanged(disk) && finalFilename == old(finalFilename))
        && (source in old(disk.files) && Flatten(old(disk.files)[source]).Ok? ==>
              var flat := Flatten(old(disk.files)[source]).value;
              && o == Pass
              && finalFilename == Some(if old(finalFilename).Some? then old(finalFilename).value else AutoName(Dir("interim"), flat))
              && disk.files == old(disk.files)[finalFilename.value := flat]
              && disk.json == old(disk.json) && disk.dirs == old(disk.dirs))
    {
      var source := Join(Dir("interim"), interimFilename);
      if source !in disk.files {
        return Fail(FileNotFound(source.s));
      }
      var nested := disk.files[source];
      var r := RunStages(nested);
      if r.Err? {
        return Fail(r.error);
      }
      var flat := Finish(r.value);
      if finalFilename.None? {
        finalFilename := Some(AutoName(Dir("interim"), flat));
      }
      disk.Write(finalFilename.value, flat);
      o := Pass;
    }

    /** `load_data`: fails with `ValueError` exactly when no output file is named. */
    method LoadData() returns (r: Result<Table>)
      ensures r.Err? && r.error.ValueError? <==> finalFilename.None?
      ensures finalFilename.None? ==> r == Err(ValueError(NoDataMessage))
      ensures finalFilename.Some? && finalFilename.value in disk.files ==> r == Ok(disk.files[finalFilename.value])
      ensures finalFilename.Some? && finalFilename.value !in disk.files ==> r == Err(FileNotFound(finalFilename.value.s))
    {
      if finalFilename.None? {
        return Err(ValueError(NoDataMessage));
      }
      var p := finalFilename.value;
      if p !in disk.files {
        return Err(FileNotFound(p.s));
      }
      r := Ok(disk.files[p]);
    }
  }
}
