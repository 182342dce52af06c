/** `MtgJsonFetcher`: which archive to download for a dataset on an operating
    system, where it lands, and the shell steps that fetch and unpack it. The
    shell commands are not run; `Fetch` returns them as a plan. */
module MtgjsonFetcher {
  import opened Base
  import opened Text
  import opened Paths
  import opened Storage

  const AllPrices: string := "AllPrices.json"
  const AllPrintings: string := "AllPrintingsParquetFiles"

  /** The datasets the fetcher accepts, in the order its message lists them. */
  const ValidDatasets: seq<string> := [AllPrices, AllPrintings]

  const ApiRoot: string := "https://mtgjson.com/api/v5/"

  const DefaultSaveRoot: string := "data/raw/mtgjson"

  /** The dataset check of `_validate_inputs`. */
  function ValidateDataset(dataset: string): (o: Outcome)
    ensures o.Pass? <==> dataset == AllPrices || dataset == AllPrintings
    ensures o.Fail? ==> o.error.ValueError?
  {
    if dataset in ValidDatasets then Pass
    else Fail(ValueError("Dataset must be one of ['AllPrices.json', 'AllPrintingsParquetFiles']."))
  }

  /** The archive extension of `_get_filename`. */
  function Extension(dataset: string, osName: string): (r: Result<string>)
    ensures osName == "Linux" ==> r == Ok(if dataset == AllPrintings then "tar.gz" else "gz")
    ensures osName == "Windows" ==> r == Ok("zip")
    ensures osName != "Linux" && osName != "Windows" ==> r.Err? && r.error.ValueError?
  {
    if osName == "Linux" then
      if dataset == AllPrintings then Ok("tar.gz") else Ok("gz")
    else if osName == "Windows" then Ok("zip")
    else Err(ValueError("OS " + osName + " not supported."))
  }

  /** `_get_filename`: the dataset name, a dot, the extension. */
  function Filename(dataset: string, osName: string): (r: Result<string>)
    ensures r.Ok? <==> Extension(dataset, osName).Ok?
    ensures r.Ok? ==> r.value == dataset + "." + Extension(dataset, osName).value
  {
    match Extension(dataset, osName)
    case Ok(ext) => Ok(dataset + "." + ext)
    case Err(e) => Err(e)
  }

  /** One shell step of a fetch. */
  datatype Command =
    | Wget(dir: Path, url: string)                  // wget -P dir url
    | Untar(archive: Path, dir: Path)               // tar -xzf archive -C dir
    | Gunzip(archive: Path, target: Path)           // gunzip -c archive > target
    | Remove(archive: Path)                         // rm archive
    | DiskUsage(dir: Path)                          // du -sh dir
    | InvokeWebRequest(url: string, target: Path)   // PowerShell download
    | ExpandArchive(archive: Path, dir: Path)        // PowerShell unzip
    | RemoveItem(archive: Path)                     // PowerShell delete
    | MeasureSize(dir: Path)                        // PowerShell size in MB

  /** A file name holds no "tar" when it holds no 't' at all. */
  lemma NoTarWithoutT(s: string)
    requires 't' !in s
    ensures !Contains(s, "tar")
  {
    forall i | 0 <= i && i + 3 <= |s| ensures !OccursAt(s, "tar", i) {
      assert s[i..i + 3][0] == s[i];
    }
    ContainsAt(s, "tar");
  }

  lemma ParquetBundleHasTar()
    ensures Contains(AllPrintings + "." + "tar.gz", "tar")
  {
    var f := AllPrintings + "." + "tar.gz";
    assert f[25..28] == "tar";
    assert OccursAt(f, "tar", 25);
    ContainsAt(f, "tar");
  }

  lemma PriceFileHasNoTar()
    ensures !Contains(AllPrices + "." + "gz", "tar")
  {
    NoTarWithoutT(AllPrices + "." + "gz");
  }

  /** On Linux the downloaded archive's name holds "tar" exactly for the
      parquet bundle, so that is the one dataset unpacked with `tar`. */
  lemma TarExactlyForParquetBundle(dataset: string, saveRoot: Path)
    requires ValidateDataset(dataset).Pass?
    ensures var name := Name(Join(saveRoot, Filename(dataset, "Linux").value));
      Contains(name, "tar") <==> dataset == AllPrintings
  {
    var filename := Filename(dataset, "Linux").value;
    assert '/' !in filename;
    NameOfJoin(saveRoot, filename);
    if dataset == AllPrintings {
      ParquetBundleHasTar();
    } else {
      PriceFileHasNoTar();
    }
  }

  class MtgJsonFetcher {
    var dataset: string
    var saveRoot: Path
    var finalPath: Path
    var osName: string
    var filename: string
    var filepath: Path
    var apiUrl: string

    /** The relations `__init__` sets up between the fields. */
    predicate Valid()
      reads this
    {
      && ValidateDataset(dataset).Pass?
      && finalPath == Join(saveRoot, Stem(dataset))
      && Filename(dataset, osName) == Ok(filename)
      && filepath == Join(saveRoot, filename)
      && apiUrl == ApiRoot + filename
    }

    constructor Init(dataset: string, saveRoot: Path, osName: string, filename: string)
      requires ValidateDataset(dataset).Pass? && Filename(dataset, osName) == Ok(filename)
      ensures Valid()
      ensures this.dataset == dataset && this.saveRoot == saveRoot && this.osName == osName
    {
      this.dataset := dataset;
      this.saveRoot := saveRoot;
      this.finalPath := Join(saveRoot, Stem(dataset));
      this.osName := osName;
      this.filename := filename;
      this.filepath := Join(saveRoot, filename);
      this.apiUrl := ApiRoot + filename;
    }

    /** `__init__` on a machine whose `platform.system()` is `osName`, with the
        save root `data/raw/mtgjson` unless another is given: an unknown
        dataset fails before any directory is made; an unsupported system fails
        after the save root and the final directory have been made. */
    static method Create(dataset: string, osName: string, disk: Disk, saveRoot: string := DefaultSaveRoot)
      returns (r: Result<MtgJsonFetcher>)
      modifies disk
      ensures ValidateDataset(dataset).Fail? ==> r == Err(ValidateDataset(dataset).error) && unchanged(disk)
      ensures ValidateDataset(dataset).Pass? ==>
        && disk.dirs == old(disk.dirs) + Lineage(Path(saveRoot)) + Lineage(Join(Path(saveRoot), Stem(dataset)))
        && disk.files == old(disk.files) && disk.json == old(disk.json)
      ensures ValidateDataset(dataset).Pass? && Filename(dataset, osName).Err? ==> r == Err(Filename(dataset, osName).error)
      ensures ValidateDataset(dataset).Pass? && Filename(dataset, osName).Ok? ==>
        && r.Ok? && fresh(r.value) && r.value.Valid()
        && r.value.dataset == dataset && r.value.saveRoot == Path(saveRoot) && r.value.osName == osName
    {
      var root := Path(saveRoot);
      var check := ValidateDataset(dataset);
      if check.Fail? {
        return Err(check.error);
      }
      disk.MakeDir(root);
      disk.MakeDir(Join(root, Stem(dataset)));
      var name := Filename(dataset, osName);
      if name.Err? {
        return Err(name.error);
      }
      var f := new MtgJsonFetcher.Init(dataset, root, osName, name.value);
      r := Ok(f);
    }

    /** `fetch`: the shell steps for this system. On Linux the archive is
        unpacked with `tar` exactly for the parquet bundle and with `gunzip`
        into the final directory otherwise; on Windows it is expanded into the
        final directory. */
    method Fetch() returns (plan: seq<Command>)
      requires Valid()
      ensures |plan| == 4
      ensures plan[2] == (if osName == "Linux" then Remove(filepath) else RemoveItem(filepath))
      ensures osName == "Linux" ==>
        && plan[0] == Wget(saveRoot, ApiRoot + filename)
        && (plan[1].Untar? <==> dataset == AllPrintings)
        && (plan[1].Untar? ==> plan[1] == Untar(filepath, saveRoot))
        && (!plan[1].Untar? ==> plan[1] == Gunzip(filepath, Join(finalPath, dataset)))
        && plan[3] == DiskUsage(saveRoot)
      ensures osName == "Windows" ==>
        && plan[0] == InvokeWebRequest(ApiRoot + filename, filepath)
        && plan[1] == ExpandArchive(filepath, finalPath)
        && plan[3] == MeasureSize(saveRoot)
    {
      if osName == "Linux" {
        TarExactlyForParquetBundle(dataset, saveRoot);
        var unpack := if Contains(Name(filepath), "tar") then Untar(filepath, saveRoot)
                      else Gunzip(filepath, Join(finalPath, dataset));
        plan := [Wget(saveRoot, apiUrl), unpack, Remove(filepath), DiskUsage(saveRoot)];
      } else {
        plan := [InvokeWebRequest(apiUrl, filepath), ExpandArchive(filepath, finalPath),
                 RemoveItem(filepath), MeasureSize(saveRoot)];
      }
    }
  }
}
