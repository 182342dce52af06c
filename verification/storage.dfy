/** The file system as the wranglers and the fetcher see it: parquet files
    holding tables, JSON files holding raw price records, and directories. */
module Storage {
  import opened Frames
  import opened Paths

  class Disk {
    /** Parquet files by path. */
    var files: map<Path, Table>
    /** JSON files by path, each as the records `pandas.read_json` makes of it. */
    var json: map<Path, seq<RawRecord>>
    /** Directories that exist. */
    var dirs: set<Path>

    constructor (files: map<Path, Table>, json: map<Path, seq<RawRecord>>, dirs: set<Path>)
      ensures this.files == files && this.json == json && this.dirs == dirs
    {
      this.files := files;
      this.json := json;
      this.dirs := dirs;
    }

    /** `mkdir(parents=True, exist_ok=True)` and `os.makedirs(exist_ok=True)`:
        `p` and every missing parent exist afterwards, and directories that
        already existed are left alone. */
    method MakeDir(p: Path)
      modifies this
      ensures dirs == old(dirs) + Lineage(p)
      ensures p.s != "" && p.s != "/" ==> p in dirs
      ensures files == old(files) && json == old(json)
    {
      LineageSpec(p);
      dirs := dirs + Lineage(p);
    }

    /** `to_parquet` / `write_parquet`: replaces any file at `p`. */
    method Write(p: Path, t: Table)
      modifies this
      ensures files == old(files)[p := t]
      ensures json == old(json) && dirs == old(dirs)
    {
      files := files[p := t];
    }
  }
}
