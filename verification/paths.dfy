/** pathlib paths as the modelled code uses them (`Path(x)`, `dir / name`,
    `.name`, `.stem`), and the configuration check that both price wranglers
    run over their `paths` dictionary. */
module Paths {
  import opened Base
  import opened Text

  /** A file-system path, held as the text pathlib prints for it. */
  datatype Path = Path(s: string)

  /** A value of a `paths` dictionary: either a string or a path object. */
  datatype PathLike = PathStr(s: string) | PathObj(p: Path)

  /** `Path(v)`: a string becomes a path; a path stays itself. */
  function ToPath(v: PathLike): (p: Path)
    ensures v.PathObj? ==> p == v.p
    ensures v.PathStr? ==> p.s == v.s
  {
    match v
    case PathStr(s) => Path(s)
    case PathObj(p) => p
  }

  /** `dir / name`: an absolute name replaces the directory, an empty one adds
      nothing, and the root directory takes the name without a second separator. */
  function Join(dir: Path, name: string): (p: Path)
    ensures StartsWith(name, "/") ==> p == Path(name)
    ensures name == "" ==> p == dir
    ensures name != "" && !StartsWith(name, "/") && dir.s == "" ==> p == Path(name)
    ensures name != "" && !StartsWith(name, "/") && dir.s != "" && dir.s != "/" ==> p.s == dir.s + "/" + name
    ensures name != "" && !StartsWith(name, "/") && dir.s == "/" ==> p.s == "/" + name
  {
    if StartsWith(name, "/") then Path(name)
    else if name == "" then dir
    else if dir.s == "" then Path(name)
    else if dir.s == "/" then Path("/" + name)
    else Path(dir.s + "/" + name)
  }

  /** `p.name`: the last component. */
  function Name(p: Path): string
  {
    var parts := SplitOn(p.s, '/');
    parts[|parts| - 1]
  }

  /** The name of a path is the text after its last separator, or the whole
      path when it has none. */
  lemma NameAfterLastSeparator(p: Path)
    ensures Name(p) == p.s[LastIndexOf(p.s, '/') + 1..]
  {
    var i := LastIndexOf(p.s, '/');
    if i < 0 {
      SplitSepFree(p.s, '/');
    } else {
      assert p.s == p.s[..i] + (['/'] + p.s[i + 1..]);
      SplitLast(p.s[..i], p.s[i + 1..], '/');
      SplitSepFree(p.s[i + 1..], '/');
    }
  }

  /** Joining a directory with a bare file name gives a path whose name is that file name. */
  lemma NameOfJoin(dir: Path, name: string)
    requires name != "" && '/' !in name
    ensures Name(Join(dir, name)) == name
  {
    assert name[..1] != "/" by { assert name[0] != '/'; }
    var s := Join(dir, name).s;
    NameAfterLastSeparator(Join(dir, name));
    assert s[|s| - |name|..] == name;
    var i := LastIndexOf(s, '/');
    if dir.s != "" {
      assert s[|s| - |name| - 1] == '/';
    } else {
      assert s == name;
    }
    assert i == |s| - |name| - 1;
  }

  lemma {:induction false} SplitLast(p: string, t: string, sep: char)
    ensures var parts := SplitOn(p + ([sep] + t), sep);
      |parts| >= 2 && parts[|parts| - 1] == SplitOn(t, sep)[|SplitOn(t, sep)| - 1]
  {
    if p == [] {
      assert p + ([sep] + t) == [sep] + t;
      assert ([sep] + t)[1..] == t;
    } else {
      assert (p + ([sep] + t))[1..] == p[1..] + ([sep] + t);
      SplitLast(p[1..], t, sep);
    }
  }

  /** The index of the last occurrence of `c` in `s`, or -1 (`str.rfind`). */
  function LastIndexOf(s: string, c: char): (i: int)
    ensures -1 <= i < |s|
    ensures i >= 0 ==> s[i] == c
    ensures forall k :: i < k < |s| ==> s[k] != c
  {
    if s == [] then -1
    else if s[|s| - 1] == c then |s| - 1
    else LastIndexOf(s[..|s| - 1], c)
  }

  /** `p.parent`: everything before the last separator; the root for a
      top-level entry, and the empty (current-directory) path for a bare name. */
  function Parent(p: Path): Path
  {
    var i := LastIndexOf(p.s, '/');
    if i < 0 then Path("") else if i == 0 then Path("/") else Path(p.s[..i])
  }

  /** The directories `makedirs` creates for `p`: `p` and each of its parents
      in turn, stopping before the root and the current directory, which
      always exist. */
  function Lineage(p: Path): set<Path>
    decreases |p.s|
  {
    if p.s == "" || p.s == "/" then {}
    else
      assert |Parent(p).s| < |p.s|;
      {p} + Lineage(Parent(p))
  }

  /** A path other than the root and the current directory is in its own
      lineage; every member is a leading part of the path, and the parent of
      every member is a member too, unless it is the root or the current
      directory. */
  lemma {:induction false} LineageSpec(p: Path)
    ensures p.s != "" && p.s != "/" ==> p in Lineage(p)
    ensures forall q :: q in Lineage(p) ==> q.s <= p.s && q.s != "" && q.s != "/"
    ensures forall q :: q in Lineage(p) && Parent(q).s != "" && Parent(q).s != "/" ==> Parent(q) in Lineage(p)
    decreases |p.s|
  {
    if p.s != "" && p.s != "/" {
      var up := Parent(p);
      assert |up.s| < |p.s|;
      LineageSpec(up);
      assert up.s <= p.s;
    }
  }

  /** The parent of a file joined onto a directory is that directory. */
  lemma ParentOfJoin(dir: Path, name: string)
    requires name != "" && '/' !in name
    ensures Parent(Join(dir, name)) == dir
  {
    assert name[..1] != "/" by { assert name[0] != '/'; }
    var s := Join(dir, name).s;
    if dir.s == "/" {
      assert s == "/" + name;
      assert s[1..] == name;
      assert LastIndexOf(s, '/') == 0;
    } else if dir.s != "" {
      assert s == dir.s + "/" + name;
      var i := LastIndexOf(s, '/');
      assert s[|dir.s|] == '/';
      assert i == |dir.s|;
      assert s[..i] == dir.s;
    } else {
      assert LastIndexOf(name, '/') == -1;
    }
  }

  /** A path is its parent joined with its name (`p.parent / p.name == p`), for
      a path that has a name and does not start with two separators. */
  lemma JoinParentName(p: Path)
    requires Name(p) != "" && !StartsWith(p.s, "//")
    ensures Join(Parent(p), Name(p)) == p
  {
    var i := LastIndexOf(p.s, '/');
    var name := Name(p);
    NameAfterLastSeparator(p);
    assert '/' !in name;
    assert !StartsWith(name, "/") by { assert name[0] != '/'; }
    if i < 0 {
      assert name == p.s;
    } else if i == 0 {
      assert p.s == "/" + name;
    } else {
      assert p.s[..i] != "/" by {
        if i == 1 { assert p.s[..2] == [p.s[0], '/']; }
      }
      assert p.s == p.s[..i] + "/" + name;
    }
  }

  /** pathlib's `stem` of a file name: the name without its last suffix, where
      a suffix starts at a dot that is neither the first nor the last character. */
  function Stem(name: string): (stem: string)
    ensures |stem| <= |name| && stem == name[..|stem|]
    ensures stem != name ==>
      (0 < |stem| < |name| - 1 && name[|stem|] == '.' && forall k :: |stem| < k < |name| ==> name[k] != '.')
    ensures stem == name ==> (forall k :: 0 < k < |name| - 1 && name[k] == '.' ==> name[|name| - 1] == '.')
  {
    var i := LastIndexOf(name, '.');
    if 0 < i < |name| - 1 then name[..i] else name
  }

  // ---------------------------------------------------------------------------
  // The key check and path conversion of `_validate_paths`.
  // ---------------------------------------------------------------------------

  /** `keys[i]` is absent from `paths` and every key before it is present. */
  predicate FirstMissingAt(paths: map<string, PathLike>, keys: seq<string>, i: int)
  {
    0 <= i < |keys| && keys[i] !in paths && forall j :: 0 <= j < i ==> keys[j] in paths
  }

  /** The first of `keys` that `paths` lacks, if any: the key the check raises `KeyError` for. */
  function FirstMissing(paths: map<string, PathLike>, keys: seq<string>): (r: Option<string>)
    ensures r.None? <==> forall k :: k in keys ==> k in paths
    ensures r.Some? ==> exists i :: FirstMissingAt(paths, keys, i) && keys[i] == r.value
  {
    if keys == [] then None
    else if keys[0] !in paths then
      assert FirstMissingAt(paths, keys, 0);
      Some(keys[0])
    else
      var r := FirstMissing(paths, keys[1..]);
      assert keys == [keys[0]] + keys[1..];
      if r.Some? then
        var i :| FirstMissingAt(paths, keys[1..], i) && keys[1..][i] == r.value;
        assert FirstMissingAt(paths, keys, i + 1);
        r
      else r
  }

  /** One step of the search from position `i`. */
  lemma FirstMissingFrom(paths: map<string, PathLike>, keys: seq<string>, i: int)
    requires 0 <= i < |keys|
    ensures FirstMissing(paths, keys[i..]) ==
      if keys[i] !in paths then Some(keys[i]) else FirstMissing(paths, keys[i + 1..])
  {
    assert keys[i..][0] == keys[i];
    assert keys[i..][1..] == keys[i + 1..];
  }

  /** The validation loop: walks the expected keys in order and stops at the
      first one the mapping lacks, the key `KeyError` is raised for. */
  method FindMissingKey(paths: map<string, PathLike>, keys: seq<string>) returns (missing: Option<string>)
    ensures missing == FirstMissing(paths, keys)
  {
    var i := 0;
    while i < |keys|
      invariant 0 <= i <= |keys|
      invariant FirstMissing(paths, keys) == FirstMissing(paths, keys[i..])
    {
      FirstMissingFrom(paths, keys, i);
      if keys[i] !in paths {
        return Some(keys[i]);
      }
      i := i + 1;
    }
    missing := None;
  }

  /** The conversion loop: replaces the value of each expected key by a path
      object built from it, leaving every other key as it was. */
  method CastToPaths(paths: map<string, PathLike>, keys: seq<string>) returns (cast: map<string, PathLike>)
    requires forall k :: k in keys ==> k in paths
    ensures cast.Keys == paths.Keys
    ensures forall k :: k in keys ==> cast[k] == PathObj(ToPath(paths[k]))
    ensures forall k :: k in paths && k !in keys ==> cast[k] == paths[k]
  {
    cast := paths;
    var i := 0;
    while i < |keys|
      invariant 0 <= i <= |keys|
      invariant cast.Keys == paths.Keys
      invariant forall k :: k in keys[..i] ==> cast[k] == PathObj(ToPath(paths[k]))
      invariant forall k :: k in paths && k !in keys[..i] ==> cast[k] == paths[k]
    {
      assert keys[..i + 1] == keys[..i] + [keys[i]];
      cast := cast[keys[i] := PathObj(ToPath(cast[keys[i]]))];
      i := i + 1;
    }
    assert keys[..i] == keys;
  }
}
