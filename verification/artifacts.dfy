/** The on-disk layout of saved models: one directory per (model name,
    normalised ticker) under a base directory, a `metadata.json` key-value
    file inside it, and the listing of trained-model directories. The file
    system is an immutable map from path to file contents. */
module Artifacts {
  import opened Wrappers
  import opened Tickers

  /** `posixpath.join(dir, name)` for two components: an absolute `name`
      replaces `dir`; an empty `dir` or one ending in `/` is concatenated
      directly; otherwise a single `/` is inserted. */
  function Join(dir: string, name: string): (r: string)
    ensures |name| <= |r| && r[|r| - |name|..] == name
    ensures (|name| == 0 || name[0] != '/') ==> |dir| <= |r| && r[..|dir|] == dir
  {
    if |name| > 0 && name[0] == '/' then name
    else if |dir| == 0 || dir[|dir| - 1] == '/' then dir + name
    else dir + "/" + name
  }

  /** A directory name that `Join` extends with exactly one separator. */
  predicate PlainDir(dir: string)
  {
    |dir| > 0 && dir[|dir| - 1] != '/'
  }

  /** A path segment without separators: a model name such as `lstm`. */
  predicate Segment(name: string)
  {
    |name| > 0 && '/' !in name
  }

  /** `get_model_path`: `base / model_name / ticker`, where the ticker has
      every `^` removed and every `/` replaced by `_`. */
  function ModelDir(base: string, modelName: string, ticker: string): (r: string)
    ensures var t := Normalize(ticker); |t| <= |r| && r[|r| - |t|..] == t
    ensures var d := Join(base, modelName); |d| <= |r| && r[..|d|] == d
  {
    var t := Normalize(ticker);
    assert |t| == 0 || t[0] != '/' by {
      if |t| > 0 { assert t[0] in t; }
    }
    Join(Join(base, modelName), t)
  }

  /** Joining a relative name onto a plain directory inserts one `/`. */
  lemma JoinPlain(dir: string, name: string)
    requires PlainDir(dir) && (|name| == 0 || name[0] != '/')
    ensures Join(dir, name) == dir + "/" + name
  {
  }

  /** Joining a relative name onto a directory ending in `/` concatenates. */
  lemma JoinAfterSlash(dir: string, name: string)
    requires |dir| > 0 && dir[|dir| - 1] == '/' && (|name| == 0 || name[0] != '/')
    ensures Join(dir, name) == dir + name
  {
  }

  lemma SegmentIsRelative(name: string)
    requires '/' !in name
    ensures |name| == 0 || name[0] != '/'
    ensures |name| == 0 || name[|name| - 1] != '/'
  {
    if |name| > 0 {
      assert name[0] in name;
      assert name[|name| - 1] in name;
    }
  }

  lemma LastOfAppend(a: string, b: string)
    requires |b| > 0
    ensures (a + b)[|a + b| - 1] == b[|b| - 1]
  {
  }

  /** With a plain base and a separator-free model name the directory is the
      three parts joined by `/`; an empty normalised ticker leaves a trailing
      `/`. */
  lemma ModelDirShape(base: string, modelName: string, ticker: string)
    requires PlainDir(base) && Segment(modelName)
    ensures ModelDir(base, modelName, ticker) == base + "/" + modelName + "/" + Normalize(ticker)
  {
    SegmentIsRelative(modelName);
    JoinPlain(base, modelName);
    var d := base + "/" + modelName;
    LastOfAppend(base + "/", modelName);
    var n := Normalize(ticker);
    SegmentIsRelative(n);
    JoinPlain(d, n);
  }

  /** Two tickers share a directory under the same model exactly when they
      normalise to the same name (`^GSPC` and `GSPC` do). */
  lemma SameDirIffSameNormalForm(base: string, modelName: string, t1: string, t2: string)
    requires PlainDir(base) && Segment(modelName)
    ensures ModelDir(base, modelName, t1) == ModelDir(base, modelName, t2) <==> Normalize(t1) == Normalize(t2)
  {
    ModelDirShape(base, modelName, t1);
    ModelDirShape(base, modelName, t2);
    var prefix := base + "/" + modelName + "/";
    var d1 := prefix + Normalize(t1);
    var d2 := prefix + Normalize(t2);
    if d1 == d2 {
      assert Normalize(t1) == d1[|prefix|..];
      assert Normalize(t2) == d2[|prefix|..];
    }
  }

  /** The model name is a path segment of its own, so the same ticker under
      two different model names lands in two different directories. */
  lemma DistinctModelsDistinctDirs(base: string, m1: string, m2: string, ticker: string)
    requires PlainDir(base) && Segment(m1) && Segment(m2) && m1 != m2
    ensures ModelDir(base, m1, ticker) != ModelDir(base, m2, ticker)
  {
    ModelDirShape(base, m1, ticker);
    ModelDirShape(base, m2, ticker);
  }

  /** Different file names in one directory are different paths. */
  lemma JoinDistinctNames(dir: string, a: string, b: string)
    requires Segment(a) && Segment(b) && a != b
    ensures Join(dir, a) != Join(dir, b)
  {
    SegmentIsRelative(a);
    SegmentIsRelative(b);
    if Join(dir, a) == Join(dir, b) {
      if |dir| == 0 || dir[|dir| - 1] == '/' {
        PrefixCancel(dir, a, b);
      } else {
        PrefixCancel(dir + "/", a, b);
      }
    }
  }

  /** A value in a metadata file: the JSON values the trainers write. */
  datatype MetaValue =
    | Text(text: string)
    | Integer(integer: int)
    | Decimal(decimal: real)
    | Items(items: seq<MetaValue>)
    | Object(fields: map<string, MetaValue>)

  type Metadata = map<string, MetaValue>

  /** What a path holds: a JSON file that parses, a pickled frame of rows,
      or any other content (a model, a scaler, a file that is not valid JSON). */
  datatype File = MetadataFile(metadata: Metadata) | FrameFile(rows: seq<seq<real>>) | OtherFile(tag: string)

  type Store = map<string, File>

  const MetadataName := "metadata.json"
  const LastUpdated := "last_updated"

  function MetadataPath(base: string, modelName: string, ticker: string): string
  {
    Join(ModelDir(base, modelName, ticker), MetadataName)
  }

  /** The metadata path as a fixed prefix followed by a part that depends on
      the normalised ticker only. */
  function MetadataTail(n: string): string
  {
    if |n| == 0 then MetadataName else n + "/" + MetadataName
  }

  lemma JoinMetadataName(prefix: string, n: string)
    requires |prefix| > 0 && prefix[|prefix| - 1] == '/' && '/' !in n
    ensures Join(prefix + n, MetadataName) == prefix + MetadataTail(n)
  {
    SegmentIsRelative(n);
    assert MetadataName[0] == 'm';
    if |n| > 0 {
      LastOfAppend(prefix, n);
      JoinPlain(prefix + n, MetadataName);
      assert prefix + n + "/" + MetadataName == prefix + (n + "/" + MetadataName);
    } else {
      assert prefix + n == prefix;
      JoinAfterSlash(prefix, MetadataName);
    }
  }

  lemma MetadataPathShape(base: string, modelName: string, ticker: string)
    requires PlainDir(base) && Segment(modelName)
    ensures MetadataPath(base, modelName, ticker) == base + "/" + modelName + "/" + MetadataTail(Normalize(ticker))
  {
    ModelDirShape(base, modelName, ticker);
    var prefix := base + "/" + modelName + "/";
    JoinMetadataName(prefix, Normalize(ticker));
  }

  lemma MetadataTailInjective(n1: string, n2: string)
    requires MetadataTail(n1) == MetadataTail(n2)
    ensures n1 == n2
  {
    if |n1| > 0 && |n2| > 0 {
      assert n1 == MetadataTail(n1)[..|n1|];
      assert n2 == MetadataTail(n2)[..|n2|];
    }
  }

  lemma PrefixCancel(prefix: string, a: string, b: string)
    requires prefix + a == prefix + b
    ensures a == b
  {
    assert a == (prefix + a)[|prefix|..];
    assert b == (prefix + b)[|prefix|..];
  }

  /** Different normalised tickers never share a metadata file. */
  lemma MetadataPathsDiffer(base: string, modelName: string, t1: string, t2: string)
    requires PlainDir(base) && Segment(modelName)
    requires Normalize(t1) != Normalize(t2)
    ensures MetadataPath(base, modelName, t1) != MetadataPath(base, modelName, t2)
  {
    MetadataPathShape(base, modelName, t1);
    MetadataPathShape(base, modelName, t2);
    var prefix := base + "/" + modelName + "/";
    var tail1, tail2 := MetadataTail(Normalize(t1)), MetadataTail(Normalize(t2));
    if prefix + tail1 == prefix + tail2 {
      PrefixCancel(prefix, tail1, tail2);
      MetadataTailInjective(Normalize(t1), Normalize(t2));
    }
  }

  /** `save_metadata`: the dict gains (or overwrites) `last_updated` with
      the current time, and the whole dict replaces the ticker's metadata
      file. The clock reading `now` is a parameter. */
  function SaveMetadata(store: Store, base: string, modelName: string, ticker: string, metadata: Metadata, now: string)
    : (r: (Store, Metadata))
    ensures r.1.Keys == metadata.Keys + {LastUpdated}
    ensures r.1[LastUpdated] == Text(now)
    ensures forall k :: k in metadata && k != LastUpdated ==> r.1[k] == metadata[k]
    ensures r.0.Keys == store.Keys + {MetadataPath(base, modelName, ticker)}
  {
    var saved := metadata[LastUpdated := Text(now)];
    (store[MetadataPath(base, modelName, ticker) := MetadataFile(saved)], saved)
  }

  /** `load_metadata`: a missing file reads as the empty dict; a file that
      does not parse as JSON raises (a `ValueError`). */
  function LoadMetadata(store: Store, base: string, modelName: string, ticker: string): (r: Result<Metadata>)
    ensures MetadataPath(base, modelName, ticker) !in store ==> r == Ok(map[])
    ensures r.Err? ==> r.error.ValueError?
  {
    var path := MetadataPath(base, modelName, ticker);
    if path !in store then Ok(map[])
    else match store[path]
      case MetadataFile(md) => Ok(md)
      case _ => Err(ValueError("metadata is not valid JSON"))
  }

  /** Loading after saving returns the saved dict, `last_updated` included. */
  lemma SaveThenLoad(store: Store, base: string, modelName: string, ticker: string, metadata: Metadata, now: string)
    ensures var (store', saved) := SaveMetadata(store, base, modelName, ticker, metadata, now);
      LoadMetadata(store', base, modelName, ticker) == Ok(saved)
  {
  }

  /** Saving one ticker's metadata leaves every other ticker's metadata as it
      was, under the same model name. */
  lemma SaveLeavesOtherTickers(store: Store, base: string, modelName: string, ticker: string, other: string,
                               metadata: Metadata, now: string)
    requires PlainDir(base) && Segment(modelName)
    requires Normalize(ticker) != Normalize(other)
    ensures LoadMetadata(SaveMetadata(store, base, modelName, ticker, metadata, now).0, base, modelName, other)
         == LoadMetadata(store, base, modelName, other)
  {
    MetadataPathsDiffer(base, modelName, ticker, other);
  }

  /** Saving twice keeps only the second dict and timestamp. */
  lemma SaveOverwrites(store: Store, base: string, modelName: string, ticker: string,
                       first: Metadata, second: Metadata, t1: string, t2: string)
    ensures var s1 := SaveMetadata(store, base, modelName, ticker, first, t1).0;
      LoadMetadata(SaveMetadata(s1, base, modelName, ticker, second, t2).0, base, modelName, ticker)
      == Ok(second[LastUpdated := Text(t2)])
  {
  }

  /** One entry of `os.listdir`, with whether `os.path.isdir` holds for it. */
  datatype Entry = Entry(name: string, isDir: bool)

  /** Some entry of the listing is a directory called `name`. */
  predicate ListsDirectory(entries: seq<Entry>, name: string)
  {
    exists j :: 0 <= j < |entries| && entries[j].isDir && entries[j].name == name
  }

  /** `list_trained_models`: the names of the directory entries that are
      themselves directories, in listing order. */
  function ListTrainedModels(entries: seq<Entry>): (r: seq<string>)
    ensures |r| <= |entries|
    ensures forall i :: 0 <= i < |entries| && entries[i].isDir ==> entries[i].name in r
    ensures forall i :: 0 <= i < |r| ==> ListsDirectory(entries, r[i])
  {
    if |entries| == 0 then []
    else
      var rest := ListTrainedModels(entries[1..]);
      forall i | 0 <= i < |rest|
        ensures ListsDirectory(entries, rest[i])
      {
        var j :| 0 <= j < |entries[1..]| && entries[1..][j].isDir && entries[1..][j].name == rest[i];
        assert entries[j + 1] == entries[1..][j];
        assert 0 <= j + 1 < |entries| && entries[j + 1].isDir && entries[j + 1].name == rest[i];
      }
      if entries[0].isDir then [entries[0].name] + rest else rest
  }

  /** A listing with no sub-directories yields no models. */
  lemma {:induction false} NoDirectoriesNoModels(entries: seq<Entry>)
    requires forall i :: 0 <= i < |entries| ==> !entries[i].isDir
    ensures ListTrainedModels(entries) == []
  {
    if |entries| > 0 {
      NoDirectoriesNoModels(entries[1..]);
    }
  }
}
