/** embed.go: listing the JSON task files of an embedded directory tree,
    and loading a task configuration with the caller's overrides merged in. */
module Embed {
  import opened Wrappers
  import opened GoStrings
  import opened Common
  import Maps
  import Json

  // ---------------------------------------------------------------------
  // Listing task files
  // ---------------------------------------------------------------------

  /** A directory entry as fs.ReadDir reports it; a directory carries what
      reading it yields. */
  datatype Entry = File(name: string) | Dir(name: string, listing: Listing)

  /** The outcome of reading one directory: its entries in ReadDir order,
      or the error ReadDir returned. */
  datatype Listing = Readable(entries: seq<Entry>) | Unreadable(error: string)

  /** The path of an entry named `name` in the directory `subDir`, relative
      to the listed root: no prefix and no leading `/` at the top level. */
  function SubPath(subDir: string, name: string): (p: string)
    ensures subDir == "" ==> p == name
    ensures subDir != "" ==> p == subDir + "/" + name
  {
    Ternary(subDir == "", name, subDir + "/" + name)
  }

  /** fnListJsonTasks over the entries of the directory `subDir`: each
      directory is listed recursively, whatever its name, and its names are
      spliced in at its position; each file whose name ends in `.json`
      contributes its path without that suffix; other files contribute
      nothing. The first unreadable directory aborts the whole listing. */
  function ListEntries(entries: seq<Entry>, subDir: string): Result<seq<string>, string>
    decreases entries
  {
    if |entries| == 0 then Ok([])
    else
      var subPath := SubPath(subDir, entries[0].name);
      var here: Result<seq<string>, string> :=
        match entries[0]
        case Dir(_, listing) =>
          if listing.Unreadable? then Err(listing.error) else ListEntries(listing.entries, subPath)
        case File(name) =>
          if HasSuffix(name, ".json") then Ok([TrimSuffix(subPath, ".json")]) else Ok([]);
      match here
      case Err(e) => Err(e)
      case Ok(names) =>
        match ListEntries(entries[1..], subDir)
        case Err(e) => Err(e)
        case Ok(more) => Ok(names + more)
  }

  /** ListJsonTasks: the task names under the root directory. */
  function ListJsonTasks(root: Listing): Result<seq<string>, string>
  {
    match root
    case Unreadable(e) => Err(e)
    case Readable(entries) => ListEntries(entries, "")
  }

  /** Concatenates two listings, passing the first error on. */
  function Splice(a: Result<seq<string>, string>, b: Result<seq<string>, string>): Result<seq<string>, string>
  {
    match a
    case Err(e) => Err(e)
    case Ok(x) =>
      match b
      case Err(e) => Err(e)
      case Ok(y) => Ok(x + y)
  }

  /** Listing a sequence of entries lists each part in turn: results keep
      the entry order and the earlier error wins. */
  lemma {:induction false} ListEntriesAppend(a: seq<Entry>, b: seq<Entry>, subDir: string)
    ensures ListEntries(a + b, subDir) == Splice(ListEntries(a, subDir), ListEntries(b, subDir))
    decreases |a|
  {
    if |a| == 0 {
      assert a + b == b;
      match ListEntries(b, subDir)
      case Err(e) =>
      case Ok(y) => assert [] + y == y;
    } else {
      assert (a + b)[0] == a[0];
      assert (a + b)[1..] == a[1..] + b;
      ListEntriesAppend(a[1..], b, subDir);
      match ListEntries(a[1..], subDir)
      case Err(e) =>
      case Ok(x) =>
        match ListEntries(b, subDir)
        case Err(e) =>
        case Ok(y) =>
          forall names: seq<string> ensures names + (x + y) == (names + x) + y { }
    }
  }

  /** Some directory reachable through readable directories cannot be read. */
  ghost predicate SomeUnreadable(entries: seq<Entry>)
    decreases entries
  {
    exists i :: 0 <= i < |entries| && entries[i].Dir? &&
      (entries[i].listing.Unreadable? || SomeUnreadable(entries[i].listing.entries))
  }

  /** `comps` names, component by component, a file ending in `.json`
      reached through readable directories. */
  ghost predicate JsonFileAt(entries: seq<Entry>, comps: seq<string>)
    decreases |comps|, 1
  {
    exists i :: 0 <= i < |entries| && JsonFileUnder(entries[i], comps)
  }

  /** `comps` starts with the name of `e` and leads through it to a `.json` file. */
  ghost predicate JsonFileUnder(e: Entry, comps: seq<string>)
    decreases |comps|, 0
  {
    && |comps| >= 1
    && e.name == comps[0]
    && if |comps| == 1 then
         e.File? && HasSuffix(comps[0], ".json")
       else
         e.Dir? && e.listing.Readable? && JsonFileAt(e.listing.entries, comps[1..])
  }

  /** The path fnListJsonTasks builds for the components `comps` below `subDir`. */
  function PathOf(subDir: string, comps: seq<string>): string
    decreases |comps|
  {
    if |comps| == 0 then subDir else PathOf(SubPath(subDir, comps[0]), comps[1..])
  }

  /** The task name of the file at `comps`: its path with `.json` removed. */
  function TaskName(subDir: string, comps: seq<string>): string
  {
    TrimSuffix(PathOf(subDir, comps), ".json")
  }

  /** The listing fails exactly when some reachable directory is unreadable. */
  lemma {:induction false} ListEntriesFails(entries: seq<Entry>, subDir: string)
    ensures ListEntries(entries, subDir).Err? <==> SomeUnreadable(entries)
    decreases entries
  {
    if |entries| > 0 {
      var e := entries[0];
      ListEntriesFails(entries[1..], subDir);
      if e.Dir? && e.listing.Readable? {
        ListEntriesFails(e.listing.entries, SubPath(subDir, e.name));
      }
      if SomeUnreadable(entries[1..]) {
        var i :| 0 <= i < |entries[1..]| && entries[1..][i].Dir? &&
          (entries[1..][i].listing.Unreadable? || SomeUnreadable(entries[1..][i].listing.entries));
        assert entries[i + 1] == entries[1..][i];
      }
      if SomeUnreadable(entries) {
        var i :| 0 <= i < |entries| && entries[i].Dir? &&
          (entries[i].listing.Unreadable? || SomeUnreadable(entries[i].listing.entries));
        if i > 0 {
          assert entries[1..][i - 1] == entries[i];
        }
      }
    }
  }

  /** Every listed name is the task name of a `.json` file in the tree. */
  lemma {:induction false} ListEntriesSound(entries: seq<Entry>, subDir: string)
    requires ListEntries(entries, subDir).Ok?
    ensures forall t :: t in ListEntries(entries, subDir).value ==>
      exists comps :: JsonFileAt(entries, comps) && t == TaskName(subDir, comps)
    decreases entries
  {
    if |entries| > 0 {
      var e := entries[0];
      var subPath := SubPath(subDir, e.name);
      ListEntriesAppend([e], entries[1..], subDir);
      assert [e] + entries[1..] == entries;
      ListEntriesSound(entries[1..], subDir);
      SoundHead(e, subDir);
      var head := ListEntries([e], subDir).value;
      var more := ListEntries(entries[1..], subDir).value;
      assert ListEntries(entries, subDir).value == head + more;
      forall t | t in head + more
        ensures exists comps :: JsonFileAt(entries, comps) && t == TaskName(subDir, comps)
      {
        if t in head {
          var comps :| JsonFileUnder(e, comps) && t == TaskName(subDir, comps);
          assert JsonFileAt(entries, comps) by {
            assert JsonFileUnder(entries[0], comps);
          }
        } else {
          var comps :| JsonFileAt(entries[1..], comps) && t == TaskName(subDir, comps);
          ShiftJsonFileAt(entries, comps);
        }
      }
    }
  }

  /** The names one entry contributes are task names of files under it. */
  lemma {:induction false} SoundHead(e: Entry, subDir: string)
    requires ListEntries([e], subDir).Ok?
    ensures forall t :: t in ListEntries([e], subDir).value ==>
      exists comps :: JsonFileUnder(e, comps) && t == TaskName(subDir, comps)
    decreases e
  {
    var subPath := SubPath(subDir, e.name);
    assert [e][1..] == [];
    forall t | t in ListEntries([e], subDir).value
      ensures exists comps :: JsonFileUnder(e, comps) && t == TaskName(subDir, comps)
    {
      if e.Dir? {
        assert ListEntries([e], subDir).value == ListEntries(e.listing.entries, subPath).value + [];
        ListEntriesSound(e.listing.entries, subPath);
        var inner :| JsonFileAt(e.listing.entries, inner) && t == TaskName(subPath, inner);
        var comps := [e.name] + inner;
        assert comps[1..] == inner;
        assert JsonFileUnder(e, comps);
        assert t == TaskName(subDir, comps);
      } else {
        var comps := [e.name];
        assert comps[1..] == [];
        assert HasSuffix(e.name, ".json");
        assert ListEntries([e], subDir).value == [TrimSuffix(subPath, ".json")] + [];
        assert PathOf(subDir, comps) == PathOf(subPath, []) == subPath;
        assert JsonFileUnder(e, comps);
        assert t == TaskName(subDir, comps);
      }
    }
  }

  lemma ShiftJsonFileAt(entries: seq<Entry>, comps: seq<string>)
    requires |entries| > 0 && JsonFileAt(entries[1..], comps)
    ensures JsonFileAt(entries, comps)
  {
    var i :| 0 <= i < |entries[1..]| && JsonFileUnder(entries[1..][i], comps);
    assert entries[i + 1] == entries[1..][i];
  }

  /** Every `.json` file in the tree is listed under its task name. */
  lemma {:induction false} ListEntriesComplete(entries: seq<Entry>, subDir: string, comps: seq<string>)
    requires ListEntries(entries, subDir).Ok?
    requires JsonFileAt(entries, comps)
    ensures TaskName(subDir, comps) in ListEntries(entries, subDir).value
    decreases entries
  {
    var i :| 0 <= i < |entries| && JsonFileUnder(entries[i], comps);
    var e := entries[0];
    ListEntriesAppend([e], entries[1..], subDir);
    assert [e] + entries[1..] == entries;
    var head := ListEntries([e], subDir).value;
    var more := ListEntries(entries[1..], subDir).value;
    assert ListEntries(entries, subDir).value == head + more;
    if i == 0 {
      CompleteHead(e, subDir, comps);
    } else {
      assert entries[1..][i - 1] == entries[i];
      assert JsonFileAt(entries[1..], comps);
      ListEntriesComplete(entries[1..], subDir, comps);
    }
  }

  /** A file under one entry is among the names that entry contributes. */
  lemma {:induction false} CompleteHead(e: Entry, subDir: string, comps: seq<string>)
    requires ListEntries([e], subDir).Ok?
    requires JsonFileUnder(e, comps)
    ensures TaskName(subDir, comps) in ListEntries([e], subDir).value
    decreases e
  {
    var subPath := SubPath(subDir, e.name);
    assert [e][1..] == [];
    if |comps| == 1 {
      assert comps[1..] == [];
      assert PathOf(subDir, comps) == PathOf(subPath, []) == subPath;
      assert ListEntries([e], subDir).value == [TrimSuffix(subPath, ".json")] + [];
    } else {
      assert ListEntries([e], subDir).value == ListEntries(e.listing.entries, subPath).value + [];
      ListEntriesComplete(e.listing.entries, subPath, comps[1..]);
      assert TaskName(subDir, comps) == TaskName(subPath, comps[1..]);
    }
  }

  /** With non-empty names, the path of the components below the root is
      the components joined with `/`. */
  lemma {:induction false} PathOfJoins(subDir: string, comps: seq<string>)
    requires |comps| >= 1
    requires forall i :: 0 <= i < |comps| ==> comps[i] != ""
    ensures subDir == "" ==> PathOf(subDir, comps) == Join(comps, '/')
    ensures subDir != "" ==> PathOf(subDir, comps) == subDir + "/" + Join(comps, '/')
    decreases |comps|
  {
    if |comps| > 1 {
      var next := SubPath(subDir, comps[0]);
      assert next != "";
      PathOfJoins(next, comps[1..]);
      if subDir != "" {
        assert subDir + "/" + comps[0] + "/" + Join(comps[1..], '/') == subDir + "/" + (comps[0] + ['/'] + Join(comps[1..], '/'));
      }
    }
  }

  // ---------------------------------------------------------------------
  // Loading a task configuration
  // ---------------------------------------------------------------------

  /** A JSON object as LoadTaskConfig decodes it: string keys to values. */
  type Config = map<string, Json.Json>

  /** What decoding a task file into a map gives: the object's fields, a
      nil map (the file holds `null`), or a decoding error. */
  datatype TaskFile = Decoded(config: Config) | DecodedNull | Undecodable

  /** How LoadTaskConfig ends. A panic is not an error return, but it ends
      the call, so it is listed among the outcomes. */
  datatype ConfigError =
    | ReadFailed(path: string)       // the error os.ReadFile returned
    | NoFileSystem(task: string)     // "task %s: not found"
    | TaskNotFound(task: string)     // `task "%s" not found`
    | UnmarshalFailed(task: string)  // "task %s: failed to unmarshal base config: %v"
    | NilMapPanic                    // "assignment to entry in nil map"

  /** Where a task name is read from: a name ending in `.json` is a path on
      disk; any other name is `<name>.json` in the embedded file system,
      which must be present and must hold that file. */
  function TaskSource(taskName: string, efs: Option<map<string, TaskFile>>, disk: map<string, TaskFile>): (r: Result<TaskFile, ConfigError>)
    ensures HasSuffix(taskName, ".json") ==>
      r == (if taskName in disk then Ok(disk[taskName]) else Err(ReadFailed(taskName)))
    ensures !HasSuffix(taskName, ".json") && efs.None? ==> r == Err(NoFileSystem(taskName))
    ensures !HasSuffix(taskName, ".json") && efs.Some? ==>
      r == (if taskName + ".json" in efs.value then Ok(efs.value[taskName + ".json"]) else Err(TaskNotFound(taskName)))
  {
    if HasSuffix(taskName, ".json") then
      if taskName in disk then Ok(disk[taskName]) else Err(ReadFailed(taskName))
    else if efs.None? then
      Err(NoFileSystem(taskName))
    else if taskName + ".json" !in efs.value then
      Err(TaskNotFound(taskName))
    else
      Ok(efs.value[taskName + ".json"])
  }

  /** maps.Copy(dst, src): every entry of `src` is assigned into `dst`. A
      nil `dst` (`None`) panics as soon as there is an entry to assign. */
  function MapsCopy(dst: Option<Config>, src: Config): (r: Result<Config, ConfigError>)
    ensures dst.None? && |src| > 0 <==> r.Err?
    ensures r.Err? ==> r.error == NilMapPanic
    ensures r.Ok? ==> r.value.Keys == (if dst.Some? then dst.value.Keys else {}) + src.Keys
    ensures r.Ok? ==> forall k :: k in src ==> r.value[k] == src[k]
    ensures r.Ok? && dst.Some? ==> forall k :: k in dst.value && k !in src ==> r.value[k] == dst.value[k]
  {
    match dst
    case Some(d) => Ok(d + src)
    case None => if |src| == 0 then Ok(map[]) else Err(NilMapPanic)
  }

  /** LoadTaskConfig as written: the base configuration read from the
      task's source, then the overrides copied over it. Decoding `null`
      into the base map leaves it nil, so a non-empty override panics. The
      final marshal/unmarshal into the caller's struct is not modelled: the
      result is the merged map. */
  function LoadTaskConfig(taskName: string, efs: Option<map<string, TaskFile>>, disk: map<string, TaskFile>, overrideConfig: Config): (r: Result<Config, ConfigError>)
    ensures TaskSource(taskName, efs, disk).Err? ==> r == Err(TaskSource(taskName, efs, disk).error)
    ensures TaskSource(taskName, efs, disk) == Ok(Undecodable) ==> r == Err(UnmarshalFailed(taskName))
    ensures TaskSource(taskName, efs, disk) == Ok(DecodedNull) ==> (r.Err? <==> |overrideConfig| > 0)
    ensures r.Ok? && TaskSource(taskName, efs, disk).value.Decoded? ==>
      var base := TaskSource(taskName, efs, disk).value.config;
      && r.value.Keys == base.Keys + overrideConfig.Keys
      && (forall k :: k in overrideConfig ==> r.value[k] == overrideConfig[k])
      && (forall k :: k in base && k !in overrideConfig ==> r.value[k] == base[k])
  {
    match TaskSource(taskName, efs, disk)
    case Err(e) => Err(e)
    case Ok(file) =>
      match file
      case Undecodable => Err(UnmarshalFailed(taskName))
      case DecodedNull => MapsCopy(None, overrideConfig)
      case Decoded(base) => MapsCopy(Some(base), overrideConfig)
  }

  /** A task file holding `null` with any override makes LoadTaskConfig
      panic instead of returning. */
  lemma NullTaskFilePanics(overrideConfig: Config)
    requires |overrideConfig| > 0
    ensures LoadTaskConfig("task", Some(map["task.json" := DecodedNull]), map[], overrideConfig) == Err(NilMapPanic)
  {
    assert !HasSuffix("task", ".json");
    assert "task" + ".json" == "task.json";
  }

  /** LoadTaskConfig with a `null` task file read as an empty object, the
      evident intent: the overrides alone. */
  function LoadTaskConfigFixed(taskName: string, efs: Option<map<string, TaskFile>>, disk: map<string, TaskFile>, overrideConfig: Config): (r: Result<Config, ConfigError>)
    ensures r.Err? ==> r.error != NilMapPanic
    ensures r.Err? <==> TaskSource(taskName, efs, disk).Err? || TaskSource(taskName, efs, disk) == Ok(Undecodable)
    ensures r.Ok? ==>
      var file := TaskSource(taskName, efs, disk).value;
      var base := if file.Decoded? then file.config else map[];
      r.value == Maps.MergeMap([base, overrideConfig])
  {
    match TaskSource(taskName, efs, disk)
    case Err(e) => Err(e)
    case Ok(file) =>
      match file
      case Undecodable => Err(UnmarshalFailed(taskName))
      case DecodedNull =>
        Maps.MergeMapPair(map[], overrideConfig);
        MapsCopy(Some(map[]), overrideConfig)
      case Decoded(base) =>
        Maps.MergeMapPair(base, overrideConfig);
        MapsCopy(Some(base), overrideConfig)
  }

  /** Where the written version returns, the fixed one returns the same. */
  lemma LoadTaskConfigFixedAgrees(taskName: string, efs: Option<map<string, TaskFile>>, disk: map<string, TaskFile>, overrideConfig: Config)
    requires LoadTaskConfig(taskName, efs, disk, overrideConfig) != Err(NilMapPanic)
    ensures LoadTaskConfigFixed(taskName, efs, disk, overrideConfig) == LoadTaskConfig(taskName, efs, disk, overrideConfig)
  {
  }
}
