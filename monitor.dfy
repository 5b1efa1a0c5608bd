/**
 * The watch loop of bunch: a table of watched files with the bundles each
 * feeds, the time of the last completed build, and a sweep that rebuilds
 * after the first file changed since then.  File modification times and the
 * clock come in as arguments; timers and the event emitter become a count of
 * scheduled sweeps and a log of emitted events.
 */
module Monitor {
  import opened Wrappers
  import opened JsObject
  import opened JsValue
  import opened Paths
  import opened Sequences
  import opened PackagerConfig
  import opened Assembly
  import opened PackRuns
  import opened Packager

  /** A watched file: the bundles it belongs to and its modification time when the table was built. */
  datatype FileEntry = FileEntry(bundles: seq<string>, lastModified: int)

  /** The events the monitor emits. */
  datatype Event = MonitorStarted | FileChanged(file: string) | AfterRegenerate

  /** The modification time of the file at a path, in milliseconds, as the file system reports it now. */
  type Stat = string -> nat

  /** What the manifest branch of a sweep reports before and after the reload. */
  const ReloadReports: seq<string> := ["Bunchfile File Changed.", "Reloading Manifest..."]
  const RebuildAllReport: string := "Rebuilding all bundles..."

  /** The monitor's one default option. */
  const MonitorDefaults: Entries<Value> := [("timeout", Num(1000))]

  /** A missing `timeout` becomes 1000; a supplied one, whatever its value, stays. */
  lemma TimeoutDefault(options: Entries<Value>)
    ensures Get(MergeDefaults(options, MonitorDefaults), "timeout") ==
            if "timeout" in Keys(options) then Get(options, "timeout") else Some(Num(1000))
  {
    MergeDefaultsSpec(options, MonitorDefaults, "timeout");
  }

  // ----------------------------------------------------------- the file table

  /** The entries of `getFiles()` with bundle lists only. */
  function Unstamped(index: Entries<seq<string>>): (t: Entries<FileEntry>)
    ensures Keys(t) == Keys(index)
  {
    seq(|index|, i requires 0 <= i < |index| => (index[i].0, FileEntry(index[i].1, 0)))
  }

  /** The same entries, each carrying the current modification time of its file. */
  function Stamped(t: Entries<FileEntry>, stat: Stat): seq<(string, FileEntry)> {
    seq(|t|, i requires 0 <= i < |t| => (t[i].0, FileEntry(t[i].1.bundles, stat(t[i].0))))
  }

  /** Stamping entry `i` of a table whose first `i` entries are stamped. */
  lemma StampStep(t: Entries<FileEntry>, stat: Stat, i: nat)
    requires i < |t|
    ensures var name := t[i].0;
      (Stamped(t, stat)[..i] + t[i..])[i := (name, FileEntry(t[i].1.bundles, stat(name)))]
      == Stamped(t, stat)[..i + 1] + t[i + 1..]
  {
  }

  /**
   * What `buildFileList` builds from `getFiles()`: every indexed source path,
   * then the manifest path with bundles `['*']` (replacing an entry of the
   * same path), each stamped with `Date.parse` of its modification time.
   */
  function FileTable(index: Entries<seq<string>>, configFile: string, stat: Stat): Entries<FileEntry> {
    Stamped(Put(Unstamped(index), configFile, FileEntry(["*"], 0)), ParsedStat(stat))
  }

  /** The configuration `buildFileList` leaves: the manifest merged in, or unchanged when it cannot be read. */
  function Reloaded(config: Config, configFile: string, read: ManifestReader): Config {
    LoadOf(config, Str(configFile), read).0
  }

  /**
   * The table `buildFileList` builds, or the exception it throws: the
   * manifest's read error, or the error `getFiles()` throws on a bundle
   * whose members cannot be read.
   */
  function Rebuilt(config: Config, configFile: string, read: ManifestReader, stat: Stat)
    : Result<Entries<FileEntry>, JsError>
  {
    match read(configFile)
    case Err(e) => Err(e)
    case Ok(_) =>
      match FileIndex(Reloaded(config, configFile, read))
      case Err(e) => Err(e)
      case Ok(index) => Ok(FileTable(index, configFile, stat))
  }

  /**
   * `buildFileList` throws exactly when the manifest cannot be read or some
   * bundle of the reloaded manifest is `null` or `undefined`; otherwise the
   * table is built from `getFiles()` of the reloaded configuration.
   */
  lemma RebuiltSpec(config: Config, configFile: string, read: ManifestReader, stat: Stat)
    ensures var c := Reloaded(config, configFile, read);
      var t := Rebuilt(config, configFile, read, stat);
      && (read(configFile).Err? ==> c == config && t == Err(read(configFile).error))
      && (read(configFile).Ok? ==>
            && c == Merge(config, ForIn(read(configFile).value))
            && (t.Err? <==> exists k :: 0 <= k < |BundleEntries(c)| &&
                                          (BundleEntries(c)[k].1.Null? || BundleEntries(c)[k].1.Undef?))
            && (t.Ok? ==> t.value == FileTable(FileIndex(c).value, configFile, stat)))
  {
    if read(configFile).Ok? {
      var c := Merge(config, ForIn(read(configFile).value));
      FileListThrows(c);
      FileIndexKeysAreFileList(c);
    }
  }

  lemma StampedGet(t: Entries<FileEntry>, stat: Stat, k: string)
    ensures Keys(Stamped(t, stat)) == Keys(t)
    ensures Get(Stamped(t, stat), k) ==
            match Get(t, k)
            case None => None
            case Some(e) => Some(FileEntry(e.bundles, stat(k)))
    decreases |t|
  {
    var s := Stamped(t, stat);
    assert Keys(s) == Keys(t);
    if t != [] {
      assert s[1..] == Stamped(t[1..], stat);
      StampedGet(t[1..], stat, k);
    }
  }

  lemma UnstampedGet(index: Entries<seq<string>>, k: string)
    ensures Get(Unstamped(index), k) ==
            match Get(index, k)
            case None => None
            case Some(b) => Some(FileEntry(b, 0))
    decreases |index|
  {
    if index != [] {
      assert Unstamped(index)[1..] == Unstamped(index[1..]);
      UnstampedGet(index[1..], k);
    }
  }

  /**
   * The manifest path maps to bundles `['*']`, every other path to the
   * bundles `getFiles()` lists for it, and each entry carries the current
   * modification time of its path truncated to whole seconds; the paths are
   * those of `getFiles()` in the same order, with the manifest appended when
   * it is new.
   */
  lemma FileTableSpec(index: Entries<seq<string>>, configFile: string, stat: Stat, k: string)
    ensures Keys(FileTable(index, configFile, stat)) ==
            if configFile in Keys(index) then Keys(index) else Keys(index) + [configFile]
    ensures Get(FileTable(index, configFile, stat), k) ==
            if k == configFile then Some(FileEntry(["*"], ParsedMtime(stat(k))))
            else match Get(index, k)
              case None => None
              case Some(b) => Some(FileEntry(b, ParsedMtime(stat(k))))
  {
    var u := Put(Unstamped(index), configFile, FileEntry(["*"], 0));
    StampedGet(u, ParsedStat(stat), k);
    UnstampedGet(index, k);
  }

  // ------------------------------------------------------------ the sweep rule

  /** The first entry whose file is newer than `lastBuild`, if any. */
  function FirstChanged(files: Entries<FileEntry>, stat: Stat, lastBuild: int): (r: Option<nat>)
    ensures r.Some? ==> r.value < |files| && stat(files[r.value].0) > lastBuild
    ensures r.Some? ==> forall j :: 0 <= j < r.value ==> stat(files[j].0) <= lastBuild
    ensures r.None? <==> forall j :: 0 <= j < |files| ==> stat(files[j].0) <= lastBuild
    decreases |files|
  {
    if files == [] then None
    else if stat(files[0].0) > lastBuild then Some(0)
    else
      match FirstChanged(files[1..], stat, lastBuild)
      case None => None
      case Some(i) => Some(i + 1)
  }

  /** What a sweep does. */
  datatype Action = NoChange | FullRebuild(file: string) | Rebuild(file: string, bundles: seq<string>)

  /** The manifest is recognised by its name alone. */
  predicate IsManifest(path: string) {
    HasSuffix(path, "Bunchfile")
  }

  /**
   * `checkFiles`: the first changed file in table order decides; a manifest
   * rebuilds everything, any other file the bundles listed for it.
   */
  function Decide(files: Entries<FileEntry>, stat: Stat, lastBuild: int): Action {
    match FirstChanged(files, stat, lastBuild)
    case None => NoChange
    case Some(i) =>
      if IsManifest(files[i].0) then FullRebuild(files[i].0)
      else Rebuild(files[i].0, files[i].1.bundles)
  }

  /**
   * A sweep rebuilds exactly when some watched file is newer than the last
   * build, on behalf of the first such file in table order, and a selective
   * rebuild covers exactly that file's bundles.
   */
  lemma DecideSpec(files: Entries<FileEntry>, stat: Stat, lastBuild: int)
    ensures Decide(files, stat, lastBuild).NoChange? <==>
            forall j :: 0 <= j < |files| ==> stat(files[j].0) <= lastBuild
    ensures !Decide(files, stat, lastBuild).NoChange? ==>
            exists i :: 0 <= i < |files| && FirstChanged(files, stat, lastBuild) == Some(i)
                     && Decide(files, stat, lastBuild).file == files[i].0
                     && (Decide(files, stat, lastBuild).FullRebuild? <==> IsManifest(files[i].0))
                     && (Decide(files, stat, lastBuild).Rebuild? ==>
                           Decide(files, stat, lastBuild).bundles == files[i].1.bundles)
  {
    var r := FirstChanged(files, stat, lastBuild);
    if r.Some? {
      var i := r.value;
      assert 0 <= i < |files| && FirstChanged(files, stat, lastBuild) == Some(i);
    }
  }

  /**
   * Any file modified after the last build is noticed: the sweep rebuilds,
   * on behalf of that file or of one before it in the table.
   */
  lemma ChangeDetected(files: Entries<FileEntry>, stat: Stat, lastBuild: int, j: nat)
    requires j < |files| && stat(files[j].0) > lastBuild
    ensures !Decide(files, stat, lastBuild).NoChange?
    ensures FirstChanged(files, stat, lastBuild).value <= j
  {
    DecideSpec(files, stat, lastBuild);
  }

  /**
   * The timestamp `Date.parse(fs.statSync(file).mtime)` yields: the `Date`
   * is converted to a string first, which keeps whole seconds only.
   */
  function ParsedMtime(ms: nat): (r: nat)
    ensures r <= ms < r + 1000 && r % 1000 == 0
  {
    ms - ms % 1000
  }

  /** The sweep as written, comparing the truncated timestamps. */
  function ParsedStat(stat: Stat): Stat {
    f => ParsedMtime(stat(f))
  }

  /**
   * A file saved 300 ms after a build that completed at 1500 ms is not
   * noticed by the sweep as written: its parsed time is 1000.
   */
  lemma SubSecondChangeLost(f: string, b: seq<string>)
    ensures var files := [(f, FileEntry(b, 0))];
      var stat: Stat := p => 1800;
      && stat(f) > 1500
      && Decide(files, ParsedStat(stat), 1500) == NoChange
      && Decide(files, stat, 1500) != NoChange
  {
    var files := [(f, FileEntry(b, 0))];
    var stat: Stat := p => 1800;
    assert stat(f) == 1800 && 1800 % 1000 == 800;
    assert ParsedStat(stat)(f) == 1000;
    DecideSpec(files, ParsedStat(stat), 1500);
    ChangeDetected(files, stat, 1500, 0);
  }

  /** The reports `regenerate` issues for the files a rebuild wrote. */
  function WroteLines(built: seq<string>): (r: seq<string>)
    ensures |r| == |built|
  {
    seq(|built|, i requires 0 <= i < |built| => "Wrote file " + built[i])
  }

  /** `regenerate` hands `pack` the bundles it was given; `null` and `undefined` mean all of them. */
  function RegenerateOptions(bundles: Option<seq<string>>): PackOptions {
    PackOptions(Undef, bundles, false)
  }

  /** `pack` never reads a manifest here: `regenerate` passes no `config`. */
  function NoManifest(): ManifestReader {
    p => Err(JsError("Error", "no manifest"))
  }

  /**
   * How a `regenerate` call ends: `pack` throws while dispatching, which
   * leaves `regenerate` at once; a dispatched bundle throws later, from a
   * file callback, which ends the process; or neither.
   */
  datatype Ending = DispatchThrew(error: JsError) | BundleThrew | Settled

  function RegenerateEnding(config: Config, bundles: Option<seq<string>>, fs: FileSystem): Ending {
    var d := DispatchOf(Jobs(config), PackNames(config, bundles));
    if d.thrown.Some? then DispatchThrew(d.thrown.value)
    else if !AllAssemble(AssembleWith(Resolver(config), SourceDirOf(config), fs), d.jobs) then BundleThrew
    else Settled
  }

  // ------------------------------------------------------------------- monitor

  class Monitor {
    var options: Entries<Value>
    var configFile: string
    var files: Entries<FileEntry>
    var lastBuild: int
    var packer: Packager
    var reports: seq<string>
    var events: seq<Event>
    /** Sweeps scheduled with `setTimeout` and not yet run. */
    var scheduled: nat
    /** The bundles of the rebuild a sweep started, while it has not completed (`None` inside: all). */
    var rebuilding: Option<Option<seq<string>>>

    /** At most one sweep is ever pending: scheduled, or waiting for the rebuild it started. */
    ghost predicate AtMostOneCheck()
      reads this
    {
      scheduled + (if rebuilding.Some? then 1 else 0) <= 1
    }

    /** `Monitor(options)`: the settings start empty and `timeout` defaults to 1000. */
    constructor(options0: Entries<Value>)
      ensures options == MergeDefaults(options0, MonitorDefaults)
      ensures files == [] && lastBuild == 0 && reports == [] && events == []
      ensures scheduled == 0 && rebuilding == None && fresh(packer)
    {
      var merged := FillDefaults(options0, MonitorDefaults);
      options := merged;
      configFile := "";
      files := [];
      lastBuild := 0;
      packer := new Packager();
      reports := [];
      events := [];
      scheduled := 0;
      rebuilding := None;
    }

    /** Stamps every entry of the table with `Date.parse` of its file's current modification time. */
    method StampFiles(stat: Stat)
      modifies this
      ensures files == Stamped(old(files), ParsedStat(stat))
      ensures options == old(options) && configFile == old(configFile) && packer == old(packer)
      ensures lastBuild == old(lastBuild) && reports == old(reports) && events == old(events)
      ensures scheduled == old(scheduled) && rebuilding == old(rebuilding)
    {
      var fs := files;
      var i := 0;
      while i < |fs|
        invariant 0 <= i <= |fs| == |files|
        invariant fs == Stamped(files, ParsedStat(stat))[..i] + files[i..]
        modifies {}
      {
        var (name, entry) := fs[i];
        StampStep(files, ParsedStat(stat), i);
        fs := fs[i := (name, FileEntry(entry.bundles, ParsedMtime(stat(name))))];
        i := i + 1;
      }
      assert Stamped(files, ParsedStat(stat))[..i] == Stamped(files, ParsedStat(stat)) && files[i..] == [];
      files := fs;
    }

    /**
     * `buildFileList`: reloads the manifest into the packager, then builds
     * the table from `getFiles()`; a manifest that cannot be read, or a
     * `getFiles()` that throws, leaves the table as it was.
     */
    method BuildFileList(read: ManifestReader, stat: Stat) returns (table: Result<Entries<FileEntry>, JsError>)
      modifies this, packer
      ensures packer == old(packer)
      ensures packer.config == Reloaded(old(packer.config), configFile, read)
      ensures table == Rebuilt(old(packer.config), configFile, read, stat)
      ensures table.Ok? ==> files == table.value
      ensures table.Err? ==> files == old(files)
      ensures packer.reports == old(packer.reports) +
                (if read(configFile).Ok? then FileReports(packer.config) else [])
      ensures options == old(options) && configFile == old(configFile)
      ensures lastBuild == old(lastBuild) && reports == old(reports) && events == old(events)
      ensures scheduled == old(scheduled) && rebuilding == old(rebuilding)
    {
      var loaded := packer.LoadConfig(Str(configFile), read);
      if loaded.LoadFailed? {
        return Err(loaded.error);
      }
      var index := packer.GetFiles();
      if index.Err? {
        return Err(index.error);
      }
      files := Put(Unstamped(index.value), configFile, FileEntry(["*"], 0));
      StampFiles(stat);
      table := Ok(files);
    }

    /**
     * The completion callback of `regenerate`: records the completion time,
     * reports each written file in order, emits `afterRegenerate`, then runs
     * the sweep's own callback, which reports `Done.` and schedules the next
     * sweep.
     */
    method RegenerateDone(built: seq<string>, now: int, callback: bool)
      modifies this
      ensures lastBuild == now
      ensures reports == old(reports) + WroteLines(built) + (if callback then ["Done."] else [])
      ensures events == old(events) + [AfterRegenerate]
      ensures scheduled == old(scheduled) + (if callback then 1 else 0)
      ensures rebuilding == (if callback then None else old(rebuilding))
      ensures options == old(options) && configFile == old(configFile) && packer == old(packer)
      ensures files == old(files)
    {
      lastBuild := now;
      var i := 0;
      while i < |built|
        invariant 0 <= i <= |built|
        invariant reports == old(reports) + WroteLines(built)[..i]
        invariant lastBuild == now && events == old(events) && files == old(files)
        invariant options == old(options) && configFile == old(configFile) && packer == old(packer)
        invariant scheduled == old(scheduled) && rebuilding == old(rebuilding)
      {
        assert WroteLines(built)[..i + 1] == WroteLines(built)[..i] + ["Wrote file " + built[i]];
        reports := reports + ["Wrote file " + built[i]];
        i := i + 1;
      }
      assert WroteLines(built)[..|built|] == WroteLines(built);
      events := events + [AfterRegenerate];
      if callback {
        reports := reports + ["Done."];
        scheduled := scheduled + 1;
        rebuilding := None;
      }
    }

    /**
     * `regenerate(bundles, callback)`: packs the bundles (all of them for
     * `None`) and, when `pack`'s callback fires, completes with the written
     * files; a run whose callback never fires changes nothing here.  The
     * callback fires exactly when nothing throws and some bundle is named.
     */
    method Regenerate(bundles: Option<seq<string>>, w: World, order: seq<nat>, now: int, callback: bool)
      returns (run: PackRun, ending: Ending)
      requires IsArrangement(order, |DispatchOf(Jobs(packer.config), PackNames(packer.config, bundles)).jobs|)
      modifies this, packer
      ensures packer == old(packer) && packer.config == old(packer.config)
      ensures fresh(run) && run.Valid()
      ensures ending == RegenerateEnding(packer.config, bundles, w.fs)
      ensures run.fired != [] <==> ending.Settled? && PackNames(packer.config, bundles) != []
      ensures run.fired == [] || run.fired == [Successes(run.arrived)]
      ensures run.fired == [] ==>
        && lastBuild == old(lastBuild) && reports == old(reports) && events == old(events)
        && scheduled == old(scheduled) && rebuilding == old(rebuilding)
      ensures run.fired != [] ==>
        && lastBuild == now
        && reports == old(reports) + WroteLines(Successes(run.arrived)) + (if callback then ["Done."] else [])
        && events == old(events) + [AfterRegenerate]
        && scheduled == old(scheduled) + (if callback then 1 else 0)
        && rebuilding == (if callback then None else old(rebuilding))
      ensures options == old(options) && configFile == old(configFile) && files == old(files)
    {
      var loaded, d;
      run, loaded, d := packer.Pack(RegenerateOptions(bundles), NoManifest(), w, order);
      PackCallback(Jobs(packer.config), PackNames(packer.config, bundles),
                   AssembleWith(Resolver(packer.config), SourceDirOf(packer.config), w.fs),
                   RenderWith(false, w.less, w.yui), order);
      ending := RegenerateEnding(packer.config, bundles, w.fs);
      if run.fired != [] {
        RegenerateDone(run.fired[0], now, callback);
      }
    }

    /**
     * The manifest branch of `checkFiles`: reports, reloads the table and
     * starts a rebuild of every bundle; when `buildFileList` throws, the
     * rebuild never starts.
     */
    method ManifestChanged(read: ManifestReader, stat: Stat) returns (table: Result<Entries<FileEntry>, JsError>)
      requires rebuilding == None
      modifies this, packer
      ensures packer == old(packer)
      ensures lastBuild == old(lastBuild) && options == old(options) && configFile == old(configFile)
      ensures events == old(events) && scheduled == old(scheduled)
      ensures packer.config == Reloaded(old(packer.config), configFile, read)
      ensures table == Rebuilt(old(packer.config), configFile, read, stat)
      ensures table.Ok? ==>
        && files == table.value
        && reports == old(reports) + ReloadReports + [RebuildAllReport]
        && rebuilding == Some(None)
      ensures table.Err? ==>
        && files == old(files)
        && reports == old(reports) + ReloadReports
        && rebuilding == None
    {
      table := BuildFileList(read, stat);
      AfterReload(table.Ok?);
    }

    /**
     * The reports of the manifest branch and, after a reload that did not
     * throw, the start of the full rebuild.  The first two reports precede
     * the reload in the source; nothing the reload changes reads them.
     */
    method AfterReload(ok: bool)
      modifies this
      ensures reports == old(reports) + ReloadReports + (if ok then [RebuildAllReport] else [])
      ensures rebuilding == (if ok then Some(None) else old(rebuilding))
      ensures options == old(options) && configFile == old(configFile) && files == old(files)
      ensures lastBuild == old(lastBuild) && events == old(events) && scheduled == old(scheduled)
      ensures packer == old(packer)
    {
      if ok {
        reports := reports + ReloadReports + [RebuildAllReport];
        rebuilding := Some(None);
      } else {
        reports := reports + ReloadReports;
      }
    }

    /**
     * `checkFiles`, run by its timer: finds the first watched file whose
     * parsed modification time is later than the last build.  For the
     * manifest it reports, reloads the table and starts a full rebuild; for
     * another file it reports and starts a rebuild of that file's bundles;
     * with no change it schedules the next sweep.  When reloading throws, no
     * sweep follows.
     */
    method CheckFiles(stat: Stat, read: ManifestReader) returns (action: Action)
      requires scheduled == 1 && rebuilding == None
      modifies this, packer
      ensures action == Decide(old(files), ParsedStat(stat), old(lastBuild))
      ensures lastBuild == old(lastBuild) && options == old(options) && configFile == old(configFile)
      ensures packer == old(packer) && AtMostOneCheck()
      ensures action.NoChange? ==>
        && files == old(files) && reports == old(reports) && events == old(events)
        && packer.config == old(packer.config) && scheduled == 1 && rebuilding == None
      ensures action.Rebuild? ==>
        && files == old(files) && packer.config == old(packer.config)
        && events == old(events) + [FileChanged(action.file)]
        && reports == old(reports) + ["File Changed -> " + action.file,
                                      "Rebuilding bundles: " + ArrayJoin(action.bundles, ",")]
        && scheduled == 0 && rebuilding == Some(Some(action.bundles))
      ensures action.FullRebuild? ==>
        var c := Reloaded(old(packer.config), configFile, read);
        var t := Rebuilt(old(packer.config), configFile, read, stat);
        && packer.config == c
        && events == old(events) + [FileChanged(action.file)]
        && scheduled == 0
        && (t.Ok? ==>
              && files == t.value
              && reports == old(reports) + ["Bunchfile File Changed.", "Reloading Manifest...",
                                            "Rebuilding all bundles..."]
              && rebuilding == Some(None))
        && (t.Err? ==>
              && files == old(files)
              && reports == old(reports) + ["Bunchfile File Changed.", "Reloading Manifest..."]
              && rebuilding == None)
    {
      scheduled := 0;
      var i := 0;
      while i < |files| && ParsedStat(stat)(files[i].0) <= lastBuild
        invariant 0 <= i <= |files|
        invariant forall j :: 0 <= j < i ==> ParsedStat(stat)(files[j].0) <= lastBuild
        modifies {}
      {
        i := i + 1;
      }
      if i == |files| {
        action := NoChange;
        scheduled := 1;
        return;
      }
      assert FirstChanged(files, ParsedStat(stat), lastBuild) == Some(i) by {
        FirstChangedAt(files, ParsedStat(stat), lastBuild, i);
      }
      action := OnChange(i, stat, read);
    }

    /** The body of `checkFiles`' loop for the first changed file, at index `i` of the table. */
    method OnChange(i: nat, stat: Stat, read: ManifestReader) returns (action: Action)
      requires i < |files| && scheduled == 0 && rebuilding == None
      modifies this, packer
      ensures action == (if IsManifest(old(files)[i].0) then FullRebuild(old(files)[i].0)
                         else Rebuild(old(files)[i].0, old(files)[i].1.bundles))
      ensures lastBuild == old(lastBuild) && options == old(options) && configFile == old(configFile)
      ensures packer == old(packer) && scheduled == 0
      ensures action.Rebuild? ==>
        && files == old(files) && packer.config == old(packer.config)
        && events == old(events) + [FileChanged(action.file)]
        && reports == old(reports) + ["File Changed -> " + action.file,
                                      "Rebuilding bundles: " + ArrayJoin(action.bundles, ",")]
        && rebuilding == Some(Some(action.bundles))
      ensures action.FullRebuild? ==>
        var c := Reloaded(old(packer.config), configFile, read);
        var t := Rebuilt(old(packer.config), configFile, read, stat);
        && packer.config == c
        && events == old(events) + [FileChanged(action.file)]
        && (t.Ok? ==>
              && files == t.value
              && reports == old(reports) + ["Bunchfile File Changed.", "Reloading Manifest...",
                                            "Rebuilding all bundles..."]
              && rebuilding == Some(None))
        && (t.Err? ==>
              && files == old(files)
              && reports == old(reports) + ["Bunchfile File Changed.", "Reloading Manifest..."]
              && rebuilding == None)
    {
      var (file, entry) := files[i];
      events := events + [FileChanged(file)];
      if HasSuffix(file, "Bunchfile") {
        var table := ManifestChanged(read, stat);
        action := FullRebuild(file);
      } else {
        reports := reports + ["File Changed -> " + file, "Rebuilding bundles: " + ArrayJoin(entry.bundles, ",")];
        rebuilding := Some(Some(entry.bundles));
        action := Rebuild(file, entry.bundles);
      }
    }

    /** The rebuild a sweep started completes; its callback schedules the next sweep. */
    method FinishRebuild(w: World, order: seq<nat>, now: int) returns (run: PackRun)
      requires rebuilding.Some?
      requires IsArrangement(order, |DispatchOf(Jobs(packer.config), PackNames(packer.config, rebuilding.value)).jobs|)
      modifies this, packer
      ensures packer == old(packer) && packer.config == old(packer.config)
      ensures fresh(run) && run.Valid()
      ensures run.fired == [] ==> lastBuild == old(lastBuild) && scheduled == old(scheduled) && rebuilding == old(rebuilding)
      ensures run.fired != [] ==>
        && lastBuild == now && scheduled == old(scheduled) + 1 && rebuilding == None
        && reports == old(reports) + WroteLines(Successes(run.arrived)) + ["Done."]
      ensures run.fired != [] <==>
        RegenerateEnding(packer.config, old(rebuilding).value, w.fs).Settled?
        && PackNames(packer.config, old(rebuilding).value) != []
      ensures old(AtMostOneCheck()) ==> AtMostOneCheck()
    {
      var ending;
      run, ending := Regenerate(rebuilding.value, w, order, now, true);
    }

    /**
     * The rebuild that `init` starts once the table is built, followed by
     * the first scheduled sweep and the `monitorStarted` event.  When `pack`
     * throws while dispatching, neither follows; when a bundle throws later,
     * the process ends before the sweep runs.
     */
    method InitialRebuild(w: World, order: seq<nat>, now: int) returns (run: PackRun, ending: Ending)
      requires IsArrangement(order, |DispatchOf(Jobs(packer.config), BundleList(packer.config)).jobs|)
      requires scheduled == 0 && rebuilding == None
      modifies this, packer
      ensures packer == old(packer) && packer.config == old(packer.config)
      ensures configFile == old(configFile) && files == old(files)
      ensures run.Valid() && rebuilding == None
      ensures ending == RegenerateEnding(packer.config, None, w.fs)
      ensures ending.DispatchThrew? ==> scheduled == 0 && events == old(events) && lastBuild == old(lastBuild)
      ensures ending.BundleThrew? ==>
        scheduled == 0 && events == old(events) + [MonitorStarted] && lastBuild == old(lastBuild)
      ensures ending.Settled? ==>
        && scheduled == 1
        && events == old(events) + (if run.fired == [] then [] else [AfterRegenerate]) + [MonitorStarted]
        && lastBuild == (if run.fired == [] then old(lastBuild) else now)
    {
      run, ending := Regenerate(None, w, order, now, false);
      StartPolling(ending);
    }

    /**
     * What `init` and `startMonitor` do after the initial `regenerate`
     * returns: schedule the first sweep and emit `monitorStarted`.  A throw
     * from the dispatch skips both; a bundle's later throw ends the process,
     * so its sweep never runs.
     */
    method StartPolling(ending: Ending)
      modifies this
      ensures scheduled == old(scheduled) + (if ending.Settled? then 1 else 0)
      ensures events == old(events) + (if ending.DispatchThrew? then [] else [MonitorStarted])
      ensures options == old(options) && configFile == old(configFile) && files == old(files)
      ensures lastBuild == old(lastBuild) && reports == old(reports) && rebuilding == old(rebuilding)
      ensures packer == old(packer)
    {
      if ending.Settled? {
        scheduled := scheduled + 1;
      }
      if !ending.DispatchThrew? {
        events := events + [MonitorStarted];
      }
    }

    /**
     * `init`: the table built from the manifest, then the initial rebuild.
     * When `buildFileList` throws, nothing further happens.
     */
    method Init(read: ManifestReader, stat: Stat, w: World, order: seq<nat>, now: int)
      returns (table: Result<Entries<FileEntry>, JsError>, run: PackRun?)
      requires var c := Reloaded(packer.config, configFile, read);
        var t := Rebuilt(packer.config, configFile, read, stat);
        t.Ok? ==> IsArrangement(order, |DispatchOf(Jobs(c), BundleList(c)).jobs|)
      requires scheduled == 0 && rebuilding == None
      modifies this, packer
      ensures packer == old(packer) && configFile == old(configFile)
      ensures packer.config == Reloaded(old(packer.config), configFile, read)
      ensures table == Rebuilt(old(packer.config), configFile, read, stat)
      ensures table.Ok? ==> files == table.value
      ensures table.Ok? <==> run != null
      ensures table.Err? ==> files == old(files) && events == old(events) && scheduled == 0
      ensures run != null ==>
        var e := RegenerateEnding(packer.config, None, w.fs);
        && run.Valid() && rebuilding == None
        && (e.DispatchThrew? ==> scheduled == 0 && events == old(events) && lastBuild == old(lastBuild))
        && (e.BundleThrew? ==>
              scheduled == 0 && events == old(events) + [MonitorStarted] && lastBuild == old(lastBuild))
        && (e.Settled? ==>
              && scheduled == 1
              && events == old(events) + (if run.fired == [] then [] else [AfterRegenerate]) + [MonitorStarted]
              && lastBuild == (if run.fired == [] then old(lastBuild) else now))
      ensures AtMostOneCheck()
    {
      table := BuildFileList(read, stat);
      if table.Err? {
        run := null;
        return;
      }
      var ending;
      run, ending := InitialRebuild(w, order, now);
    }

    /** `startMonitor(configFile, reporter)`: a fresh packager, then `init`. */
    method StartMonitor(path: string, read: ManifestReader, stat: Stat, w: World, order: seq<nat>, now: int)
      returns (run: PackRun?)
      requires var c := Reloaded(DefaultConfig, path, read);
        var t := Rebuilt(DefaultConfig, path, read, stat);
        t.Ok? ==> IsArrangement(order, |DispatchOf(Jobs(c), BundleList(c)).jobs|)
      requires scheduled == 0 && rebuilding == None
      modifies this
      ensures configFile == path && fresh(packer)
      ensures var c := Reloaded(DefaultConfig, path, read);
        var t := Rebuilt(DefaultConfig, path, read, stat);
        && packer.config == c
        && (t.Ok? ==> files == t.value && run != null)
        && (t.Err? ==> files == old(files) && run == null && events == old(events) && scheduled == 0)
      ensures run != null ==>
        var e := RegenerateEnding(packer.config, None, w.fs);
        && run.Valid() && rebuilding == None
        && (e.DispatchThrew? ==> scheduled == 0 && events == old(events) && lastBuild == old(lastBuild))
        && (e.BundleThrew? ==>
              scheduled == 0 && events == old(events) + [MonitorStarted] && lastBuild == old(lastBuild))
        && (e.Settled? ==>
              && scheduled == 1
              && events == old(events) + (if run.fired == [] then [] else [AfterRegenerate]) + [MonitorStarted]
              && lastBuild == (if run.fired == [] then old(lastBuild) else now))
      ensures AtMostOneCheck()
    {
      configFile := path;
      packer := new Packager();
      var table;
      table, run := Init(read, stat, w, order, now);
    }
  }

  /** The loop of a sweep stops at the first changed entry, which is the one the rule picks. */
  lemma FirstChangedAt(files: Entries<FileEntry>, stat: Stat, lastBuild: int, i: nat)
    requires i < |files| && stat(files[i].0) > lastBuild
    requires forall j :: 0 <= j < i ==> stat(files[j].0) <= lastBuild
    ensures FirstChanged(files, stat, lastBuild) == Some(i)
  {
    var r := FirstChanged(files, stat, lastBuild);
    assert r.Some?;
  }
}
