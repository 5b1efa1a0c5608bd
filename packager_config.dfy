/**
 * The packager's configuration (`config` in lib/bunch/packager.js) and the
 * table operations over it: loading, directory rules, the source-file list,
 * the reverse index from source file to bundles, and the bundle list.
 */
module PackagerConfig {
  import opened Wrappers
  import opened JsObject
  import opened JsValue
  import opened Paths
  import opened Sequences

  type Config = Entries<Value>

  /** One call of `reporter.report(...)`, with its arguments. */
  datatype Report = Report(args: seq<string>)

  /** `reporter.report(e.name, e.message)`. */
  function ErrorReport(e: JsError): Report {
    Report([e.name, e.message])
  }

  /** The configuration every packager starts from. */
  const DefaultConfig: Config := [
    ("variables", Obj([])),
    ("cssDir", Str("css")),
    ("jsDir", Str("js")),
    ("buildDir", Str("bin")),
    ("sourceDir", Str("src")),
    ("css", Obj([])),
    ("js", Obj([])),
    ("bundles", Obj([]))
  ]

  /** `m[k]`, with `undefined` for a missing property. */
  function Lookup(m: Entries<Value>, k: string): Value {
    Get(m, k).GetOr(Undef)
  }

  lemma DefaultKeysDistinct()
    ensures DistinctKeys(DefaultConfig)
  {
  }

  // ------------------------------------------------------- processConfigObject

  /**
   * `processConfigObject(obj)`: every key of `obj` that the configuration
   * already has replaces that key's value wholesale; other keys are ignored.
   */
  function Merge(config: Config, obj: Entries<Value>): Config
    decreases |obj|
  {
    if obj == [] then config
    else
      var prev := Merge(config, obj[..|obj| - 1]);
      var (k, v) := obj[|obj| - 1];
      if k in Keys(prev) then Put(prev, k, v) else prev
  }

  /**
   * Loading keeps the configuration's key set; a key both objects have takes
   * the loaded value as a whole; every other key keeps its value.
   */
  lemma {:induction false} MergeSpec(config: Config, obj: Entries<Value>)
    requires DistinctKeys(obj)
    ensures Keys(Merge(config, obj)) == Keys(config)
    ensures forall k :: Get(Merge(config, obj), k) ==
              if k in Keys(config) && k in Keys(obj) then Get(obj, k) else Get(config, k)
    decreases |obj|
  {
    if obj != [] {
      var init := obj[..|obj| - 1];
      var (k, v) := obj[|obj| - 1];
      assert obj == init + [(k, v)];
      assert DistinctKeys(init);
      KeysAppend(init, [(k, v)]);
      assert k !in Keys(init);
      MergeSpec(config, init);
      forall q ensures Get(obj, q) == if q in Keys(init) then Get(init, q) else if q == k then Some(v) else None {
        GetSnoc(init, k, v, q);
      }
    }
  }

  /**
   * A second load keeps what the first one set unless it sets that key
   * again: each key ends with the latest loaded value, or its default.
   */
  lemma SecondLoadRetains(config: Config, first: Entries<Value>, second: Entries<Value>)
    requires DistinctKeys(first) && DistinctKeys(second)
    ensures Keys(Merge(Merge(config, first), second)) == Keys(config)
    ensures forall k :: Get(Merge(Merge(config, first), second), k) ==
              if k !in Keys(config) then None
              else if k in Keys(second) then Get(second, k)
              else if k in Keys(first) then Get(first, k)
              else Get(config, k)
  {
    MergeSpec(config, first);
    MergeSpec(Merge(config, first), second);
  }

  // ------------------------------------------------------------------ getDir

  function InTypeError(us: string): JsError {
    JsError("TypeError", "Cannot use 'in' operator to search for '" + us + "'")
  }

  /** `(ext in config && us in config[ext]) ? config[ext][us] : config[us]`. */
  function UseDir(config: Config, ext: string, us: string): Result<Value, JsError> {
    if ext in Keys(config) then
      match Lookup(config, ext)
      case Obj(f) => Ok(if us in Keys(f) then Lookup(f, us) else Lookup(config, us))
      case Arr(_) => Ok(Lookup(config, us))
      case Func => Ok(Lookup(config, us))
      case _ => Err(InTypeError(us))
    else Ok(Lookup(config, us))
  }

  /**
   * `getDir(ext, use)`: the base directory `config[ext without its dot +
   * 'Dir']` joined with the use directory (`sourceDir` or `buildDir`).
   */
  function GetDir(config: Config, ext: string, use: string): Result<string, JsError> {
    var base := Lookup(config, StripLeadingDot(ext) + "Dir");
    match UseDir(config, ext, use + "Dir")
    case Err(e) => Err(e)
    case Ok(useDir) => JoinValues(base, useDir)
  }

  /** A configuration that only loading has changed has the default keys. */
  predicate HasDefaultKeys(config: Config) {
    Keys(config) == Keys(DefaultConfig)
  }

  /**
   * Called with an extension as `path.extname` gives it (with its dot), getDir
   * never consults the per-type `js`/`css` override: the global `sourceDir` or
   * `buildDir` is used.
   */
  lemma GetDirDottedUsesGlobal(config: Config, ext: string, use: string)
    requires HasDefaultKeys(config)
    requires HasPrefix(ext, ".")
    ensures GetDir(config, ext, use) ==
            JoinValues(Lookup(config, ext[1..] + "Dir"), Lookup(config, use + "Dir"))
  {
    assert ext !in Keys(config) by {
      forall i | 0 <= i < |Keys(config)| ensures Keys(config)[i] != ext {
        assert Keys(config)[i] == Keys(DefaultConfig)[i];
        assert Keys(DefaultConfig)[i][0] != '.';
      }
    }
  }

  /** Called with a bare key such as "js", getDir does use `config.js.sourceDir` when it is set. */
  lemma GetDirBareKeyUsesOverride(config: Config, key: string, use: string)
    requires key in Keys(config) && Lookup(config, key).Obj?
    requires use + "Dir" in Keys(Lookup(config, key).fields)
    ensures GetDir(config, key, use) ==
            JoinValues(Lookup(config, StripLeadingDot(key) + "Dir"),
                       Lookup(Lookup(config, key).fields, use + "Dir"))
  {
  }

  lemma DefaultLookups()
    ensures Lookup(DefaultConfig, "cssDir") == Str("css")
    ensures Lookup(DefaultConfig, "jsDir") == Str("js")
    ensures Lookup(DefaultConfig, "buildDir") == Str("bin")
    ensures Lookup(DefaultConfig, "sourceDir") == Str("src")
  {
    DefaultKeysDistinct();
    GetAt(DefaultConfig, 1);
    GetAt(DefaultConfig, 2);
    GetAt(DefaultConfig, 3);
    GetAt(DefaultConfig, 4);
  }

  /** With the defaults, `.js` sources live in `js/src`. */
  lemma GetDirDefaultSource()
    ensures GetDir(DefaultConfig, ".js", "source") == Ok("js/src")
  {
    assert ".js"[1..] + "Dir" == "jsDir";
    assert "source" + "Dir" == "sourceDir";
    assert Join("js", "src") == "js/src";
    GetDirDottedUsesGlobal(DefaultConfig, ".js", "source");
    DefaultLookups();
  }

  /** With the defaults, `.css` bundles are written to `css/bin`. */
  lemma GetDirDefaultBuild()
    ensures GetDir(DefaultConfig, ".css", "build") == Ok("css/bin")
  {
    assert ".css"[1..] + "Dir" == "cssDir";
    assert "build" + "Dir" == "buildDir";
    assert Join("css", "bin") == "css/bin";
    GetDirDottedUsesGlobal(DefaultConfig, ".css", "build");
    DefaultLookups();
  }

  /** The full source path of a bundle member: its type's source directory joined with its name. */
  function Resolve(config: Config, file: string): Result<string, JsError> {
    match GetDir(config, ExtName(file), "source")
    case Err(e) => Err(e)
    case Ok(dir) => Ok(Join(dir, file))
  }

  /** The output path of a bundle: its type's build directory joined with its name. */
  function OutputPath(config: Config, bundle: string): Result<string, JsError> {
    match GetDir(config, ExtName(bundle), "build")
    case Err(e) => Err(e)
    case Ok(dir) => Ok(Join(dir, bundle))
  }

  /** A member named `stem + ext` resolves to `<ext>Dir/sourceDir/stem+ext` when both are set. */
  lemma ResolveDotted(config: Config, stem: string, ext: string, base: string, src: string)
    requires HasDefaultKeys(config)
    requires stem != [] && stem != "." && '/' !in stem && '/' !in ext
    requires |ext| > 1 && ext[0] == '.' && '.' !in ext[1..]
    requires Lookup(config, ext[1..] + "Dir") == Str(base) && base != ""
    requires Lookup(config, "sourceDir") == Str(src) && src != ""
    ensures Resolve(config, stem + ext) == Ok(base + "/" + src + "/" + stem + ext)
  {
    assert "source" + "Dir" == "sourceDir";
    assert base + "/" + src + "/" + (stem + ext) == base + "/" + src + "/" + stem + ext;
    assert HasPrefix(ext, ".") by { assert ext[..1] == [ext[0]]; }
    GetDirDottedUsesGlobal(config, ext, "source");
    ExtNameOfStemAndExt(stem, ext);
  }

  /** A bundle named `stem + ext` is written to `<ext>Dir/buildDir/stem+ext` when both are set. */
  lemma OutputDotted(config: Config, stem: string, ext: string, base: string, bin: string)
    requires HasDefaultKeys(config)
    requires stem != [] && stem != "." && '/' !in stem && '/' !in ext
    requires |ext| > 1 && ext[0] == '.' && '.' !in ext[1..]
    requires Lookup(config, ext[1..] + "Dir") == Str(base) && base != ""
    requires Lookup(config, "buildDir") == Str(bin) && bin != ""
    ensures OutputPath(config, stem + ext) == Ok(base + "/" + bin + "/" + stem + ext)
  {
    assert "build" + "Dir" == "buildDir";
    assert base + "/" + bin + "/" + (stem + ext) == base + "/" + bin + "/" + stem + ext;
    assert HasPrefix(ext, ".") by { assert ext[..1] == [ext[0]]; }
    GetDirDottedUsesGlobal(config, ext, "build");
    ExtNameOfStemAndExt(stem, ext);
  }

  // ---------------------------------------------------------------- bundles

  predicate IsMemberList(v: Value) {
    v.Arr? && forall j :: 0 <= j < |v.items| ==> v.items[j].Str?
  }

  /** Every entry of a `bundles` object lists file names. */
  predicate AllMemberLists(bundles: Entries<Value>) {
    forall i :: 0 <= i < |bundles| ==> IsMemberList(bundles[i].1)
  }

  /** `bundles` in the form the manifest documents: an object of arrays of file names. */
  predicate BundlesShaped(v: Value) {
    v.Obj? && AllMemberLists(v.fields)
  }

  function Members(v: Value): seq<string>
    requires IsMemberList(v)
  {
    seq(|v.items|, j requires 0 <= j < |v.items| => v.items[j].s)
  }

  /** `getBundleList()`: the own enumerable keys of the bundles setting, in key order. */
  function BundleList(config: Config): seq<string> {
    Keys(BundleEntries(config))
  }

  /** The entries `for (bundleName in bundles)` visits, with the values they name. */
  function BundleEntries(config: Config): seq<(string, Value)> {
    ForIn(Lookup(config, "bundles"))
  }

  /** `x.length` on `null` or `undefined`. */
  function LengthError(of: string): JsError {
    JsError("TypeError", "Cannot read property 'length' of " + of)
  }

  /**
   * What the member loops read from one bundle value `v`: `v[i]` for every
   * `i < v.length`.  A string gives its characters, an array its items, an
   * object with a numeric `length` its properties `"0"`, `"1"`, ...; other
   * values have no `length` and give nothing.  Reading `length` of `null`
   * or `undefined` throws.
   */
  function MemberValues(v: Value): (r: Result<seq<Value>, JsError>)
    ensures r.Err? <==> v.Undef? || v.Null?
    ensures v.Arr? ==> r == Ok(v.items)
    ensures v.Str? ==> r.Ok? && |r.value| == |v.s| && forall j :: 0 <= j < |v.s| ==> r.value[j] == Str([v.s[j]])
    ensures v.Bool? || v.Num? ==> r == Ok([])
  {
    match v
    case Undef => Err(LengthError("undefined"))
    case Null => Err(LengthError("null"))
    case Str(s) => Ok(seq(|s|, j requires 0 <= j < |s| => Str([s[j]])))
    case Arr(items) => Ok(items)
    case Obj(f) => Ok(IndexedValues(f))
    case _ => Ok([])
  }

  /** `o[0]`, ..., `o[o.length - 1]` for an object with a numeric `length`; nothing otherwise. */
  function IndexedValues(f: Entries<Value>): seq<Value> {
    var len := Lookup(f, "length");
    var n := if len.Num? && len.n > 0 then len.n else 0;
    seq(n, j requires 0 <= j => Lookup(f, NatToString(j)))
  }

  /** The position of the first bundle whose `length` cannot be read, if any. */
  function FirstUnreadable(defs: seq<(string, Value)>): (r: Option<nat>)
    ensures r.Some? ==> r.value < |defs| && MemberValues(defs[r.value].1).Err?
    ensures r.Some? ==> forall j :: 0 <= j < r.value ==> MemberValues(defs[j].1).Ok?
    ensures r.None? <==> forall j :: 0 <= j < |defs| ==> MemberValues(defs[j].1).Ok?
    decreases |defs|
  {
    if defs == [] then None
    else if MemberValues(defs[0].1).Err? then Some(0)
    else
      match FirstUnreadable(defs[1..])
      case None => None
      case Some(k) => Some(k + 1)
  }

  /** The loop stops at the first unreadable bundle, which is the one FirstUnreadable picks. */
  lemma FirstUnreadableAt(defs: seq<(string, Value)>, k: nat)
    requires k < |defs| && MemberValues(defs[k].1).Err?
    requires forall j :: 0 <= j < k ==> MemberValues(defs[j].1).Ok?
    ensures FirstUnreadable(defs) == Some(k)
    decreases k
  {
    if k > 0 {
      assert MemberValues(defs[0].1).Ok?;
      var rest := defs[1..];
      assert rest[k - 1] == defs[k];
      forall j | 0 <= j < k - 1 ensures MemberValues(rest[j].1).Ok? {
        assert rest[j] == defs[j + 1];
      }
      FirstUnreadableAt(rest, k - 1);
    }
  }

  /**
   * The table loops, stopped at entry `i` because it is the first that
   * cannot be read or because every entry was read, have read the entries
   * before `i` and yield what ListOf and IndexFor say.
   */
  lemma ReadStops(res: Resolution, defs: seq<(string, Value)>, i: nat)
    requires i <= |defs|
    requires forall j :: 0 <= j < i ==> MemberValues(defs[j].1).Ok?
    requires i < |defs| ==> MemberValues(defs[i].1).Err?
    ensures ReadDefs(defs) == defs[..i]
    ensures ListOf(res, defs) ==
            if i < |defs| then Err(MemberValues(defs[i].1).error) else Ok(Dedupe(ResolvedPaths(res, Occurrences(defs[..i]))))
    ensures IndexFor(res, defs) ==
            if i < |defs| then Err(MemberValues(defs[i].1).error) else Ok(IndexOf(res, Occurrences(defs[..i])))
  {
    if i < |defs| {
      FirstUnreadableAt(defs, i);
    } else {
      assert defs[..i] == defs;
    }
  }

  /** The exception the table loops throw on these entries, if any. */
  function ReadError(defs: seq<(string, Value)>): Option<JsError> {
    match FirstUnreadable(defs)
    case None => None
    case Some(k) => Some(MemberValues(defs[k].1).error)
  }

  /** The entries the table loops get through: all of them, or those before the one that throws. */
  function ReadDefs(defs: seq<(string, Value)>): (r: seq<(string, Value)>)
    ensures r <= defs
    ensures ReadError(defs).None? ==> r == defs
  {
    match FirstUnreadable(defs)
    case None => defs
    case Some(k) => defs[..k]
  }

  function Pairs(name: string, members: seq<Value>): seq<(string, Value)> {
    seq(|members|, j requires 0 <= j < |members| => (name, members[j]))
  }

  /** The (bundle, member) pairs of one entry; an unreadable one has none. */
  function EntryPairs(d: (string, Value)): seq<(string, Value)> {
    match MemberValues(d.1)
    case Err(_) => []
    case Ok(ms) => Pairs(d.0, ms)
  }

  /** Every (bundle, member) pair, bundles in key order, members in reading order. */
  function Occurrences(defs: seq<(string, Value)>): seq<(string, Value)> {
    if defs == [] then [] else Occurrences(defs[..|defs| - 1]) + EntryPairs(defs[|defs| - 1])
  }

  /** Every pair names one of the bundles it came from. */
  lemma {:induction false} OccurrenceNames(defs: seq<(string, Value)>, i: nat)
    requires i < |Occurrences(defs)|
    ensures Occurrences(defs)[i].0 in Keys(defs)
  {
    var init := defs[..|defs| - 1];
    var last := defs[|defs| - 1];
    assert Keys(defs) == Keys(init) + [last.0];
    if i < |Occurrences(init)| {
      OccurrenceNames(init, i);
    } else {
      assert Occurrences(defs)[i] == EntryPairs(last)[i - |Occurrences(init)|];
    }
  }

  // ------------------------------------------------- getFileList and getFiles

  /**
   * How one member file name resolves to a source path.  The table functions
   * below take it as a parameter, so the index logic stands apart from the
   * directory rules; the packager uses `Resolver(config)`.
   */
  type Resolution = string -> Result<string, JsError>

  function Resolver(config: Config): Resolution {
    m => Resolve(config, m)
  }

  /**
   * `path.join(getDir(path.extname(m), 'source'), m)` for a member value: a
   * member that is not a string is rejected by `path.join`.
   */
  function ResolveMember(res: Resolution, m: Value): (r: Result<string, JsError>)
    ensures r.Ok? ==> m.Str? && r == res(m.s)
  {
    if m.Str? then res(m.s) else Err(JoinTypeError)
  }

  /** The resolved source paths of the members that resolve, in iteration order. */
  function ResolvedPaths(res: Resolution, occ: seq<(string, Value)>): seq<string> {
    if occ == [] then []
    else
      var prev := ResolvedPaths(res, occ[..|occ| - 1]);
      match ResolveMember(res, occ[|occ| - 1].1)
      case Ok(p) => prev + [p]
      case Err(_) => prev
  }

  /** One report per member whose path cannot be resolved, in iteration order. */
  function ResolveReports(res: Resolution, occ: seq<(string, Value)>): seq<Report> {
    if occ == [] then []
    else
      var prev := ResolveReports(res, occ[..|occ| - 1]);
      match ResolveMember(res, occ[|occ| - 1].1)
      case Ok(_) => prev
      case Err(e) => prev + [ErrorReport(e)]
  }

  /** The bundles that include `p`, once per occurrence, in iteration order. */
  function BundlesIncluding(res: Resolution, occ: seq<(string, Value)>, p: string): seq<string> {
    if occ == [] then []
    else
      BundlesIncluding(res, occ[..|occ| - 1], p)
      + (if ResolveMember(res, occ[|occ| - 1].1) == Ok(p) then [occ[|occ| - 1].0] else [])
  }

  /** `files[filePath] = files[filePath] || {bundles: []}; files[filePath].bundles.push(bundleName)`. */
  function IndexOf(res: Resolution, occ: seq<(string, Value)>): Entries<seq<string>> {
    if occ == [] then []
    else
      var prev := IndexOf(res, occ[..|occ| - 1]);
      var (b, m) := occ[|occ| - 1];
      match ResolveMember(res, m)
      case Ok(p) => Put(prev, p, Get(prev, p).GetOr([]) + [b])
      case Err(_) => prev
  }

  /** getFileList's result on the given entries: the deduplicated paths, or the exception thrown. */
  function ListOf(res: Resolution, defs: seq<(string, Value)>): Result<seq<string>, JsError> {
    match ReadError(defs)
    case Some(e) => Err(e)
    case None => Ok(Dedupe(ResolvedPaths(res, Occurrences(defs))))
  }

  /** getFiles's result on the given entries: the index, or the exception thrown. */
  function IndexFor(res: Resolution, defs: seq<(string, Value)>): Result<Entries<seq<string>>, JsError> {
    match ReadError(defs)
    case Some(e) => Err(e)
    case None => Ok(IndexOf(res, Occurrences(defs)))
  }

  /** `getFileList()`. */
  function FileList(config: Config): Result<seq<string>, JsError> {
    ListOf(Resolver(config), BundleEntries(config))
  }

  /** `getFiles()`. */
  function FileIndex(config: Config): Result<Entries<seq<string>>, JsError> {
    IndexFor(Resolver(config), BundleEntries(config))
  }

  /** The (bundle, member) pairs the table loops visit before they return or throw. */
  function ListedOccurrences(config: Config): seq<(string, Value)> {
    Occurrences(ReadDefs(BundleEntries(config)))
  }

  /** The reports getFileList and getFiles issue: one per member that fails to resolve. */
  function FileReports(config: Config): seq<Report> {
    ResolveReports(Resolver(config), ListedOccurrences(config))
  }

  /** A path is resolved exactly when some member resolves to it. */
  lemma {:induction false} ResolvedPathMember(res: Resolution, occ: seq<(string, Value)>, p: string)
    ensures p in ResolvedPaths(res, occ) <==> exists i :: 0 <= i < |occ| && ResolveMember(res, occ[i].1) == Ok(p)
  {
    if occ != [] {
      var init := occ[..|occ| - 1];
      ResolvedPathMember(res, init, p);
      if exists i :: 0 <= i < |occ| && ResolveMember(res, occ[i].1) == Ok(p) {
        var i :| 0 <= i < |occ| && ResolveMember(res, occ[i].1) == Ok(p);
        if i < |init| { assert init[i] == occ[i]; }
      }
      if p in ResolvedPaths(res, init) {
        var i :| 0 <= i < |init| && ResolveMember(res, init[i].1) == Ok(p);
        assert occ[i] == init[i];
      }
    }
  }

  /** When every member resolves, the resolved paths are the members' resolutions, in order. */
  lemma {:induction false} ResolvedPathsAllOk(res: Resolution, occ: seq<(string, Value)>, paths: seq<string>)
    requires |occ| == |paths|
    requires forall i :: 0 <= i < |occ| ==> ResolveMember(res, occ[i].1) == Ok(paths[i])
    ensures ResolvedPaths(res, occ) == paths
  {
    if occ != [] {
      ResolvedPathsAllOk(res, occ[..|occ| - 1], paths[..|paths| - 1]);
      assert paths == paths[..|paths| - 1] + [paths[|paths| - 1]];
    }
  }

  /** Some member that the table loops visit resolves to the source path `p`. */
  ghost predicate SomeMemberResolvesTo(config: Config, p: string) {
    var occ := ListedOccurrences(config);
    exists i :: 0 <= i < |occ| && occ[i].1.Str? && Resolve(config, occ[i].1.s) == Ok(p)
  }

  /**
   * getFileList throws exactly when some bundle is `null` or `undefined`,
   * with the error of the first such.
   */
  lemma FileListThrows(config: Config)
    ensures var defs := BundleEntries(config);
      FileList(config).Err? <==> exists k :: 0 <= k < |defs| && (defs[k].1.Null? || defs[k].1.Undef?)
    ensures FileList(config).Err? ==>
              FileList(config).error == MemberValues(BundleEntries(config)[FirstUnreadable(BundleEntries(config)).value].1).error
  {
    var defs := BundleEntries(config);
    if FirstUnreadable(defs).None? {
      forall k | 0 <= k < |defs| ensures !(defs[k].1.Null? || defs[k].1.Undef?) {
        assert MemberValues(defs[k].1).Ok?;
      }
    } else {
      var k := FirstUnreadable(defs).value;
      assert defs[k].1.Null? || defs[k].1.Undef?;
    }
  }

  /**
   * When it returns, the file list holds every resolvable member path
   * exactly once, ordered by where it first appears (bundles in key order,
   * members in reading order).
   */
  lemma FileListSpec(config: Config)
    requires FileList(config).Ok?
    ensures Distinct(FileList(config).value)
    ensures forall p :: p in FileList(config).value <==> SomeMemberResolvesTo(config, p)
    ensures forall i, j :: 0 <= i < j < |FileList(config).value| ==>
              var files := FileList(config).value;
              var paths := ResolvedPaths(Resolver(config), ListedOccurrences(config));
              files[i] in paths && files[j] in paths && FirstIndex(paths, files[i]) < FirstIndex(paths, files[j])
  {
    var occ := ListedOccurrences(config);
    var res := Resolver(config);
    assert FileList(config).value == Dedupe(ResolvedPaths(res, occ));
    FileListOf(res, occ);
    forall p ensures p in Dedupe(ResolvedPaths(res, occ)) <==> SomeMemberResolvesTo(config, p) {
      if p in Dedupe(ResolvedPaths(res, occ)) {
        var i :| 0 <= i < |occ| && ResolveMember(res, occ[i].1) == Ok(p);
        assert occ[i].1.Str? && Resolve(config, occ[i].1.s) == Ok(p);
      }
      if SomeMemberResolvesTo(config, p) {
        var i :| 0 <= i < |occ| && occ[i].1.Str? && Resolve(config, occ[i].1.s) == Ok(p);
        assert ResolveMember(res, occ[i].1) == Ok(p);
      }
    }
  }

  /** FileListSpec for any way of resolving members. */
  lemma FileListOf(res: Resolution, occ: seq<(string, Value)>)
    ensures var files := Dedupe(ResolvedPaths(res, occ));
      && Distinct(files)
      && (forall p :: p in files <==> exists i :: 0 <= i < |occ| && ResolveMember(res, occ[i].1) == Ok(p))
      && forall i, j :: 0 <= i < j < |files| ==>
           var paths := ResolvedPaths(res, occ);
           files[i] in paths && files[j] in paths &&
           FirstIndex(paths, files[i]) < FirstIndex(paths, files[j])
  {
    var paths := ResolvedPaths(res, occ);
    DedupeDistinct(paths);
    DedupeMembers(paths);
    DedupeOrder(paths);
    forall p ensures p in Dedupe(paths) <==> exists i :: 0 <= i < |occ| && ResolveMember(res, occ[i].1) == Ok(p) {
      ResolvedPathMember(res, occ, p);
    }
  }

  /**
   * In the documented form nothing throws, and every member the loops visit
   * is a file name, so each either resolves or reports the error of its
   * directory rule.
   */
  lemma ShapedBundlesRead(config: Config)
    requires BundlesShaped(Lookup(config, "bundles"))
    ensures FileList(config).Ok? && FileIndex(config).Ok?
    ensures ListedOccurrences(config) == Occurrences(BundleEntries(config))
    ensures forall i :: 0 <= i < |ListedOccurrences(config)| ==> ListedOccurrences(config)[i].1.Str?
  {
    var defs := BundleEntries(config);
    assert FirstUnreadable(defs).None? by {
      forall j | 0 <= j < |defs| ensures MemberValues(defs[j].1).Ok? {
        assert IsMemberList(defs[j].1);
      }
    }
    forall i | 0 <= i < |Occurrences(defs)| ensures Occurrences(defs)[i].1.Str? {
      ShapedMembers(defs, i);
    }
  }

  lemma {:induction false} ShapedMembers(defs: seq<(string, Value)>, i: nat)
    requires AllMemberLists(defs)
    requires i < |Occurrences(defs)|
    ensures Occurrences(defs)[i].1.Str?
  {
    var init := defs[..|defs| - 1];
    var last := defs[|defs| - 1];
    assert AllMemberLists(init) by {
      forall j | 0 <= j < |init| ensures IsMemberList(init[j].1) {
        assert init[j] == defs[j];
      }
    }
    if i < |Occurrences(init)| {
      ShapedMembers(init, i);
    } else {
      assert IsMemberList(last.1);
      assert Occurrences(defs)[i] == EntryPairs(last)[i - |Occurrences(init)|];
    }
  }

  /** The index has exactly the resolved paths as keys, each once, in order of first appearance. */
  lemma {:induction false} IndexKeys(res: Resolution, occ: seq<(string, Value)>)
    ensures Keys(IndexOf(res, occ)) == Dedupe(ResolvedPaths(res, occ))
  {
    if occ != [] {
      var init := occ[..|occ| - 1];
      IndexKeys(res, init);
      DedupeMembers(ResolvedPaths(res, init));
    }
  }

  /** Each indexed path maps to the bundles that include it, one entry per occurrence, in order. */
  lemma {:induction false} IndexEntry(res: Resolution, occ: seq<(string, Value)>, p: string)
    ensures Get(IndexOf(res, occ), p) ==
            if p in ResolvedPaths(res, occ) then Some(BundlesIncluding(res, occ, p)) else None
  {
    if occ != [] {
      var init := occ[..|occ| - 1];
      IndexEntry(res, init, p);
      if ResolveMember(res, occ[|occ| - 1].1).Ok? {
        IndexEntryResolved(res, occ, p);
      } else {
        assert IndexOf(res, occ) == IndexOf(res, init);
        assert ResolvedPaths(res, occ) == ResolvedPaths(res, init);
        assert BundlesIncluding(res, occ, p) == BundlesIncluding(res, init, p) + [];
        assert BundlesIncluding(res, occ, p) == BundlesIncluding(res, init, p);
        assert Get(IndexOf(res, occ), p) == Get(IndexOf(res, init), p);
        assert (p in ResolvedPaths(res, occ)) == (p in ResolvedPaths(res, init));
      }
    }
  }

  /** The step of IndexEntry for a last member that resolves. */
  lemma IndexEntryResolved(res: Resolution, occ: seq<(string, Value)>, p: string)
    requires occ != [] && ResolveMember(res, occ[|occ| - 1].1).Ok?
    requires var init := occ[..|occ| - 1];
      Get(IndexOf(res, init), p) ==
      if p in ResolvedPaths(res, init) then Some(BundlesIncluding(res, init, p)) else None
    ensures Get(IndexOf(res, occ), p) ==
            if p in ResolvedPaths(res, occ) then Some(BundlesIncluding(res, occ, p)) else None
  {
    var init := occ[..|occ| - 1];
    var (b, m) := occ[|occ| - 1];
    var q := ResolveMember(res, m).value;
    var prev := IndexOf(res, init);
    var entry := Get(prev, q).GetOr([]) + [b];
    assert IndexOf(res, occ) == Put(prev, q, entry);
    assert ResolvedPaths(res, occ) == ResolvedPaths(res, init) + [q];
    if q == p {
      assert BundlesIncluding(res, occ, p) == BundlesIncluding(res, init, p) + [b];
      assert Get(prev, p).GetOr([]) == BundlesIncluding(res, init, p) by {
        if p !in ResolvedPaths(res, init) {
          BundlesIncludingEmpty(res, init, p);
        }
      }
      assert Get(IndexOf(res, occ), p) == Some(entry);
      assert entry == BundlesIncluding(res, occ, p);
      assert p in ResolvedPaths(res, occ);
    } else {
      assert Get(IndexOf(res, occ), p) == Get(prev, p);
      assert p in ResolvedPaths(res, occ) <==> p in ResolvedPaths(res, init);
      assert BundlesIncluding(res, occ, p) == BundlesIncluding(res, init, p) + [];
      assert BundlesIncluding(res, occ, p) == BundlesIncluding(res, init, p);
    }
  }

  lemma {:induction false} BundlesIncludingEmpty(res: Resolution, occ: seq<(string, Value)>, p: string)
    requires p !in ResolvedPaths(res, occ)
    ensures BundlesIncluding(res, occ, p) == []
  {
    if occ != [] {
      BundlesIncludingEmpty(res, occ[..|occ| - 1], p);
    }
  }

  /** Every bundle recorded against a path is the bundle of some pair. */
  lemma {:induction false} BundlesIncludingNames(res: Resolution, occ: seq<(string, Value)>, p: string, b: string)
    requires b in BundlesIncluding(res, occ, p)
    ensures exists i :: 0 <= i < |occ| && occ[i].0 == b
  {
    var init := occ[..|occ| - 1];
    if b in BundlesIncluding(res, init, p) {
      BundlesIncludingNames(res, init, p, b);
      var i :| 0 <= i < |init| && init[i].0 == b;
      assert occ[i] == init[i];
    } else {
      assert occ[|occ| - 1].0 == b;
    }
  }

  /** getFiles and getFileList agree: both throw or neither does, and the index's keys are the file list, each once. */
  lemma FileIndexKeysAreFileList(config: Config)
    ensures FileIndex(config).Ok? <==> FileList(config).Ok?
    ensures FileIndex(config).Ok? ==> Keys(FileIndex(config).value) == FileList(config).value
    ensures FileIndex(config).Ok? ==> DistinctKeys(FileIndex(config).value)
    ensures FileIndex(config).Err? ==> FileIndex(config).error == FileList(config).error
  {
    var occ := Occurrences(BundleEntries(config));
    IndexKeysDistinct(Resolver(config), occ);
  }

  /** Every bundle getFiles records against a path is one getBundleList names. */
  lemma IndexedBundlesAreListed(config: Config, p: string, b: string)
    requires FileIndex(config).Ok?
    requires Get(FileIndex(config).value, p).Some? && b in Get(FileIndex(config).value, p).value
    ensures b in BundleList(config)
  {
    var defs := BundleEntries(config);
    var occ := Occurrences(defs);
    var res := Resolver(config);
    IndexEntry(res, occ, p);
    BundlesIncludingNames(res, occ, p, b);
    var i :| 0 <= i < |occ| && occ[i].0 == b;
    OccurrenceNames(defs, i);
  }

  lemma IndexKeysDistinct(res: Resolution, occ: seq<(string, Value)>)
    ensures Keys(IndexOf(res, occ)) == Dedupe(ResolvedPaths(res, occ))
    ensures DistinctKeys(IndexOf(res, occ))
  {
    IndexKeys(res, occ);
    DedupeDistinct(ResolvedPaths(res, occ));
    DistinctKeysOfKeys(IndexOf(res, occ));
  }
}
