/**
 * Bundle assembly in lib/bunch/packager.js: the variable preambles, the
 * concatenation of member files, the routing of a bundle through the
 * compilers to its output file, and the synchronous dispatch of bundles.
 * The file system and the two compilers are oracles given as parameters.
 */
module Assembly {
  import opened Wrappers
  import opened JsObject
  import opened JsValue
  import opened Paths
  import opened PackagerConfig

  // ------------------------------------------------------- processVariablesForJS

  const JsPrefix := "var Bunch = Bunch || {};\nBunch.variables = "

  /** `processVariablesForJS()` on `config.variables`. */
  function JsPreamble(variables: Value): string {
    if Typeof(variables) == "object" then JsPrefix + Serialize(variables) + ";\n" else ""
  }

  /**
   * The preamble is empty exactly when `variables` is not an object (null and
   * arrays count as objects); otherwise it assigns the JSON text of the
   * variables to `Bunch.variables`.
   */
  lemma JsPreambleShape(variables: Value)
    ensures JsPreamble(variables) == "" <==> !(variables.Null? || variables.Arr? || variables.Obj?)
    ensures JsPreamble(variables) != "" ==>
              var out := JsPreamble(variables);
              HasPrefix(out, JsPrefix) && HasSuffix(out, ";\n") &&
              out[|JsPrefix|..|out| - 2] == Serialize(variables)
  {
    if JsPreamble(variables) != "" {
      var out := JsPreamble(variables);
      assert out == JsPrefix + Serialize(variables) + ";\n";
      assert out[..|JsPrefix|] == JsPrefix;
      assert out[|out| - 2..] == ";\n";
    }
  }

  /** With the default `variables: {}`. */
  lemma JsPreambleOfEmptyObject()
    ensures JsPreamble(Obj([])) == "var Bunch = Bunch || {};\nBunch.variables = {};\n"
  {
    assert Serialize(Obj([])) == "{}";
  }

  // ------------------------------------------------------ processVariablesForCSS

  /** `value.match(/(px|em|pt)$/) || value.match(/^\#/)`. */
  predicate Unquoted(value: string) {
    HasSuffix(value, "px") || HasSuffix(value, "em") || HasSuffix(value, "pt") || HasPrefix(value, "#")
  }

  /** The less variable declaration for one string variable. */
  function CssLine(name: string, value: string): string {
    if Unquoted(value) then "@" + name + ": " + value + ";\n"
    else "@" + name + ": \"" + value + "\";\n"
  }

  const ObjectVariableReport := Report(["Bunch::Packager", "objects are not supported as variables for css"])
  const FunctionVariableReport := Report(["Bunch::Packager", "functions are not supported as variables for css"])

  /** Numbers have no `match` method: the call throws. */
  const NumberMatchError := JsError("TypeError", "variable.match is not a function")

  /** What one variable does to the CSS preamble. */
  datatype VariableEffect = Line(text: string) | Warn(report: Report) | Nothing | Throw(error: JsError)

  function EffectOf(name: string, v: Value): VariableEffect {
    match v
    case Str(s) => Line(CssLine(name, s))
    case Num(_) => Throw(NumberMatchError)
    case Func => Warn(FunctionVariableReport)
    case Null => Warn(ObjectVariableReport)
    case Arr(_) => Warn(ObjectVariableReport)
    case Obj(_) => Warn(ObjectVariableReport)
    case _ => Nothing
  }

  /** The preamble text (or the exception it stops with) and the reports issued on the way. */
  datatype CssOutcome = CssOutcome(out: Result<string, JsError>, reports: seq<Report>)

  /** `processVariablesForCSS()` over the variables' `for ... in` entries. */
  function CssPreamble(vars: seq<(string, Value)>): CssOutcome {
    if vars == [] then CssOutcome(Ok(""), [])
    else
      var prev := CssPreamble(vars[..|vars| - 1]);
      var (name, v) := vars[|vars| - 1];
      match prev.out
      case Err(_) => prev
      case Ok(text) =>
        match EffectOf(name, v)
        case Line(l) => CssOutcome(Ok(text + l), prev.reports)
        case Warn(r) => CssOutcome(Ok(text), prev.reports + [r])
        case Nothing => prev
        case Throw(e) => CssOutcome(Err(e), prev.reports)
  }

  /** The declarations of the string variables, in key order. */
  function StringLines(vars: seq<(string, Value)>): string {
    if vars == [] then ""
    else (if vars[0].1.Str? then CssLine(vars[0].0, vars[0].1.s) else "") + StringLines(vars[1..])
  }

  /** One report per object or function variable, in key order. */
  function Unsupported(vars: seq<(string, Value)>): seq<Report> {
    if vars == [] then []
    else
      (if vars[0].1.Func? then [FunctionVariableReport]
       else if vars[0].1.Null? || vars[0].1.Arr? || vars[0].1.Obj? then [ObjectVariableReport]
       else [])
      + Unsupported(vars[1..])
  }

  lemma {:induction false} StringLinesSnoc(vars: seq<(string, Value)>, x: (string, Value))
    ensures StringLines(vars + [x]) == StringLines(vars) + (if x.1.Str? then CssLine(x.0, x.1.s) else "")
  {
    if vars != [] {
      var h := if vars[0].1.Str? then CssLine(vars[0].0, vars[0].1.s) else "";
      assert (vars + [x])[1..] == vars[1..] + [x];
      assert StringLines(vars + [x]) == h + StringLines(vars[1..] + [x]);
      StringLinesSnoc(vars[1..], x);
    }
  }

  lemma {:induction false} UnsupportedSnoc(vars: seq<(string, Value)>, x: (string, Value))
    ensures Unsupported(vars + [x]) == Unsupported(vars) + Unsupported([x])
  {
    if vars != [] {
      assert (vars + [x])[1..] == vars[1..] + [x];
      UnsupportedSnoc(vars[1..], x);
    }
  }

  /**
   * Without number variables, the preamble is the string variables'
   * declarations in key order, and each object or function variable is
   * reported and contributes no text.
   */
  lemma {:induction false} CssPreambleWithoutNumbers(vars: seq<(string, Value)>)
    requires forall i :: 0 <= i < |vars| ==> !vars[i].1.Num?
    ensures CssPreamble(vars) == CssOutcome(Ok(StringLines(vars)), Unsupported(vars))
  {
    if vars != [] {
      var init := vars[..|vars| - 1];
      var x := vars[|vars| - 1];
      assert vars == init + [x];
      CssPreambleWithoutNumbers(init);
      StringLinesSnoc(init, x);
      UnsupportedSnoc(init, x);
      var prev := CssPreamble(init);
      assert prev.out == Ok(StringLines(init));
      assert !x.1.Num?;
      assert !x.1.Str? ==> StringLines(vars) == StringLines(init);
      match x.1
      case Str(v) =>
        assert CssPreamble(vars) == CssOutcome(Ok(StringLines(init) + CssLine(x.0, v)), prev.reports);
      case Func =>
        assert CssPreamble(vars) == CssOutcome(Ok(StringLines(init)), prev.reports + [FunctionVariableReport]);
      case Null =>
        assert CssPreamble(vars) == CssOutcome(Ok(StringLines(init)), prev.reports + [ObjectVariableReport]);
      case Arr(_) =>
        assert CssPreamble(vars) == CssOutcome(Ok(StringLines(init)), prev.reports + [ObjectVariableReport]);
      case Obj(_) =>
        assert CssPreamble(vars) == CssOutcome(Ok(StringLines(init)), prev.reports + [ObjectVariableReport]);
      case Bool(_) =>
        assert CssPreamble(vars) == prev;
      case Undef =>
        assert CssPreamble(vars) == prev;
      case Num(_) =>
        assert false;
    }
  }

  /** A number variable makes the preamble throw. */
  lemma {:induction false} CssPreambleWithNumber(vars: seq<(string, Value)>, k: nat)
    requires k < |vars| && vars[k].1.Num?
    ensures CssPreamble(vars).out == Err(NumberMatchError)
  {
    var init := vars[..|vars| - 1];
    if k < |init| {
      assert init[k] == vars[k];
      CssPreambleWithNumber(init, k);
    } else {
      if CssPreamble(init).out.Err? {
        CssPreambleErrIsNumber(init);
      }
    }
  }

  /** The only exception the preamble raises is the number one. */
  lemma {:induction false} CssPreambleErrIsNumber(vars: seq<(string, Value)>)
    ensures CssPreamble(vars).out.Err? ==> CssPreamble(vars).out == Err(NumberMatchError)
  {
    if vars != [] {
      CssPreambleErrIsNumber(vars[..|vars| - 1]);
    }
  }

  /** A length in pixels is written bare. */
  lemma CssLinePixels()
    ensures CssLine("width", "10px") == "@width: 10px;\n"
  {
    assert Unquoted("10px") by {
      assert "10px"[2..] == "px";
    }
    assert "@" + "width" + ": " + "10px" + ";\n" == "@width: 10px;\n";
  }

  /** A colour is written bare. */
  lemma CssLineColour()
    ensures CssLine("main", "#fff") == "@main: #fff;\n"
  {
    assert Unquoted("#fff") by {
      assert "#fff"[..1] == "#";
    }
    assert "@" + "main" + ": " + "#fff" + ";\n" == "@main: #fff;\n";
  }

  /** Any other string is quoted. */
  lemma CssLineQuoted()
    ensures CssLine("font", "Arial") == "@font: \"Arial\";\n"
  {
    NameQuoted();
    assert "@" + "font" + ": \"" + "Arial" + "\";\n" == "@font: \"Arial\";\n";
  }

  lemma NameQuoted()
    ensures !Unquoted("Arial")
  {
    var tail := "Arial"[3..];
    assert tail == "al";
    assert tail[0] != 'p' && tail[0] != 'e';
    assert "Arial"[..1] != "#" by {
      assert "Arial"[..1][0] == 'A';
    }
  }

  // ------------------------------------------------------------------ addFiles

  /** What reading one resolved source path gives. */
  datatype ReadResult = Missing | ReadError(error: JsError) | Content(text: string)

  type FileSystem = string -> ReadResult

  /** The object `readBundledFile` throws for a path that does not exist. */
  function NotFound(fullPath: string, member: string, dir: string): JsError {
    JsError("FileNotFound", "Could not find a file " + fullPath + " : " + member + " : " + dir)
  }

  /** The concatenated bundle text, or the exception that ends the bundle. */
  datatype Assembly = Assembled(text: string, reports: seq<Report>) | Aborted(error: JsError, reports: seq<Report>)

  /** An assembly preceded by the reports issued before it. */
  function Prefixed(rs: seq<Report>, a: Assembly): (r: Assembly)
    ensures r.Assembled? == a.Assembled? && r.reports == rs + a.reports
    ensures r.Assembled? ==> r.text == a.text
    ensures r.Aborted? ==> r.error == a.error
  {
    match a
    case Assembled(text, more) => Assembled(text, rs + more)
    case Aborted(e, more) => Aborted(e, rs + more)
  }

  /**
   * The source directory of each member, as `getDir(extname(member), 'source')`
   * gives it; it is consulted only for members whose path resolves, where
   * that call succeeds.
   */
  type DirOf = string -> string

  function SourceDirOf(config: Config): DirOf {
    m => SourceDir(config, m)
  }

  /** `getDir(extname(m), 'source')`, as the message of a missing file quotes it. */
  function SourceDir(config: Config, m: string): string {
    match GetDir(config, ExtName(m), "source")
    case Ok(d) => d
    case Err(_) => ""
  }

  /**
   * `addFiles`: reads the members in order, appending each file's contents and
   * a newline; a read error is reported and the member skipped; a member whose
   * path cannot be resolved or does not exist ends the bundle with an exception.
   */
  function AddFilesOf(res: Resolution, dirs: DirOf, fs: FileSystem, members: seq<string>, out: string): Assembly {
    if members == [] then Assembled(out, [])
    else
      match res(members[0])
      case Err(e) => Aborted(e, [])
      case Ok(p) =>
        match fs(p)
        case Missing => Aborted(NotFound(p, members[0], dirs(members[0])), [])
        case ReadError(e) => Prefixed([ErrorReport(e)], AddFilesOf(res, dirs, fs, members[1..], out))
        case Content(c) => AddFilesOf(res, dirs, fs, members[1..], out + c + "\n")
  }

  /** What one member adds to the bundle text: its content and a newline, or nothing. */
  function Piece(res: Resolution, fs: FileSystem, m: string): string {
    if res(m).Ok? && fs(res(m).value).Content? then fs(res(m).value).text + "\n" else ""
  }

  /** What one member adds to the reports: its read error, or nothing. */
  function Fault(res: Resolution, fs: FileSystem, m: string): seq<Report> {
    if res(m).Ok? && fs(res(m).value).ReadError? then [ErrorReport(fs(res(m).value).error)] else []
  }

  /** The contents of every readable member followed by a newline, in declared order. */
  function Contents(res: Resolution, fs: FileSystem, members: seq<string>): string {
    if members == [] then "" else Piece(res, fs, members[0]) + Contents(res, fs, members[1..])
  }

  /** One report per member whose read fails, in declared order. */
  function ReadReports(res: Resolution, fs: FileSystem, members: seq<string>): seq<Report> {
    if members == [] then [] else Fault(res, fs, members[0]) + ReadReports(res, fs, members[1..])
  }

  /** Every member resolves to a path that exists (it may still fail to read). */
  predicate Locatable(res: Resolution, fs: FileSystem, m: string) {
    res(m).Ok? && !fs(res(m).value).Missing?
  }

  predicate AllReadable(res: Resolution, fs: FileSystem, members: seq<string>) {
    forall i :: 0 <= i < |members| ==> Locatable(res, fs, members[i])
  }

  /**
   * When every member resolves to an existing file, the bundle text is the
   * starting text followed by `content + "\n"` for each readable member in
   * declared order, and each read error is reported, in order.
   */
  lemma {:induction false} AddFilesConcatenates(res: Resolution, dirs: DirOf, fs: FileSystem, members: seq<string>, out: string)
    requires AllReadable(res, fs, members)
    ensures AddFilesOf(res, dirs, fs, members, out) ==
            Assembled(out + Contents(res, fs, members), ReadReports(res, fs, members))
    decreases |members|
  {
    if members != [] {
      var m, rest := members[0], members[1..];
      assert AllReadable(res, fs, rest) by {
        forall i | 0 <= i < |rest| ensures Locatable(res, fs, rest[i]) {
          assert rest[i] == members[i + 1];
        }
      }
      var next := out + Piece(res, fs, m);
      AddFilesStep(res, dirs, fs, members, out);
      AddFilesConcatenates(res, dirs, fs, rest, next);
      assert next + Contents(res, fs, rest) == out + Contents(res, fs, members);
    }
  }

  /** One member of a bundle whose first member can be located. */
  lemma AddFilesStep(res: Resolution, dirs: DirOf, fs: FileSystem, members: seq<string>, out: string)
    requires members != [] && Locatable(res, fs, members[0])
    ensures AddFilesOf(res, dirs, fs, members, out) ==
            Prefixed(Fault(res, fs, members[0]), AddFilesOf(res, dirs, fs, members[1..], out + Piece(res, fs, members[0])))
  {
    var a := AddFilesOf(res, dirs, fs, members[1..], out + Piece(res, fs, members[0]));
    var c := fs(res(members[0]).value);
    if c.Content? {
      assert out + c.text + "\n" == out + Piece(res, fs, members[0]);
      assert Prefixed([], a) == a by {
        assert [] + a.reports == a.reports;
      }
    } else {
      assert out + Piece(res, fs, members[0]) == out;
    }
  }

  /** The bundle ends with an exception exactly when some member cannot be read at all. */
  lemma {:induction false} AddFilesAborts(res: Resolution, dirs: DirOf, fs: FileSystem, members: seq<string>, out: string)
    ensures AddFilesOf(res, dirs, fs, members, out).Aborted? <==> !AllReadable(res, fs, members)
    decreases |members|
  {
    if members != [] {
      var m := members[0];
      var p := res(m);
      if Locatable(res, fs, m) {
        var next := if fs(p.value).Content? then out + fs(p.value).text + "\n" else out;
        AddFilesAborts(res, dirs, fs, members[1..], next);
        assert AllReadable(res, fs, members) <==> AllReadable(res, fs, members[1..]) by {
          if AllReadable(res, fs, members[1..]) {
            forall i | 0 <= i < |members| ensures Locatable(res, fs, members[i]) {
              if i > 0 { assert members[i] == members[1..][i - 1]; }
            }
          }
          if AllReadable(res, fs, members) {
            forall i | 0 <= i < |members[1..]| ensures Locatable(res, fs, members[1..][i]) {
              assert members[1..][i] == members[i + 1];
            }
          }
        }
      } else {
        assert !AllReadable(res, fs, members) by {
          assert !Locatable(res, fs, members[0]);
        }
      }
    }
  }

  // -------------------------------------------------------- render / writeOut

  /** `less.render`: the compiled CSS, or the error it reports. */
  type LessCompiler = string -> Result<string, JsError>

  /** `yui.compile`: the compressed text, or an error; the flag asks for CSS compression. */
  type Compressor = (string, bool) -> Result<string, JsError>

  function FailReport(buildFile: string, e: JsError): Report {
    Report(["Failed to build bundle: ", buildFile, e.message])
  }

  /** What reaches the bundle's callback: the written output path, or the error. */
  datatype Rendered = Written(file: string, content: string) | Failed(error: JsError)

  datatype RenderOutcome = RenderOutcome(result: Rendered, reports: seq<Report>)

  /**
   * `render` followed by `writeOut`: a CSS bundle goes through less and then,
   * when compressing, through CSS compression; any other bundle is compressed
   * as script when compressing.  A compiler error is reported, passed to the
   * callback, and nothing is written.
   */
  function RenderOf(text: string, buildFile: string, compress: bool, less: LessCompiler, yui: Compressor): RenderOutcome {
    if ExtName(buildFile) == ".css" then
      match less(text)
      case Err(e) => RenderOutcome(Failed(e), [FailReport(buildFile, e)])
      case Ok(css) =>
        if compress then
          match yui(css, true)
          case Err(e) => RenderOutcome(Failed(e), [FailReport(buildFile, e)])
          case Ok(min) => RenderOutcome(Written(buildFile, min), [])
        else RenderOutcome(Written(buildFile, css), [])
    else if compress then
      match yui(text, false)
      case Err(e) => RenderOutcome(Failed(e), [FailReport(buildFile, e)])
      case Ok(min) => RenderOutcome(Written(buildFile, min), [])
    else RenderOutcome(Written(buildFile, text), [])
  }

  /** Whether every compiler stage the bundle goes through succeeds. */
  predicate Compiles(text: string, buildFile: string, compress: bool, less: LessCompiler, yui: Compressor) {
    if ExtName(buildFile) == ".css" then less(text).Ok? && (compress ==> yui(less(text).value, true).Ok?)
    else compress ==> yui(text, false).Ok?
  }

  /**
   * A bundle is written, to its own build path and silently, exactly when
   * every stage compiles; otherwise one failure report names the bundle and
   * the error reaches the callback.  An uncompressed script bundle is written
   * as assembled.
   */
  lemma RenderRouting(text: string, buildFile: string, compress: bool, less: LessCompiler, yui: Compressor)
    ensures var r := RenderOf(text, buildFile, compress, less, yui);
      && (r.result.Written? <==> Compiles(text, buildFile, compress, less, yui))
      && (r.result.Written? ==> r.result.file == buildFile && r.reports == [])
      && (r.result.Failed? ==> r.reports == [FailReport(buildFile, r.result.error)])
      && (!compress && ExtName(buildFile) != ".css" ==> r.result == Written(buildFile, text))
  {
    var r := RenderOf(text, buildFile, compress, less, yui);
    if ExtName(buildFile) == ".css" {
      match less(text)
      case Err(e) => assert r == RenderOutcome(Failed(e), [FailReport(buildFile, e)]);
      case Ok(css) =>
        if compress {
          match yui(css, true)
          case Err(e) => assert r == RenderOutcome(Failed(e), [FailReport(buildFile, e)]);
          case Ok(min) => assert r == RenderOutcome(Written(buildFile, min), []);
        } else {
          assert r == RenderOutcome(Written(buildFile, css), []);
        }
    } else if compress {
      match yui(text, false)
      case Err(e) => assert r == RenderOutcome(Failed(e), [FailReport(buildFile, e)]);
      case Ok(min) => assert r == RenderOutcome(Written(buildFile, min), []);
    } else {
      assert r == RenderOutcome(Written(buildFile, text), []);
    }
  }

  // ------------------------------------------------------------------- bundle

  /** One dispatched bundle: where it is written, its preamble, and its members. */
  datatype Job = Job(output: string, preamble: string, members: seq<string>)

  /** `config.bundles[name].slice(0)` when the bundle is not defined. */
  const SliceError := JsError("TypeError", "Cannot call method 'slice' of undefined")

  /** The preamble for a bundle of the given extension, with the reports it issues. */
  function PreambleOf(config: Config, ext: string): CssOutcome {
    var variables := Lookup(config, "variables");
    if ext == ".js" then CssOutcome(Ok(JsPreamble(variables)), [])
    else if ext == ".css" then CssPreamble(ForIn(variables))
    else CssOutcome(Ok(""), [])
  }

  /** The members listed for a bundle, if it is defined as a list of file names. */
  function MembersOf(config: Config, name: string): Option<seq<string>> {
    var bundles := Lookup(config, "bundles");
    var v := if bundles.Obj? then Lookup(bundles.fields, name) else Undef;
    if IsMemberList(v) then Some(Members(v)) else None
  }

  /**
   * The synchronous part of one iteration of `bundle`'s loop: the output path,
   * the preamble, the copy of the member list, and the resolution of the
   * first member (which `addFiles` reads at once).  Any of these can throw.
   */
  function JobOf(config: Config, name: string): (Result<Job, JsError>, seq<Report>) {
    match OutputPath(config, name)
    case Err(e) => (Err(e), [])
    case Ok(full) =>
      var pre := PreambleOf(config, ExtName(name));
      match pre.out
      case Err(e) => (Err(e), pre.reports)
      case Ok(text) => (JobFor(config, name, full, text), pre.reports)
  }

  /**
   * The job of a bundle whose output path and preamble are known: its member
   * list must be a list, and its first member must resolve.
   */
  function JobFor(config: Config, name: string, full: string, text: string): Result<Job, JsError> {
    match MembersOf(config, name)
    case None => Err(SliceError)
    case Some(ms) =>
      if ms != [] && Resolve(config, ms[0]).Err? then Err(Resolve(config, ms[0]).error)
      else Ok(Job(full, text, ms))
  }

  /** One iteration of the dispatch loop, as a function of the bundle name. */
  type JobSource = string -> (Result<Job, JsError>, seq<Report>)

  function Jobs(config: Config): JobSource {
    name => JobOf(config, name)
  }

  /** The bundles dispatched, the reports issued, and the exception that stopped the loop, if any. */
  datatype Dispatch = Dispatch(jobs: seq<Job>, reports: seq<Report>, thrown: Option<JsError>)

  /** `bundle(names, ...)`: the loop, which an exception ends. */
  function DispatchOf(src: JobSource, names: seq<string>): Dispatch {
    if names == [] then Dispatch([], [], None)
    else
      var prev := DispatchOf(src, names[..|names| - 1]);
      if prev.thrown.Some? then prev
      else
        var (j, rs) := src(names[|names| - 1]);
        match j
        case Err(e) => Dispatch(prev.jobs, prev.reports + rs, Some(e))
        case Ok(job) => Dispatch(prev.jobs + [job], prev.reports + rs, None)
  }

  /**
   * Without an exception every named bundle is dispatched, in order; with
   * one, the bundles before the first failing name are dispatched and no other.
   */
  lemma {:induction false} DispatchSpec(src: JobSource, names: seq<string>)
    ensures var d := DispatchOf(src, names);
      && |d.jobs| <= |names|
      && (forall i :: 0 <= i < |d.jobs| ==> src(names[i]).0 == Ok(d.jobs[i]))
      && (d.thrown.None? <==> |d.jobs| == |names|)
      && (d.thrown.Some? ==> src(names[|d.jobs|]).0 == Err(d.thrown.value))
  {
    if names != [] {
      var init := names[..|names| - 1];
      DispatchSpec(src, init);
      var prev := DispatchOf(src, init);
      forall i | 0 <= i < |prev.jobs| ensures names[i] == init[i] { }
    }
  }

  /** A bundle whose name has an extension without a `<ext>Dir` setting, such as `.less`, throws. */
  lemma UnknownTypeThrows(config: Config, name: string)
    requires HasDefaultKeys(config)
    requires HasPrefix(ExtName(name), ".")
    requires ExtName(name)[1..] + "Dir" !in Keys(config)
    ensures JobOf(config, name).0 == Err(JoinTypeError)
  {
    GetDirDottedUsesGlobal(config, ExtName(name), "build");
  }

  /** A name missing from `bundles` throws when its member list is copied. */
  lemma UndefinedBundleThrows(config: Config, name: string)
    requires Lookup(config, "bundles").Obj?
    requires name !in Keys(Lookup(config, "bundles").fields)
    requires OutputPath(config, name).Ok? && PreambleOf(config, ExtName(name)).out.Ok?
    ensures JobOf(config, name).0 == Err(SliceError)
  {
  }

  /**
   * In the documented form, the member list of every bundle defined, and of
   * no other name, is copied, and it names the same files, in the same
   * order, as the members getFileList and getFiles read for that bundle.
   */
  lemma MembersOfSpec(config: Config, name: string)
    requires BundlesShaped(Lookup(config, "bundles"))
    ensures MembersOf(config, name).Some? <==> name in Keys(Lookup(config, "bundles").fields)
    ensures MembersOf(config, name).Some? ==>
              var ms := MembersOf(config, name).value;
              MemberValues(Lookup(Lookup(config, "bundles").fields, name)) ==
              Ok(seq(|ms|, j requires 0 <= j < |ms| => Str(ms[j])))
  {
    var f := Lookup(config, "bundles").fields;
    var v := Lookup(f, name);
    if name in Keys(f) {
      var i :| 0 <= i < |f| && f[i] == (name, v);
      assert IsMemberList(f[i].1);
      var ms := Members(v);
      assert v.items == seq(|ms|, j requires 0 <= j < |ms| => Str(ms[j]));
    }
  }
}
