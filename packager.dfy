/**
 * The packager object: its configuration, which loading overwrites key by
 * key, and the reporter it sends messages to (modelled as the sequence of
 * reports issued).  The table methods walk the bundle definitions with
 * nested loops, and `pack` dispatches every bundle and counts the outcomes.
 */
module Packager {
  import opened Wrappers
  import opened JsObject
  import opened JsValue
  import opened Paths
  import opened Sequences
  import opened PackagerConfig
  import opened Assembly
  import opened PackRuns

  // ------------------------------------------------------------ loadConfig

  /** Reading and parsing a manifest file: the parsed value, or the error thrown. */
  type ManifestReader = string -> Result<Value, JsError>

  /** Whether `loadConfig` runs its callback, skips it, or throws. */
  datatype LoadOutcome = Loaded | Ignored | LoadFailed(error: JsError)

  /**
   * `loadConfig(v, callback)`: a string names a manifest file, which is read
   * and parsed and then merged; an object (including `null` and arrays) is
   * merged directly; any other value is ignored and the callback never runs.
   */
  function LoadOf(config: Config, v: Value, read: ManifestReader): (Config, LoadOutcome) {
    if v.Str? then
      match read(v.s)
      case Err(e) => (config, LoadFailed(e))
      case Ok(parsed) => (Merge(config, ForIn(parsed)), Loaded)
    else if Typeof(v) == "object" then (Merge(config, ForIn(v)), Loaded)
    else (config, Ignored)
  }

  // -------------------------------------------------------- table iteration

  lemma PathsSnoc(res: Resolution, occ: seq<(string, Value)>, x: (string, Value))
    ensures var r := ResolveMember(res, x.1);
      ResolvedPaths(res, occ + [x]) == ResolvedPaths(res, occ) + (if r.Ok? then [r.value] else [])
    ensures var r := ResolveMember(res, x.1);
      ResolveReports(res, occ + [x]) == ResolveReports(res, occ) + (if r.Err? then [ErrorReport(r.error)] else [])
  {
    assert (occ + [x])[..|occ|] == occ;
  }

  lemma IndexSnoc(res: Resolution, occ: seq<(string, Value)>, x: (string, Value))
    ensures var r := ResolveMember(res, x.1);
      ResolveReports(res, occ + [x]) == ResolveReports(res, occ) + (if r.Err? then [ErrorReport(r.error)] else [])
    ensures var r := ResolveMember(res, x.1);
      IndexOf(res, occ + [x]) ==
      if r.Ok? then Put(IndexOf(res, occ), r.value, Get(IndexOf(res, occ), r.value).GetOr([]) + [x.0])
      else IndexOf(res, occ)
  {
    assert (occ + [x])[..|occ|] == occ;
  }

  lemma OccurrencesStep(defs: seq<(string, Value)>, i: nat)
    requires i < |defs| && MemberValues(defs[i].1).Ok?
    ensures Occurrences(defs[..i + 1]) == Occurrences(defs[..i]) + Pairs(defs[i].0, MemberValues(defs[i].1).value)
  {
    assert defs[..i + 1][..i] == defs[..i];
  }

  lemma PairsStep(occ: seq<(string, Value)>, name: string, members: seq<Value>, j: nat)
    requires j < |members|
    ensures occ + Pairs(name, members)[..j + 1] == (occ + Pairs(name, members)[..j]) + [(name, members[j])]
  {
    assert Pairs(name, members)[..j + 1] == Pairs(name, members)[..j] + [(name, members[j])];
  }

  lemma PairsEnds(occ: seq<(string, Value)>, name: string, members: seq<Value>)
    ensures occ + Pairs(name, members)[..0] == occ
    ensures Pairs(name, members)[..|members|] == Pairs(name, members)
  {
    assert occ + Pairs(name, members)[..0] == occ;
  }

  lemma DedupeSnoc<T>(s: seq<T>, x: T)
    ensures Dedupe(s + [x]) == if x in Dedupe(s) then Dedupe(s) else Dedupe(s) + [x]
  {
    assert (s + [x])[..|s|] == s;
  }

  /** Once a variable throws, the rest are never looked at. */
  lemma {:induction false} CssPreambleSticky(vars: seq<(string, Value)>, k: nat)
    requires k <= |vars| && CssPreamble(vars[..k]).out.Err?
    ensures CssPreamble(vars) == CssPreamble(vars[..k])
    decreases |vars|
  {
    if k < |vars| {
      var init := vars[..|vars| - 1];
      assert init[..k] == vars[..k];
      CssPreambleSticky(init, k);
    } else {
      assert vars[..k] == vars;
    }
  }

  /** Once a bundle throws, the names after it are never dispatched. */
  lemma {:induction false} DispatchSticky(src: JobSource, names: seq<string>, k: nat)
    requires k <= |names| && DispatchOf(src, names[..k]).thrown.Some?
    ensures DispatchOf(src, names) == DispatchOf(src, names[..k])
    decreases |names|
  {
    if k < |names| {
      var init := names[..|names| - 1];
      assert init[..k] == names[..k];
      DispatchSticky(src, init, k);
    } else {
      assert names[..k] == names;
    }
  }

  lemma SliceAfter<T>(a: seq<T>, b: seq<T>)
    ensures (a + b)[|a|..] == b
  {
  }

  /** One more name through the dispatch loop. */
  lemma DispatchStep(src: JobSource, names: seq<string>, i: nat)
    requires i < |names| && DispatchOf(src, names[..i]).thrown.None?
    ensures var prev := DispatchOf(src, names[..i]);
      DispatchOf(src, names[..i + 1]) ==
        match src(names[i]).0
        case Err(e) => Dispatch(prev.jobs, prev.reports + src(names[i]).1, Some(e))
        case Ok(job) => Dispatch(prev.jobs + [job], prev.reports + src(names[i]).1, None)
  {
    assert names[..i + 1][..i] == names[..i];
  }

  lemma PrefixedTwice(a: seq<Report>, b: seq<Report>, x: Assembly)
    ensures Prefixed(a, Prefixed(b, x)) == Prefixed(a + b, x)
  {
    assert a + (b + x.reports) == (a + b) + x.reports;
  }

  // ------------------------------------------------------------------- pack

  /** The file system and the two compilers a run of `pack` sees. */
  datatype World = World(fs: FileSystem, less: LessCompiler, yui: Compressor)

  /** What `afterBundle` reports for an outcome. */
  function AfterReport(r: Rendered): seq<Report> {
    if r.Failed? then [ErrorReport(r.error)] else []
  }

  /** Reading the members of a dispatched bundle, and rendering the text to an output path. */
  type Assembler = Job -> Assembly
  type Renderer = (string, string) -> RenderOutcome

  function AssembleWith(res: Resolution, dirs: DirOf, fs: FileSystem): Assembler {
    (job: Job) => AddFilesOf(res, dirs, fs, job.members, job.preamble)
  }

  function RenderWith(compress: bool, less: LessCompiler, yui: Compressor): Renderer {
    (text: string, file: string) => RenderOf(text, file, compress, less, yui)
  }

  /** The outcome of a bundle whose members can all be read. */
  function Outcome(assemble: Assembler, render: Renderer, job: Job): Rendered
    requires assemble(job).Assembled?
  {
    render(assemble(job).text, job.output).result
  }

  predicate AllAssemble(assemble: Assembler, jobs: seq<Job>) {
    forall i :: 0 <= i < |jobs| ==> assemble(jobs[i]).Assembled?
  }

  /** The outcomes of the bundles in the order they were dispatched. */
  function Outcomes(assemble: Assembler, render: Renderer, jobs: seq<Job>): (r: seq<Rendered>)
    requires AllAssemble(assemble, jobs)
    ensures |r| == |jobs|
  {
    seq(|jobs|, i requires 0 <= i < |jobs| => Outcome(assemble, render, jobs[i]))
  }

  /** The outcomes that reach `afterBundle` and the reports issued on the way. */
  datatype Delivery = Delivery(results: seq<Rendered>, reports: seq<Report>)

  /**
   * The dispatched bundles finishing in the order `order` names them: each
   * is assembled, rendered and handed to `afterBundle`, until one ends with an
   * exception, after which nothing more happens.
   */
  function Deliver(assemble: Assembler, render: Renderer, jobs: seq<Job>, order: seq<nat>): Delivery
    requires Below(order, |jobs|)
    decreases |order|
  {
    if order == [] then Delivery([], [])
    else
      var job := jobs[order[0]];
      match assemble(job)
      case Aborted(_, rs) => Delivery([], rs)
      case Assembled(text, rs) =>
        var r := render(text, job.output);
        var rest := Deliver(assemble, render, jobs, order[1..]);
        Delivery([r.result] + rest.results, rs + r.reports + AfterReport(r.result) + rest.reports)
  }

  /**
   * The delivery loop after `k` arrivals: what has arrived and what has been
   * reported, followed by what the remaining arrivals deliver, is the whole run.
   */
  ghost predicate Progress(assemble: Assembler, render: Renderer, jobs: seq<Job>, order: seq<nat>, k: nat,
                           arrived: seq<Rendered>, issued: seq<Report>)
    requires Below(order, |jobs|) && k <= |order|
  {
    var rest := Deliver(assemble, render, jobs, order[k..]);
    Deliver(assemble, render, jobs, order) == Delivery(arrived + rest.results, issued + rest.reports)
  }

  lemma ProgressStart(assemble: Assembler, render: Renderer, jobs: seq<Job>, order: seq<nat>)
    requires Below(order, |jobs|)
    ensures Progress(assemble, render, jobs, order, 0, [], [])
  {
    assert order[0..] == order;
  }

  lemma ProgressEnd(assemble: Assembler, render: Renderer, jobs: seq<Job>, order: seq<nat>,
                    arrived: seq<Rendered>, issued: seq<Report>)
    requires Below(order, |jobs|) && Progress(assemble, render, jobs, order, |order|, arrived, issued)
    ensures Deliver(assemble, render, jobs, order) == Delivery(arrived, issued)
  {
    assert order[|order|..] == [];
  }

  /** One more bundle finishing, as the delivery loop sees it. */
  lemma ProgressStep(assemble: Assembler, render: Renderer, jobs: seq<Job>, order: seq<nat>, k: nat,
                     arrived: seq<Rendered>, issued: seq<Report>)
    requires Below(order, |jobs|) && k < |order|
    requires Progress(assemble, render, jobs, order, k, arrived, issued)
    ensures var job := jobs[order[k]];
      var a := assemble(job);
      if a.Aborted? then Deliver(assemble, render, jobs, order) == Delivery(arrived, issued + a.reports)
      else
        var r := render(a.text, job.output);
        Progress(assemble, render, jobs, order, k + 1,
                 arrived + [r.result], issued + (a.reports + r.reports + AfterReport(r.result)))
  {
    assert order[k..][1..] == order[k + 1..];
    var job := jobs[order[k]];
    var a := assemble(job);
    if a.Aborted? {
      assert arrived + [] == arrived;
    } else {
      var r := render(a.text, job.output);
      var next := Deliver(assemble, render, jobs, order[k + 1..]);
      assert arrived + ([r.result] + next.results) == (arrived + [r.result]) + next.results;
      assert issued + (a.reports + r.reports + AfterReport(r.result) + next.reports)
          == (issued + (a.reports + r.reports + AfterReport(r.result))) + next.reports;
    }
  }

  /** When every bundle can be read, each arrives once, in the order given. */
  lemma {:induction false} DeliverComplete(assemble: Assembler, render: Renderer, jobs: seq<Job>, order: seq<nat>)
    requires Below(order, |jobs|) && AllAssemble(assemble, jobs)
    ensures Deliver(assemble, render, jobs, order).results == Arrange(Outcomes(assemble, render, jobs), order)
    decreases |order|
  {
    if order != [] {
      DeliverComplete(assemble, render, jobs, order[1..]);
      assert assemble(jobs[order[0]]).Assembled?;
    }
  }

  /** A bundle that ends with an exception stops the arrivals before it. */
  lemma {:induction false} DeliverStalls(assemble: Assembler, render: Renderer, jobs: seq<Job>, order: seq<nat>, k: nat)
    requires Below(order, |jobs|) && k < |order|
    requires assemble(jobs[order[k]]).Aborted?
    ensures |Deliver(assemble, render, jobs, order).results| <= k
    decreases |order|
  {
    if k > 0 {
      DeliverStalls(assemble, render, jobs, order[1..], k - 1);
    }
  }

  /**
   * When every bundle can be read and the bundles finish in any order, the
   * final callback fires exactly once if there is at least one bundle, with
   * the output paths of the written bundles: the same paths, with the same
   * multiplicities, whatever the order; and the same number of failures.
   */
  lemma PackCompletes(assemble: Assembler, render: Renderer, jobs: seq<Job>, order: seq<nat>)
    requires IsArrangement(order, |jobs|) && AllAssemble(assemble, jobs)
    ensures Below(order, |jobs|)
    ensures var rs := Deliver(assemble, render, jobs, order).results;
      var declared := Outcomes(assemble, render, jobs);
      && Fired(|jobs|, rs) == (if jobs == [] then [] else [Successes(rs)])
      && multiset(Successes(rs)) == multiset(Successes(declared))
      && Failures(rs) == Failures(declared)
  {
    var declared := Outcomes(assemble, render, jobs);
    ArrangePermutes(declared, order);
    DeliverComplete(assemble, render, jobs, order);
    var rs := Deliver(assemble, render, jobs, order).results;
    FiredSpec(|jobs|, rs);
    ArrivalOrderIrrelevant(rs, declared);
  }

  /** If any bundle ends with an exception, the final callback never fires. */
  lemma PackStalls(assemble: Assembler, render: Renderer, jobs: seq<Job>, order: seq<nat>, i: nat)
    requires IsArrangement(order, |jobs|) && i < |jobs|
    requires assemble(jobs[i]).Aborted?
    ensures Below(order, |jobs|)
    ensures Fired(|jobs|, Deliver(assemble, render, jobs, order).results) == []
  {
    ArrangementBounded(order, |jobs|);
    assert i in multiset(Range(|jobs|)) by { assert Range(|jobs|)[i] == i; }
    assert i in multiset(order);
    var k :| 0 <= k < |order| && order[k] == i;
    DeliverStalls(assemble, render, jobs, order, k);
    FiredSpec(|jobs|, Deliver(assemble, render, jobs, order).results);
  }

  /** No more outcomes arrive than there are arrivals. */
  lemma {:induction false} DeliverLength(assemble: Assembler, render: Renderer, jobs: seq<Job>, order: seq<nat>)
    requires Below(order, |jobs|)
    ensures |Deliver(assemble, render, jobs, order).results| <= |order|
    decreases |order|
  {
    if order != [] {
      DeliverLength(assemble, render, jobs, order[1..]);
    }
  }

  /**
   * The final callback of `pack` over names `names`: it fires, once and with
   * the written output paths, exactly when the dispatch loop did not throw,
   * every dispatched bundle could be read and there was at least one name.
   * Bundles dispatched before an exception still finish, but the callback
   * waits for all of `names`, so it never fires.
   */
  lemma PackCallback(src: JobSource, names: seq<string>, assemble: Assembler, render: Renderer, order: seq<nat>)
    requires IsArrangement(order, |DispatchOf(src, names).jobs|)
    ensures Below(order, |DispatchOf(src, names).jobs|)
    ensures var d := DispatchOf(src, names);
      var rs := Deliver(assemble, render, d.jobs, order).results;
      Fired(|names|, rs) ==
        if d.thrown.None? && AllAssemble(assemble, d.jobs) && names != [] then [Successes(rs)] else []
  {
    var d := DispatchOf(src, names);
    DispatchSpec(src, names);
    ArrangementBounded(order, |d.jobs|);
    var rs := Deliver(assemble, render, d.jobs, order).results;
    DeliverLength(assemble, render, d.jobs, order);
    if d.thrown.Some? {
      FiredSpec(|names|, rs);
    } else if AllAssemble(assemble, d.jobs) {
      PackCompletes(assemble, render, d.jobs, order);
    } else {
      var i :| 0 <= i < |d.jobs| && !assemble(d.jobs[i]).Assembled?;
      PackStalls(assemble, render, d.jobs, order, i);
    }
  }

  /** The options of `pack`: a manifest (or `undefined`), the bundle names, the compress flag. */
  datatype PackOptions = PackOptions(config: Value, bundles: Option<seq<string>>, compress: bool)

  /** The configuration `pack` bundles with, and whether bundling starts at all. */
  function PackConfig(config: Config, options: PackOptions, read: ManifestReader): (r: (Config, LoadOutcome))
    ensures !Truthy(options.config) ==> r == (config, Loaded)
    ensures Truthy(options.config) ==> r == LoadOf(config, options.config, read)
  {
    if Truthy(options.config) then LoadOf(config, options.config, read) else (config, Loaded)
  }

  /** The bundle names `pack` works on: those given, or every bundle of the configuration. */
  function PackNames(config: Config, bundles: Option<seq<string>>): (names: seq<string>)
    ensures bundles.Some? ==> names == bundles.value
    ensures bundles.None? ==> names == BundleList(config)
  {
    match bundles
    case Some(b) => b
    case None => BundleList(config)
  }

  // --------------------------------------------------------------- packager

  class Packager {
    var config: Config
    var reports: seq<Report>

    constructor()
      ensures config == DefaultConfig && reports == []
    {
      config := DefaultConfig;
      reports := [];
    }

    /** `processConfigObject(obj)`: copies each key of `obj` that the configuration has. */
    method ProcessConfigObject(obj: Entries<Value>)
      modifies this
      ensures config == Merge(old(config), obj)
      ensures reports == old(reports)
    {
      var i := 0;
      while i < |obj|
        invariant 0 <= i <= |obj|
        invariant config == Merge(old(config), obj[..i])
        invariant reports == old(reports)
      {
        var (k, v) := obj[i];
        assert obj[..i + 1][..i] == obj[..i];
        if k in Keys(config) {
          config := Put(config, k, v);
        }
        i := i + 1;
      }
      assert obj[..|obj|] == obj;
    }

    /** `loadConfig` and `loadConfigSync`. */
    method LoadConfig(v: Value, read: ManifestReader) returns (outcome: LoadOutcome)
      modifies this
      ensures (config, outcome) == LoadOf(old(config), v, read)
      ensures reports == old(reports)
    {
      if v.Str? {
        match read(v.s)
        case Err(e) =>
          outcome := LoadFailed(e);
        case Ok(parsed) =>
          ProcessConfigObject(ForIn(parsed));
          outcome := Loaded;
      } else if Typeof(v) == "object" {
        ProcessConfigObject(ForIn(v));
        outcome := Loaded;
      } else {
        outcome := Ignored;
      }
    }

    /** `getBundleList()`. */
    method GetBundleList() returns (names: seq<string>)
      ensures names == BundleList(config)
    {
      var bundles := ForIn(Lookup(config, "bundles"));
      names := [];
      var i := 0;
      while i < |bundles|
        invariant 0 <= i <= |bundles|
        invariant names == Keys(bundles)[..i]
      {
        names := names + [bundles[i].0];
        i := i + 1;
      }
      assert Keys(bundles)[..|bundles|] == Keys(bundles);
    }

    /** The inner loop of `getFileList`: one bundle's members, deduplicated into `files`. */
    method ListMembers(res: Resolution, name: string, members: seq<Value>, files0: seq<string>, rs0: seq<Report>,
                       ghost occ: seq<(string, Value)>, ghost base: seq<Report>)
      returns (files: seq<string>, rs: seq<Report>)
      requires files0 == Dedupe(ResolvedPaths(res, occ))
      requires rs0 == base + ResolveReports(res, occ)
      ensures files == Dedupe(ResolvedPaths(res, occ + Pairs(name, members)))
      ensures rs == base + ResolveReports(res, occ + Pairs(name, members))
    {
      PairsEnds(occ, name, members);
      files := files0;
      rs := rs0;
      var j := 0;
      while j < |members|
        invariant 0 <= j <= |members|
        invariant files == Dedupe(ResolvedPaths(res, occ + Pairs(name, members)[..j]))
        invariant rs == base + ResolveReports(res, occ + Pairs(name, members)[..j])
      {
        files, rs := ListNext(res, name, members, j, files, rs, occ, base);
        j := j + 1;
      }
    }

    /** Step `j` of the inner loop of `getFileList`. */
    method ListNext(res: Resolution, name: string, members: seq<Value>, j: nat, files0: seq<string>, rs0: seq<Report>,
                    ghost occ: seq<(string, Value)>, ghost base: seq<Report>)
      returns (files: seq<string>, rs: seq<Report>)
      requires j < |members|
      requires files0 == Dedupe(ResolvedPaths(res, occ + Pairs(name, members)[..j]))
      requires rs0 == base + ResolveReports(res, occ + Pairs(name, members)[..j])
      ensures files == Dedupe(ResolvedPaths(res, occ + Pairs(name, members)[..j + 1]))
      ensures rs == base + ResolveReports(res, occ + Pairs(name, members)[..j + 1])
    {
      var issued;
      ghost var prefix := occ + Pairs(name, members)[..j];
      PairsStep(occ, name, members, j);
      ConcatAssoc(base, ResolveReports(res, prefix), ResolveReports(res, [(name, members[j])]));
      files, issued := ListMember(res, name, members[j], files0, prefix);
      rs := rs0 + issued;
    }

    /** One member of `getFileList`'s inner loop: its path is added unless already listed. */
    method ListMember(res: Resolution, name: string, member: Value, files0: seq<string>,
                      ghost occ: seq<(string, Value)>)
      returns (files: seq<string>, issued: seq<Report>)
      requires files0 == Dedupe(ResolvedPaths(res, occ))
      ensures files == Dedupe(ResolvedPaths(res, occ + [(name, member)]))
      ensures issued == ResolveReports(res, [(name, member)])
      ensures ResolveReports(res, occ + [(name, member)]) == ResolveReports(res, occ) + issued
    {
      PathsSnoc(res, occ, (name, member));
      PathsSnoc(res, [], (name, member));
      match ResolveMember(res, member) {
        case Ok(p) =>
          DedupeSnoc(ResolvedPaths(res, occ), p);
          files := files0;
          if p !in files {
            files := files + [p];
          }
          issued := [];
        case Err(e) =>
          files := files0;
          issued := [ErrorReport(e)];
      }
    }

    /** One readable entry of `getFileList`'s outer loop. */
    method ListEntry(res: Resolution, bundles: seq<(string, Value)>, i: nat, files0: seq<string>, rs0: seq<Report>,
                     ghost base: seq<Report>)
      returns (files: seq<string>, rs: seq<Report>)
      requires i < |bundles| && MemberValues(bundles[i].1).Ok?
      requires files0 == Dedupe(ResolvedPaths(res, Occurrences(bundles[..i])))
      requires rs0 == base + ResolveReports(res, Occurrences(bundles[..i]))
      ensures files == Dedupe(ResolvedPaths(res, Occurrences(bundles[..i + 1])))
      ensures rs == base + ResolveReports(res, Occurrences(bundles[..i + 1]))
    {
      var (name, v) := bundles[i];
      OccurrencesStep(bundles, i);
      files, rs := ListMembers(res, name, MemberValues(v).value, files0, rs0, Occurrences(bundles[..i]), base);
    }

    /**
     * The outer loop of `getFileList`, over the entries of the `bundles`
     * setting; reading the `length` of a member list that is `null` or
     * `undefined` throws out of the loop, after the reports issued so far.
     */
    method ListBundles(res: Resolution, bundles: seq<(string, Value)>) returns (out: Result<seq<string>, JsError>)
      modifies this
      ensures config == old(config)
      ensures out == ListOf(res, bundles)
      ensures reports == old(reports) + ResolveReports(res, Occurrences(ReadDefs(bundles)))
    {
      var files := [];
      var rs := reports;
      var i := 0;
      while i < |bundles| && MemberValues(bundles[i].1).Ok?
        invariant 0 <= i <= |bundles|
        invariant forall j :: 0 <= j < i ==> MemberValues(bundles[j].1).Ok?
        invariant files == Dedupe(ResolvedPaths(res, Occurrences(bundles[..i])))
        invariant rs == old(reports) + ResolveReports(res, Occurrences(bundles[..i]))
        modifies {}
      {
        files, rs := ListEntry(res, bundles, i, files, rs, old(reports));
        assert forall j :: 0 <= j < i + 1 ==> MemberValues(bundles[j].1).Ok?;
        i := i + 1;
      }
      ReadStops(res, bundles, i);
      reports := rs;
      out := if i < |bundles| then Err(MemberValues(bundles[i].1).error) else Ok(files);
    }

    /** `getFileList()`. */
    method GetFileList() returns (out: Result<seq<string>, JsError>)
      modifies this
      ensures config == old(config)
      ensures out == FileList(config)
      ensures reports == old(reports) + FileReports(config)
    {
      out := ListBundles(Resolver(config), ForIn(Lookup(config, "bundles")));
    }

    /** The inner loop of `getFiles`: one bundle's members, recorded against their paths. */
    method IndexMembers(res: Resolution, name: string, members: seq<Value>, files0: Entries<seq<string>>, rs0: seq<Report>,
                        ghost occ: seq<(string, Value)>, ghost base: seq<Report>)
      returns (files: Entries<seq<string>>, rs: seq<Report>)
      requires files0 == IndexOf(res, occ)
      requires rs0 == base + ResolveReports(res, occ)
      ensures files == IndexOf(res, occ + Pairs(name, members))
      ensures rs == base + ResolveReports(res, occ + Pairs(name, members))
    {
      PairsEnds(occ, name, members);
      files := files0;
      rs := rs0;
      var j := 0;
      while j < |members|
        invariant 0 <= j <= |members|
        invariant files == IndexOf(res, occ + Pairs(name, members)[..j])
        invariant rs == base + ResolveReports(res, occ + Pairs(name, members)[..j])
      {
        files, rs := IndexNext(res, name, members, j, files, rs, occ, base);
        j := j + 1;
      }
    }

    /** Step `j` of the inner loop of `getFiles`. */
    method IndexNext(res: Resolution, name: string, members: seq<Value>, j: nat, files0: Entries<seq<string>>, rs0: seq<Report>,
                    ghost occ: seq<(string, Value)>, ghost base: seq<Report>)
      returns (files: Entries<seq<string>>, rs: seq<Report>)
      requires j < |members|
      requires files0 == IndexOf(res, occ + Pairs(name, members)[..j])
      requires rs0 == base + ResolveReports(res, occ + Pairs(name, members)[..j])
      ensures files == IndexOf(res, occ + Pairs(name, members)[..j + 1])
      ensures rs == base + ResolveReports(res, occ + Pairs(name, members)[..j + 1])
    {
      var issued;
      ghost var prefix := occ + Pairs(name, members)[..j];
      PairsStep(occ, name, members, j);
      ConcatAssoc(base, ResolveReports(res, prefix), ResolveReports(res, [(name, members[j])]));
      files, issued := IndexMember(res, name, members[j], files0, prefix);
      rs := rs0 + issued;
    }

    /** One member of `getFiles`'s inner loop: the bundle is recorded against the member's path. */
    method IndexMember(res: Resolution, name: string, member: Value, files0: Entries<seq<string>>,
                       ghost occ: seq<(string, Value)>)
      returns (files: Entries<seq<string>>, issued: seq<Report>)
      requires files0 == IndexOf(res, occ)
      ensures files == IndexOf(res, occ + [(name, member)])
      ensures issued == ResolveReports(res, [(name, member)])
      ensures ResolveReports(res, occ + [(name, member)]) == ResolveReports(res, occ) + issued
    {
      IndexSnoc(res, occ, (name, member));
      PathsSnoc(res, [], (name, member));
      match ResolveMember(res, member) {
        case Ok(p) =>
          files := Put(files0, p, Get(files0, p).GetOr([]) + [name]);
          issued := [];
        case Err(e) =>
          files := files0;
          issued := [ErrorReport(e)];
      }
    }

    /** One readable entry of `getFiles`'s outer loop. */
    method IndexEntry(res: Resolution, bundles: seq<(string, Value)>, i: nat, files0: Entries<seq<string>>, rs0: seq<Report>,
                      ghost base: seq<Report>)
      returns (files: Entries<seq<string>>, rs: seq<Report>)
      requires i < |bundles| && MemberValues(bundles[i].1).Ok?
      requires files0 == IndexOf(res, Occurrences(bundles[..i]))
      requires rs0 == base + ResolveReports(res, Occurrences(bundles[..i]))
      ensures files == IndexOf(res, Occurrences(bundles[..i + 1]))
      ensures rs == base + ResolveReports(res, Occurrences(bundles[..i + 1]))
    {
      var (name, v) := bundles[i];
      OccurrencesStep(bundles, i);
      files, rs := IndexMembers(res, name, MemberValues(v).value, files0, rs0, Occurrences(bundles[..i]), base);
    }

    /** The outer loop of `getFiles`, over the entries of the `bundles` setting; it throws as getFileList's does. */
    method IndexBundles(res: Resolution, bundles: seq<(string, Value)>) returns (out: Result<Entries<seq<string>>, JsError>)
      modifies this
      ensures config == old(config)
      ensures out == IndexFor(res, bundles)
      ensures reports == old(reports) + ResolveReports(res, Occurrences(ReadDefs(bundles)))
    {
      var files := [];
      var rs := reports;
      var i := 0;
      while i < |bundles| && MemberValues(bundles[i].1).Ok?
        invariant 0 <= i <= |bundles|
        invariant forall j :: 0 <= j < i ==> MemberValues(bundles[j].1).Ok?
        invariant files == IndexOf(res, Occurrences(bundles[..i]))
        invariant rs == old(reports) + ResolveReports(res, Occurrences(bundles[..i]))
        modifies {}
      {
        files, rs := IndexEntry(res, bundles, i, files, rs, old(reports));
        assert forall j :: 0 <= j < i + 1 ==> MemberValues(bundles[j].1).Ok?;
        i := i + 1;
      }
      ReadStops(res, bundles, i);
      reports := rs;
      out := if i < |bundles| then Err(MemberValues(bundles[i].1).error) else Ok(files);
    }

    /** `getFiles()`: each resolved path with the bundles that include it. */
    method GetFiles() returns (out: Result<Entries<seq<string>>, JsError>)
      modifies this
      ensures config == old(config)
      ensures out == FileIndex(config)
      ensures reports == old(reports) + FileReports(config)
    {
      out := IndexBundles(Resolver(config), ForIn(Lookup(config, "bundles")));
    }

    /** `processVariablesForCSS()` over the given variable entries. */
    method CssVariables(vars: seq<(string, Value)>) returns (out: Result<string, JsError>)
      modifies this
      ensures config == old(config)
      ensures out == CssPreamble(vars).out
      ensures reports == old(reports) + CssPreamble(vars).reports
    {
      var text := "";
      var i := 0;
      while i < |vars|
        invariant 0 <= i <= |vars|
        invariant config == old(config)
        invariant CssPreamble(vars[..i]).out == Ok(text)
        invariant reports == old(reports) + CssPreamble(vars[..i]).reports
      {
        var (name, v) := vars[i];
        assert vars[..i + 1][..i] == vars[..i];
        match v {
          case Null | Arr(_) | Obj(_) =>
            reports := reports + [ObjectVariableReport];
          case Func =>
            reports := reports + [FunctionVariableReport];
          case Str(value) =>
            text := text + CssLine(name, value);
          case Num(_) =>
            CssPreambleSticky(vars, i + 1);
            return Err(NumberMatchError);
          case Undef =>
          case Bool(_) =>
        }
        i := i + 1;
      }
      assert vars[..|vars|] == vars;
      out := Ok(text);
    }

    /** `processVariablesForCSS()`. */
    method ProcessVariablesForCSS() returns (out: Result<string, JsError>)
      modifies this
      ensures config == old(config)
      ensures out == CssPreamble(ForIn(Lookup(config, "variables"))).out
      ensures reports == old(reports) + CssPreamble(ForIn(Lookup(config, "variables"))).reports
    {
      out := CssVariables(ForIn(Lookup(config, "variables")));
    }

    /**
     * `addFiles`: shifts the members off one at a time, appending each file
     * read; a read error is reported, and a member that cannot be found ends
     * the bundle with the exception.
     */
    method ReadMembers(res: Resolution, dirs: DirOf, fs: FileSystem, members: seq<string>, out0: string)
      returns (a: Assembly)
      modifies this
      ensures config == old(config)
      ensures a == AddFilesOf(res, dirs, fs, members, out0)
      ensures reports == old(reports) + a.reports
    {
      var rest := members;
      var out := out0;
      var issued: seq<Report> := [];
      while rest != []
        invariant config == old(config)
        invariant reports == old(reports) + issued
        invariant AddFilesOf(res, dirs, fs, members, out0) == Prefixed(issued, AddFilesOf(res, dirs, fs, rest, out))
        decreases |rest|
      {
        var member := rest[0];
        match res(member) {
          case Err(e) =>
            return Aborted(e, issued);
          case Ok(p) =>
            match fs(p) {
              case Missing =>
                return Aborted(NotFound(p, member, dirs(member)), issued);
              case ReadError(e) =>
                PrefixedTwice(issued, [ErrorReport(e)], AddFilesOf(res, dirs, fs, rest[1..], out));
                reports := reports + [ErrorReport(e)];
                issued := issued + [ErrorReport(e)];
              case Content(c) =>
                out := out + c + "\n";
            }
        }
        rest := rest[1..];
      }
      a := Assembled(out, issued);
    }

    /** `reporter.report(...)`. */
    method Report(r: Report)
      modifies this
      ensures config == old(config)
      ensures reports == old(reports) + [r]
    {
      reports := reports + [r];
    }

    /** The preamble `bundle` starts a bundle of the given extension with. */
    method Preamble(ext: string) returns (out: Result<string, JsError>)
      modifies this
      ensures config == old(config)
      ensures out == PreambleOf(config, ext).out
      ensures reports == old(reports) + PreambleOf(config, ext).reports
    {
      if ext == ".js" {
        out := Ok(JsPreamble(Lookup(config, "variables")));
      } else if ext == ".css" {
        out := ProcessVariablesForCSS();
      } else {
        out := Ok("");
      }
    }

    /**
     * One iteration of `bundle`'s loop, up to the point where `addFiles`
     * first waits for a read: the output path, the preamble, the copy of the
     * member list and the first member's path.
     */
    method DispatchOne(name: string) returns (job: Result<Job, JsError>, issued: seq<Report>)
      modifies this
      ensures config == old(config)
      ensures (job, issued) == JobOf(config, name)
      ensures reports == old(reports) + issued
    {
      var before := reports;
      var ext := ExtName(name);
      match OutputPath(config, name) {
        case Err(e) =>
          job, issued := Err(e), [];
        case Ok(full) =>
          var preamble := Preamble(ext);
          SliceAfter(before, PreambleOf(config, ext).reports);
          issued := reports[|before|..];
          match preamble {
            case Err(e) =>
              job := Err(e);
            case Ok(text) =>
              job := JobFor(config, name, full, text);
          }
      }
    }

    /** `bundle(names, compress, callback)`: dispatches each bundle in turn; an exception ends the loop. */
    method Bundle(names: seq<string>) returns (d: Dispatch)
      modifies this
      ensures config == old(config)
      ensures d == DispatchOf(Jobs(config), names)
      ensures reports == old(reports) + d.reports
    {
      var jobs: seq<Job> := [];
      var issued: seq<Report> := [];
      var thrown: Option<JsError> := None;
      var i := 0;
      while i < |names| && thrown.None?
        invariant 0 <= i <= |names|
        invariant config == old(config)
        invariant DispatchOf(Jobs(config), names[..i]) == Dispatch(jobs, issued, thrown)
        invariant reports == old(reports) + issued
      {
        jobs, issued, thrown := DispatchNext(names, i, jobs, issued, old(reports));
        i := i + 1;
      }
      if thrown.Some? {
        DispatchSticky(Jobs(config), names, i);
      } else {
        assert names[..|names|] == names;
      }
      d := Dispatch(jobs, issued, thrown);
    }

    /** One name of `bundle`'s loop, dispatched while nothing has thrown. */
    method DispatchNext(names: seq<string>, i: nat, jobs0: seq<Job>, issued0: seq<Report>, ghost base: seq<Report>)
      returns (jobs: seq<Job>, issued: seq<Report>, thrown: Option<JsError>)
      requires i < |names|
      requires DispatchOf(Jobs(config), names[..i]) == Dispatch(jobs0, issued0, None)
      requires reports == base + issued0
      modifies this
      ensures config == old(config)
      ensures DispatchOf(Jobs(config), names[..i + 1]) == Dispatch(jobs, issued, thrown)
      ensures reports == base + issued
    {
      var job, rs := DispatchOne(names[i]);
      assert Jobs(config)(names[i]) == (job, rs);
      DispatchStep(Jobs(config), names, i);
      ConcatAssoc(base, issued0, rs);
      issued := issued0 + rs;
      match job {
        case Err(e) =>
          jobs, thrown := jobs0, Some(e);
        case Ok(j) =>
          jobs, thrown := jobs0 + [j], None;
      }
    }

    /**
     * The asynchronous part of `pack`: the dispatched bundles finish in the
     * order `order` names them, each assembled, rendered and handed to
     * `afterBundle`; an exception in a bundle stops everything.
     */
    method DeliverOne(run: PackRun, res: Resolution, dirs: DirOf, w: World, compress: bool, job: Job) returns (a: Assembly)
      requires run.Valid()
      modifies this, run
      ensures config == old(config) && run.Valid()
      ensures a == AssembleWith(res, dirs, w.fs)(job)
      ensures a.Aborted? ==> run.arrived == old(run.arrived) && reports == old(reports) + a.reports
      ensures a.Assembled? ==>
        var r := RenderWith(compress, w.less, w.yui)(a.text, job.output);
        && run.arrived == old(run.arrived) + [r.result]
        && reports == old(reports) + (a.reports + r.reports + AfterReport(r.result))
    {
      a := ReadMembers(res, dirs, w.fs, job.members, job.preamble);
      if a.Aborted? {
        return;
      }
      var r := RenderOf(a.text, job.output, compress, w.less, w.yui);
      reports := reports + r.reports;
      run.AfterBundle(r.result, this);
      ConcatAssoc(old(reports), a.reports, r.reports);
      ConcatAssoc(old(reports), a.reports + r.reports, AfterReport(r.result));
    }

    /**
     * The loop over finishing bundles behind `pack`: the bundles finish in the
     * order `order` names them, each is assembled (an exception ends the run),
     * rendered and handed to `afterBundle`.
     */
    method DeliverAll(run: PackRun, res: Resolution, dirs: DirOf, w: World, compress: bool, jobs: seq<Job>, order: seq<nat>)
      requires run.Valid() && run.arrived == [] && Below(order, |jobs|)
      modifies this, run
      ensures config == old(config) && run.Valid()
      ensures var d := Deliver(AssembleWith(res, dirs, w.fs), RenderWith(compress, w.less, w.yui), jobs, order);
        run.arrived == d.results && reports == old(reports) + d.reports
    {
      ghost var assemble, render := AssembleWith(res, dirs, w.fs), RenderWith(compress, w.less, w.yui);
      ghost var issued: seq<Report> := [];
      ProgressStart(assemble, render, jobs, order);
      var k := 0;
      while k < |order|
        invariant 0 <= k <= |order|
        invariant config == old(config) && run.Valid()
        invariant reports == old(reports) + issued
        invariant Progress(assemble, render, jobs, order, k, run.arrived, issued)
      {
        ProgressStep(assemble, render, jobs, order, k, run.arrived, issued);
        var a := DeliverOne(run, res, dirs, w, compress, jobs[order[k]]);
        if a.Aborted? {
          ConcatAssoc(old(reports), issued, a.reports);
          return;
        }
        ghost var r := render(a.text, jobs[order[k]].output);
        ConcatAssoc(old(reports), issued, a.reports + r.reports + AfterReport(r.result));
        issued := issued + (a.reports + r.reports + AfterReport(r.result));
        k := k + 1;
      }
      ProgressEnd(assemble, render, jobs, order, run.arrived, issued);
    }

    /** A fresh completion counter expecting `total` arrivals, fed by the delivery loop. */
    method DeliverFresh(total: nat, res: Resolution, dirs: DirOf, w: World, compress: bool, jobs: seq<Job>, order: seq<nat>)
      returns (run: PackRun)
      requires Below(order, |jobs|)
      modifies this
      ensures config == old(config)
      ensures fresh(run) && run.Valid() && run.total == total
      ensures var e := Deliver(AssembleWith(res, dirs, w.fs), RenderWith(compress, w.less, w.yui), jobs, order);
        run.arrived == e.results && reports == old(reports) + e.reports
    {
      run := new PackRun(total);
      DeliverAll(run, res, dirs, w, compress, jobs, order);
    }

    /**
     * The part of `pack` after the configuration is settled: dispatches the
     * named bundles, then lets the dispatched ones finish in the order
     * `order` names them, with a completion counter expecting every name.
     */
    method PackBundles(names: seq<string>, compress: bool, w: World, order: seq<nat>)
      returns (run: PackRun, d: Dispatch)
      requires IsArrangement(order, |DispatchOf(Jobs(config), names).jobs|)
      modifies this
      ensures config == old(config)
      ensures d == DispatchOf(Jobs(config), names) && Below(order, |d.jobs|)
      ensures fresh(run) && run.Valid() && run.total == |names|
      ensures var e := Deliver(AssembleWith(Resolver(config), SourceDirOf(config), w.fs),
                               RenderWith(compress, w.less, w.yui), d.jobs, order);
        run.arrived == e.results && reports == old(reports) + d.reports + e.reports
    {
      d := Bundle(names);
      ArrangementBounded(order, |d.jobs|);
      run := DeliverFresh(|names|, Resolver(config), SourceDirOf(config), w, compress, d.jobs, order);
      ConcatAssoc(old(reports), d.reports,
        Deliver(AssembleWith(Resolver(config), SourceDirOf(config), w.fs),
                RenderWith(compress, w.less, w.yui), d.jobs, order).reports);
    }

    /**
     * `pack(options, callback)`: loads the manifest when one is given, then
     * dispatches the named bundles (all of them by default) and lets them
     * finish in the order `order` names the dispatched ones.  Without a
     * load (an ignored value or a read that throws) nothing is dispatched.
     */
    method Pack(options: PackOptions, read: ManifestReader, w: World, order: seq<nat>)
      returns (run: PackRun, loaded: LoadOutcome, d: Dispatch)
      requires var c := PackConfig(config, options, read).0;
        IsArrangement(order, |DispatchOf(Jobs(c), PackNames(c, options.bundles)).jobs|)
      modifies this
      ensures (config, loaded) == PackConfig(old(config), options, read)
      ensures fresh(run) && run.Valid()
      ensures !loaded.Loaded? ==> run.arrived == [] && run.fired == [] && reports == old(reports)
      ensures loaded.Loaded? ==>
        && d == DispatchOf(Jobs(config), PackNames(config, options.bundles))
        && run.total == |PackNames(config, options.bundles)|
        && Below(order, |d.jobs|)
      ensures loaded.Loaded? && Below(order, |d.jobs|) ==>
        var e := Deliver(AssembleWith(Resolver(config), SourceDirOf(config), w.fs),
                         RenderWith(options.compress, w.less, w.yui), d.jobs, order);
        run.arrived == e.results && reports == old(reports) + d.reports + e.reports
    {
      if Truthy(options.config) {
        loaded := LoadConfig(options.config, read);
      } else {
        loaded := Loaded;
      }
      if !loaded.Loaded? {
        run := new PackRun(0);
        d := Dispatch([], [], None);
        return;
      }
      var names := options.bundles.GetOr([]);
      if options.bundles.None? {
        names := GetBundleList();
      }
      run, d := PackBundles(names, options.compress, w, order);
    }
  }

  /** The state `pack` keeps for one run: the completion counter behind `afterBundle`. */
  class PackRun {
    const total: nat
    var completed: seq<string>
    var erred: nat
    var fired: seq<seq<string>>
    ghost var arrived: seq<Rendered>

    /** The counters and the callback log are those of the outcomes arrived so far. */
    ghost predicate Valid()
      reads this
    {
      completed == Successes(arrived) && erred == Failures(arrived) && fired == Fired(total, arrived)
    }

    constructor(total: nat)
      ensures this.total == total && arrived == [] && Valid()
    {
      this.total := total;
      completed := [];
      erred := 0;
      fired := [];
      arrived := [];
    }

    /**
     * `afterBundle(err, file)`: reports an error and counts it, or records the
     * written output path; then fires the final callback with the success
     * list if every bundle has reported.
     */
    method AfterBundle(r: Rendered, reporter: Packager)
      requires Valid()
      modifies this, reporter
      ensures Valid() && arrived == old(arrived) + [r]
      ensures reporter.config == old(reporter.config)
      ensures reporter.reports == old(reporter.reports) + AfterReport(r)
    {
      ArriveOne(total, arrived, r);
      match r {
        case Failed(e) =>
          reporter.Report(ErrorReport(e));
          erred := erred + 1;
        case Written(file, _) =>
          completed := completed + [file];
      }
      arrived := arrived + [r];
      if |completed| + erred == total {
        fired := fired + [completed];
      }
    }
  }
}
