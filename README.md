# bunch.js, modelled in Dafny

bunch is an asset bundler for Node. A manifest (the `Bunchfile`) names
bundles such as `example_base.js` or `example_base.css`, each an ordered list
of member files. The packager resolves every member to a source path
(`<type>Dir/sourceDir/<member>`), concatenates the members after a preamble
built from the manifest's `variables`, runs stylesheets through less,
optionally compresses with yui, and writes each bundle to
`<type>Dir/buildDir/<bundle>`. The monitor keeps a table from each source file
to the bundles it feeds. On a timer it sweeps that table and rebuilds after
the first file changed since the last build. The command line front end
picks flags out of its arguments and runs the command the first remaining
argument names.

This project models the three core files:

- `lib/bunch/packager.js`: configuration loading, directory rules, the file
  list, the source-to-bundle index, the bundle list, the JS and CSS
  preambles, `addFiles`, `render`/`writeOut` routing, `bundle` and `pack`
  with its completion counter.
- `lib/bunch/monitor.js`: the defaults merge, `buildFileList`, `checkFiles`,
  `regenerate`, `init` and `startMonitor`.
- `lib/bunch/cli.js`: the defaults loop, the flag filter of `process`, the
  option switch, `-v`, `help`, and the command dispatch rule.

Module layout, one file each:

- `wrappers.dfy`: `Option` and `Result`.
- `js_value.dfy`: JavaScript values, `typeof`, truthiness, `String(n)`,
  `for ... in`, `Array.join` and `JSON.stringify`.
- `js_object.dfy`: objects as ordered entry lists, with `m[k]`, `m[k] = v` and
  the defaults loop.
- `paths.dfy`: `path.extname` and `path.join`.
- `sequences.dfy`: de-duplication, and orders of arrival as arrangements of
  indices.
- `packager_config.dfy`: the configuration and the table functions.
- `assembly.dfy`: preambles, `addFiles`, `render` and `bundle`.
- `pack_runs.dfy`: the `afterBundle` counter.
- `packager.dfy`: the `Packager` class with its methods and `pack`.
- `monitor.dfy`: the `Monitor` class.
- `cli.dfy`: the `Cli` class.

The code works by changing state, so the packager, the monitor and the
command line are classes. Their fields are the state the JavaScript closures
keep: `config`, the reports sent to the reporter, `settings.files`,
`settings.lastBuild`, the options object, and the messages printed. Each
method is proved against a function of its inputs and old state (`Merge`,
`FileIndex`, `Decide`, `SetFlags` and so on), and the lemmas beside those
functions state what the code promises.

External effects become parameters:

- The file system (`FileSystem`, `Stat`) and the manifest reader
  (`ManifestReader`).
- The two compilers (`LessCompiler`, `Compressor`).
- The clock (`now`).
- The order in which asynchronous bundles finish (`order`, an arrangement of
  the dispatched bundles).

Timers become a count of scheduled sweeps. The event emitter becomes a log of
emitted events.

Behaviour of the code that the model keeps:

- A member file that does not exist makes `readBundledFile` throw inside an
  asynchronous callback. The bundle never reports, so `pack`'s callback
  never fires.
- The sweep compares each file's modification time with the global
  `lastBuild`. It does not compare with the per-file `lastModified` that
  `buildFileList` records, which is never read.
- A rebuild in which a bundle throws never calls back, so no further sweep is
  scheduled. A compiler error, by contrast, is counted as a failure, and
  polling goes on.
- Only `.css` bundles get the CSS preamble and less. A `.less` name has no
  `lessDir`, so its path cannot be built and dispatch throws.
- A number variable in the CSS preamble throws (`variable.match` is not a
  function). It is not written.
- The manifest is read with plain `JSON.parse`, so a manifest with comments
  fails to parse.
- The seconds-only `Date.parse` timestamps of the table are compared with a
  millisecond `lastBuild`.
- `getFileList` and `getFiles` read any bundle value through `.length` and
  indexing: a string contributes its characters, a number or boolean
  nothing, and `null` or `undefined` throws out of the loop.
- The success list passed to `pack`'s callback holds output paths, not bundle
  names.
- With zero bundles the callback never fires.

## Model

| member | source | states |
|---|---|---|
| JsObject.Get | lib/bunch/packager.js:201-202 | a property read is missing exactly when the key is not an own key; a found value is that key's entry |
| JsObject.Put | lib/bunch/packager.js:202 | assignment makes the key map to the value, leaves every other key's value alone, and keeps the key order, appending a new key at the end |
| JsObject.PutKeepsDistinct | lib/bunch/packager.js:202 | assignment never duplicates a key |
| JsObject.GetAt | lib/bunch/packager.js:199-203 | in an object with distinct keys, reading the key of entry `i` gives entry `i`'s value |
| JsObject.MergeDefaultsSpec | lib/bunch/monitor.js:26-30 | after the defaults loop an option exists iff the caller or the defaults have it; a supplied option keeps its value, and a missing one takes the default |
| JsObject.FillDefaults | lib/bunch/monitor.js:26-30 | the loop over the defaults computes `MergeDefaults` |
| JsValue.NatToString | lib/bunch/cli.js:65 | `String(n)` is a non-empty string of decimal digits |
| JsValue.NatToStringRoundTrip | lib/bunch/cli.js:65 | `String(n)` reads back as `n` and has no leading zero |
| JsValue.NatToStringInjective | lib/bunch/cli.js:65 | different version numbers print differently |
| JsValue.ForIn | lib/bunch/packager.js:199-203 | `for ... in` with `hasOwnProperty` visits an object's own entries in order, and nothing for a primitive other than a string |
| JsValue.ForInIndices | lib/bunch/packager.js:128-130 | an array or a string is visited once per index, in order, with that index's item or character, and no key twice |
| Paths.Basename | lib/bunch/packager.js:132 | the last path component is the longest suffix without a slash |
| Paths.FromLastDot | lib/bunch/packager.js:132 | the text from the last dot is empty iff there is no dot; otherwise it is a suffix that starts with its only dot |
| Paths.ExtName | lib/bunch/packager.js:132 | `path.extname` is empty or a suffix of the path that starts with its only dot and has no slash |
| Paths.ExtNameOfStemAndExt | lib/bunch/packager.js:132 | `extname(stem + ext)` is `ext` for a slash-free stem other than "" and "." |
| Paths.NoDotNoExt | lib/bunch/packager.js:132 | a last component without a dot has no extension |
| Paths.Join | lib/bunch/packager.js:217 | the result is never empty, starts with the first non-empty segment and ends with the second; two non-empty segments are joined with one slash |
| Paths.JoinValues | lib/bunch/packager.js:217 | `path.join` succeeds iff both segments are strings, and then it joins them; otherwise it throws the `path.join` TypeError |
| Paths.StripLeadingDot | lib/bunch/packager.js:214 | `replace(/^(\.)?/, '')` drops exactly one leading dot, if there is one |
| Sequences.FirstIndex | lib/bunch/packager.js:133 | `indexOf` gives the first position holding the element |
| Sequences.DedupeMembers | lib/bunch/packager.js:133 | the de-duplicated list holds exactly the elements of the original |
| Sequences.DedupeDistinct | lib/bunch/packager.js:133 | the de-duplicated list holds no element twice |
| Sequences.DedupeOrder | lib/bunch/packager.js:133 | the de-duplicated list is ordered by first appearance |
| Sequences.Arrange | lib/bunch/packager.js:92-102 | the outcomes in arrival order are the dispatched outcomes at the arrival indices |
| Sequences.ArrangeMultiset | lib/bunch/packager.js:92-102 | two arrival orders of the same indices deliver the same outcomes, counted with multiplicity |
| Sequences.ArrangePermutes | lib/bunch/packager.js:92-102 | an order in which every bundle finishes once delivers a permutation of the outcomes |
| PackagerConfig.DefaultKeysDistinct | lib/bunch/packager.js:14-23 | the default configuration has eight distinct keys |
| PackagerConfig.MergeSpec | lib/bunch/packager.js:197-205 | loading keeps the configuration's key set; a key in both objects takes the loaded value wholesale; every other key keeps its value |
| PackagerConfig.SecondLoadRetains | lib/bunch/packager.js:197-205 | after two loads each key holds the latest loaded value, or its earlier one; unknown keys never appear |
| PackagerConfig.GetDirDottedUsesGlobal | lib/bunch/packager.js:213-218 | with an extension as `extname` gives it, `getDir` joins `<ext>Dir` with the global `sourceDir`/`buildDir`, never the per-type override |
| PackagerConfig.GetDirBareKeyUsesOverride | lib/bunch/packager.js:216 | with a bare key such as `js` whose object sets the use directory, that override is used |
| PackagerConfig.DefaultLookups | lib/bunch/packager.js:16-19 | example: the default directories are `css`, `js`, `bin` and `src` |
| PackagerConfig.GetDirDefaultSource | lib/bunch/packager.js:213-218 | example: with the defaults, `getDir('.js', 'source')` is `js/src` |
| PackagerConfig.GetDirDefaultBuild | lib/bunch/packager.js:213-218 | example: with the defaults, `getDir('.css', 'build')` is `css/bin` |
| PackagerConfig.ResolveDotted | lib/bunch/packager.js:132 | a member `stem + ext` resolves to `<ext>Dir/sourceDir/stem+ext` |
| PackagerConfig.OutputDotted | lib/bunch/packager.js:252 | a bundle `stem + ext` is written to `<ext>Dir/buildDir/stem+ext` |
| PackagerConfig.MemberValues | lib/bunch/packager.js:130-132 | what the member loop reads from a bundle value: a string's one-character strings, an array's items, nothing from a number or boolean; reading `length` throws iff the value is `null` or `undefined` |
| PackagerConfig.FirstUnreadable | lib/bunch/packager.js:128-130 | the first bundle whose `length` cannot be read, all before it being readable; none iff every bundle is readable |
| PackagerConfig.FirstUnreadableAt | lib/bunch/packager.js:128-130 | the loops stop at the bundle `FirstUnreadable` picks |
| PackagerConfig.ReadDefs | lib/bunch/packager.js:128-130 | the loops get through a prefix of the bundles, all of them when nothing throws |
| PackagerConfig.ReadStops | lib/bunch/packager.js:128-139 | a loop stopped at the first unreadable bundle, or at the end, has read the bundles before it, and its result is `ListOf`'s or `IndexFor`'s: the exception of that bundle, or the list or index of all members |
| PackagerConfig.OccurrenceNames | lib/bunch/packager.js:128-130 | every (bundle, member) pair names a bundle the `for ... in` visits |
| PackagerConfig.ResolveMember | lib/bunch/packager.js:132 | a member resolves only if it is a string, and then as that file name does |
| PackagerConfig.ResolvedPathMember | lib/bunch/packager.js:128-139 | a path is among the resolved paths iff some member resolves to it |
| PackagerConfig.ResolvedPathsAllOk | lib/bunch/packager.js:128-139 | when every member resolves, the resolved paths are the members' paths in iteration order |
| PackagerConfig.FileListThrows | lib/bunch/packager.js:124-130 | `getFileList` throws iff some bundle is `null` or `undefined`, with the `length` TypeError of the first such |
| PackagerConfig.FileListSpec | lib/bunch/packager.js:122-141 | when `getFileList` returns, it holds every path some visited string member resolves to, each exactly once, and nothing else, ordered by first appearance |
| PackagerConfig.FileListOf | lib/bunch/packager.js:122-141 | the same, for any way of resolving members |
| PackagerConfig.IndexKeys | lib/bunch/packager.js:148-168 | the keys of `getFiles` are the resolved paths, each once, in order of first appearance |
| PackagerConfig.IndexEntry | lib/bunch/packager.js:148-168 | each indexed path maps to the bundles that include it, once per occurrence and in iteration order; other paths are absent |
| PackagerConfig.IndexKeysDistinct | lib/bunch/packager.js:148-168 | the index has distinct keys, and they are the de-duplicated resolved paths |
| PackagerConfig.ShapedBundlesRead | lib/bunch/packager.js:122-168 | for bundles in the documented form (an object of arrays of file names) neither loop throws, every bundle is read, and every visited member is a string |
| PackagerConfig.BundlesIncludingNames | lib/bunch/packager.js:157-163 | every bundle recorded against a path is the bundle of some visited pair |
| PackagerConfig.IndexedBundlesAreListed | lib/bunch/packager.js:148-179 | every bundle `getFiles` records against a path is one `getBundleList` names |
| PackagerConfig.FileIndexKeysAreFileList | lib/bunch/packager.js:122-168 | `getFiles` and `getFileList` throw together and with the same error; otherwise the keys of `getFiles` are exactly `getFileList`, each once, in the same order |
| Assembly.JsPreambleShape | lib/bunch/packager.js:370-379 | the JS preamble is empty iff `variables` is not an object (null and arrays count); otherwise it is `var Bunch = ...` with the variables' JSON before `;\n` |
| Assembly.JsPreambleOfEmptyObject | lib/bunch/packager.js:375-377 | with `variables: {}` the preamble is `var Bunch = Bunch \|\| {};\nBunch.variables = {};\n` |
| Assembly.CssPreambleWithoutNumbers | lib/bunch/packager.js:385-416 | without number variables, the CSS preamble is one declaration per string variable in key order; each object or function variable is reported and adds nothing |
| Assembly.CssPreambleWithNumber | lib/bunch/packager.js:403-406 | a number variable makes the preamble throw |
| Assembly.CssPreambleErrIsNumber | lib/bunch/packager.js:385-416 | the only exception the preamble raises is the number one |
| Assembly.CssLinePixels | lib/bunch/packager.js:406-407 | example: a value ending in `px` is written bare |
| Assembly.CssLineColour | lib/bunch/packager.js:406-407 | example: a value starting with `#` is written bare |
| Assembly.CssLineQuoted | lib/bunch/packager.js:408-410 | example: any other value is quoted |
| Assembly.NameQuoted | lib/bunch/packager.js:406 | example: `Arial` matches neither pattern |
| Assembly.AddFilesStep | lib/bunch/packager.js:270-279 | one member that can be located adds its content and a newline, or its read error |
| Assembly.AddFilesConcatenates | lib/bunch/packager.js:268-285 | when every member can be located, the bundle is the preamble followed by `content + "\n"` per readable member in declared order, with one report per read error, in order |
| Assembly.AddFilesAborts | lib/bunch/packager.js:224-235 | the bundle ends with an exception iff some member cannot be resolved or does not exist |
| Assembly.RenderRouting | lib/bunch/packager.js:291-338 | a bundle is written, to its build path and silently, iff every compiler stage it passes through succeeds; otherwise one failure report names it and the error reaches the callback; an uncompressed script is written as assembled |
| Assembly.DispatchSpec | lib/bunch/packager.js:242-262 | without an exception every named bundle is dispatched in order; with one, exactly the bundles before the first failing name are |
| Assembly.UnknownTypeThrows | lib/bunch/packager.js:252 | a bundle whose extension has no `<ext>Dir`, such as `.less`, throws the `path.join` TypeError |
| Assembly.UndefinedBundleThrows | lib/bunch/packager.js:260 | a name missing from `bundles` throws when its member list is copied |
| Assembly.MembersOfSpec | lib/bunch/packager.js:260 | in the documented form a bundle's member list is copied iff the bundle is defined, and it names the same files, in the same order, as the members `getFileList` and `getFiles` read for it |
| PackRuns.ArrivalsCounted | lib/bunch/packager.js:92-102 | every arrival counts once, as a success or as a failure |
| PackRuns.FiredSpec | lib/bunch/packager.js:99-101 | while no more outcomes arrive than there are bundles, the callback fires at most once: when all have arrived and there is at least one, with the success list |
| PackRuns.ArriveOne | lib/bunch/packager.js:92-102 | one arrival adds its path or one failure, and fires the callback iff the counts reach the total |
| PackRuns.ArrivalOrderIrrelevant | lib/bunch/packager.js:92-102 | two arrival orders of the same outcomes give the same success paths, counted with multiplicity, and the same number of failures |
| Packager.CssPreambleSticky | lib/bunch/packager.js:391-414 | once a variable throws, the later variables are never looked at |
| Packager.DispatchSticky | lib/bunch/packager.js:251-261 | once a bundle throws, the later names are never dispatched |
| Packager.DeliverComplete | lib/bunch/packager.js:245-247 | when every bundle can be read, each outcome arrives once, in the order the bundles finish |
| Packager.DeliverStalls | lib/bunch/packager.js:230-233 | a bundle that throws stops every arrival from that point on |
| Packager.PackCompletes | lib/bunch/packager.js:88-102 | when every bundle can be read, in any finishing order, the callback fires exactly once if there is a bundle; it carries the written paths (the same multiset whatever the order) and the number of failures is fixed |
| Packager.PackStalls | lib/bunch/packager.js:99-101 | if any bundle throws, the final callback never fires |
| Packager.PackCallback | lib/bunch/packager.js:87-114 | the callback fires exactly once, with the written paths, iff the dispatch loop did not throw, every bundle could be read, and there was at least one name |
| Packager.PackConfig | lib/bunch/packager.js:104-114 | a truthy `options.config` is loaded first; otherwise bundling starts at once |
| Packager.PackNames | lib/bunch/packager.js:106-112 | `pack` works on the given bundles, or on every bundle of the configuration |
| Packager.Packager.constructor | lib/bunch/packager.js:14-23 | a packager starts from the default configuration with no reports |
| Packager.Packager.ProcessConfigObject | lib/bunch/packager.js:197-205 | the loop over the object computes `Merge` and reports nothing |
| Packager.Packager.LoadConfig | lib/bunch/packager.js:49-78 | a string is read and parsed, then merged; an object (null and arrays too) is merged; anything else is ignored; a failed read throws and leaves the configuration alone |
| Packager.Packager.GetBundleList | lib/bunch/packager.js:169-179 | the loop computes `BundleList`, the keys the `for ... in` over `bundles` visits, in order |
| Packager.Packager.ListMember | lib/bunch/packager.js:131-136 | one member's path is added unless already listed; a resolution error, or a member that is not a string, is reported |
| Packager.Packager.ListMembers | lib/bunch/packager.js:130-137 | the inner loop of `getFileList` extends the file list and the reports by one bundle's members |
| Packager.Packager.ListEntry | lib/bunch/packager.js:129-138 | one readable bundle extends the file list and the reports by its members |
| Packager.Packager.ListBundles | lib/bunch/packager.js:128-139 | the outer loop gives `ListOf` of the bundles: the de-duplicated resolved paths, or the exception of the first bundle whose `length` cannot be read; the reports are those of the members visited before it returns or throws |
| Packager.Packager.GetFileList | lib/bunch/packager.js:122-141 | `getFileList` returns `FileList`, the list or the exception it throws, and reports each visited member that fails to resolve, in order |
| Packager.Packager.IndexMember | lib/bunch/packager.js:157-163 | one member's bundle is appended to its path's entry; a resolution error, or a member that is not a string, is reported |
| Packager.Packager.IndexMembers | lib/bunch/packager.js:156-164 | the inner loop of `getFiles` extends the index and the reports by one bundle's members |
| Packager.Packager.IndexEntry | lib/bunch/packager.js:155-165 | one readable bundle extends the index and the reports by its members |
| Packager.Packager.IndexBundles | lib/bunch/packager.js:154-166 | the outer loop gives `IndexFor` of the bundles: the index of all members, or the exception of the first bundle whose `length` cannot be read; the reports are those of the members visited |
| Packager.Packager.GetFiles | lib/bunch/packager.js:148-168 | `getFiles` returns `FileIndex`, the index or the exception it throws, and reports each visited member that fails to resolve, in order |
| Packager.Packager.CssVariables | lib/bunch/packager.js:391-414 | the loop accumulates `CssPreamble`'s text, or its exception, and issues its reports |
| Packager.Packager.ProcessVariablesForCSS | lib/bunch/packager.js:385-416 | `processVariablesForCSS` over `config.variables` is `CssPreamble` of their entries |
| Packager.Packager.ReadMembers | lib/bunch/packager.js:268-285 | shifting the members and appending each read computes `AddFilesOf`, with its reports issued in order |
| Packager.Packager.Report | lib/bunch/packager.js:94 | `reporter.report` appends one report |
| Packager.Packager.Preamble | lib/bunch/packager.js:253-259 | a `.js` bundle gets the JS preamble, a `.css` bundle the CSS preamble, any other bundle none |
| Packager.Packager.DispatchOne | lib/bunch/packager.js:252-260 | one iteration of `bundle` computes `JobOf`: output path, preamble, member list, or the exception |
| Packager.Packager.Bundle | lib/bunch/packager.js:242-262 | the loop of `bundle` computes `DispatchOf` and stops at the first exception |
| Packager.Packager.DispatchNext | lib/bunch/packager.js:243-260 | one name of the loop extends the dispatch, or records its exception, as `DispatchOf` does |
| Packager.Packager.DeliverOne | lib/bunch/packager.js:245-247 | a finishing bundle is assembled and then rendered, and its outcome is handed to `afterBundle`; an exception stops it before `afterBundle` |
| Packager.Packager.DeliverAll | lib/bunch/packager.js:245-247 | the loop over finishing bundles computes `Deliver` |
| Packager.Packager.DeliverFresh | lib/bunch/packager.js:88-102 | a fresh counter expecting `total` arrivals receives `Deliver`'s outcomes |
| Packager.Packager.PackBundles | lib/bunch/packager.js:111-113 | dispatches the names, then delivers the dispatched bundles to a counter expecting every name |
| Packager.Packager.Pack | lib/bunch/packager.js:87-115 | `pack` loads a given manifest, then bundles the given or all names; without a load nothing is dispatched and the callback never fires |
| Packager.PackRun.constructor | lib/bunch/packager.js:88-90 | the counters start empty |
| Packager.PackRun.AfterBundle | lib/bunch/packager.js:92-102 | `afterBundle` reports and counts an error, or records the written path, then fires the callback when the counts reach the total; the counters stay those of the arrivals |
| Monitor.TimeoutDefault | lib/bunch/monitor.js:20-30 | `timeout` becomes 1000 only when the caller did not supply it |
| Monitor.FileTableSpec | lib/bunch/monitor.js:40-56 | the table has `getFiles()`'s paths in order, with the manifest appended when new; the manifest maps to `['*']`, and every other path to its bundles; each entry carries `Date.parse` of its file's current mtime, truncated to whole seconds |
| Monitor.RebuiltSpec | lib/bunch/monitor.js:40-56 | `buildFileList` throws iff the manifest cannot be read or a bundle of the reloaded manifest is `null` or `undefined`; otherwise the table is `FileTable` of the reloaded `getFiles()` |
| Monitor.FirstChanged | lib/bunch/monitor.js:96-99 | the first entry newer than `lastBuild`, or none iff no entry is newer |
| Monitor.DecideSpec | lib/bunch/monitor.js:96-116 | a sweep rebuilds iff some file is newer than the last build; it acts for the first such file; the rebuild is full iff that file's path ends in `Bunchfile`; otherwise it covers exactly that file's bundles |
| Monitor.ChangeDetected | lib/bunch/monitor.js:96-115 | a file modified after the last build triggers a rebuild, for it or for an earlier entry |
| Monitor.FirstChangedAt | lib/bunch/monitor.js:96-99 | the sweep's loop stops at the entry the rule picks |
| Monitor.ParsedMtime | lib/bunch/monitor.js:98 | `Date.parse` of a `Date`'s string keeps whole seconds only |
| Monitor.SubSecondChangeLost | lib/bunch/monitor.js:98-99 | the sweep as written misses a file saved 300 ms after a build that completed at 1500 ms, which a millisecond comparison notices |
| Monitor.WroteLines | lib/bunch/monitor.js:63-65 | one `Wrote file` line per built file |
| Monitor.Monitor.constructor | lib/bunch/monitor.js:14-30 | an empty table, `lastBuild` 0, nothing pending, and `timeout` defaulted |
| Monitor.Monitor.StampFiles | lib/bunch/monitor.js:51-55 | every entry is stamped with `Date.parse` of its file's current mtime, and nothing else changes |
| Monitor.Monitor.BuildFileList | lib/bunch/monitor.js:40-56 | reloads the manifest into the packager and sets the table to `Rebuilt`: `FileTable` of `getFiles()`; a manifest that cannot be read, or a `getFiles()` that throws, leaves the table alone; the packager's reporter gets `getFiles()`'s reports |
| Monitor.Monitor.RegenerateDone | lib/bunch/monitor.js:61-67 | records the completion time, reports each written file in order, emits `afterRegenerate`, then runs the sweep's callback (`Done.` and the next sweep) |
| Monitor.Monitor.Regenerate | lib/bunch/monitor.js:57-69 | packs the given or all bundles and says how the call ends: `pack` throwing while dispatching, a bundle throwing later, or neither; the callback fires iff neither happens and some bundle is named, and then it completes as `RegenerateDone` with the written paths; otherwise nothing changes |
| Monitor.Monitor.ManifestChanged | lib/bunch/monitor.js:101-107 | reports, reloads the table, reports, and starts a full rebuild; when `buildFileList` throws, only the first two reports are issued and no rebuild starts |
| Monitor.Monitor.AfterReload | lib/bunch/monitor.js:102-106 | the manifest branch's reports, and the full rebuild's start after a reload that did not throw |
| Monitor.Monitor.CheckFiles | lib/bunch/monitor.js:88-119 | a sweep's action is `Decide` of the table with the `Date.parse` timestamps; with no change it schedules the next sweep; otherwise it emits `fileChanged` and starts the full or selective rebuild; at most one sweep stays pending |
| Monitor.Monitor.OnChange | lib/bunch/monitor.js:99-114 | the body of the sweep for the first changed file |
| Monitor.Monitor.FinishRebuild | lib/bunch/monitor.js:92-95 | the rebuild a sweep started completes iff nothing throws and it names some bundle; its callback then reports `Done.` and schedules the next sweep; at most one sweep stays pending |
| Monitor.Monitor.InitialRebuild | lib/bunch/monitor.js:37-38 | `init` rebuilds every bundle without a sweep callback; if `pack` throws while dispatching, no sweep is scheduled and `monitorStarted` is not emitted (line 83); if a bundle throws later, `monitorStarted` is emitted but the process ends before any sweep; otherwise exactly one sweep is scheduled and `monitorStarted` follows; `lastBuild` moves only if the rebuild completes |
| Monitor.Monitor.StartPolling | lib/bunch/monitor.js:37-38 | after the initial `regenerate`: the sweep is scheduled only when nothing threw, and `monitorStarted` is emitted unless the dispatch threw |
| Monitor.Monitor.Init | lib/bunch/monitor.js:35-39 | builds the table, then the initial rebuild with the three endings of `InitialRebuild`; when `buildFileList` throws nothing further happens |
| Monitor.Monitor.StartMonitor | lib/bunch/monitor.js:73-84 | a fresh packager, then `init`; `monitorStarted` is emitted only when neither the table nor the initial dispatch throws, and a sweep is pending only when the initial rebuild does not throw at all |
| Cli.FlagName | lib/bunch/cli.js:56-61 | a recognised flag name is a letter followed by letters and digits |
| Cli.FlagNameSound | lib/bunch/cli.js:56 | whatever is recognised is one or two dashes, a name and an optional `=value` without white space |
| Cli.FlagNameComplete | lib/bunch/cli.js:56 | every argument of that shape is recognised, with exactly that name |
| Cli.HelpAt | lib/bunch/cli.js:74-76 | the position of the first help flag, or none iff there is no help flag |
| Cli.Visited | lib/bunch/cli.js:55-85 | the filter visits a prefix of the arguments |
| Cli.KeptOfMembers | lib/bunch/cli.js:57-61 | an argument is kept iff it is present, not a flag, and not empty |
| Cli.KeptMembers | lib/bunch/cli.js:55-61 | `process` keeps exactly the non-empty non-flag arguments up to the first help flag |
| Cli.AfterHelpIgnored | lib/bunch/cli.js:74-77 | after a help flag the remaining arguments are not visited |
| Cli.NoHelpVisitsAll | lib/bunch/cli.js:55-85 | without a help flag every argument is visited |
| Cli.SetFlagsSpec | lib/bunch/cli.js:62-84 | an option is `true` after the flags iff one of them names it; every other option keeps its value |
| Cli.ApplySpec | lib/bunch/cli.js:62-84 | the same for one flag |
| Cli.SetFlagsKeys | lib/bunch/cli.js:67-83 | the flags add only the options they name |
| Cli.AliasLabels | lib/bunch/cli.js:78-83 | the labels `'clean' \|\| 'c'` and `'compress' \|\| 'x'` match `clean` and `compress` only |
| Cli.AliasFlagsIgnored | lib/bunch/cli.js:78-83 | `-c` and `-x` set nothing |
| Cli.CommandLines | lib/bunch/cli.js:97-100 | one `  bunch <name>` line per command, in order |
| Cli.HelpListing | lib/bunch/cli.js:94-101 | example: `help` prints `Commands:` and then `help`, `init`, `monitor`, `pack` in declaration order |
| Cli.Decimals | lib/bunch/cli.js:65 | `version.join('.')` converts each part with `String(n)` |
| Cli.VersionExample | test/test_bunch_cli.js:66 | example: version 0.4.0 prints `bunch 0.4.0` |
| Cli.Dispatched | lib/bunch/cli.js:87-89 | a command runs iff the first remaining argument names one, and it is that command |
| Cli.DefaultsAsWrittenCopyNothing | lib/bunch/cli.js:37-41 | as written, the defaults loop copies nothing unless the caller has an option named `false` |
| Cli.DefaultsLost | lib/bunch/cli.js:37-41 | as written, a caller with no options gets no `compress`; the intended loop gives `compress: false` |
| Cli.FillDefaultsAsWritten | lib/bunch/cli.js:37-41 | the loop as written, updating the options in place, computes `DefaultsAsWritten` |
| Cli.Cli.constructor | lib/bunch/cli.js:35-41 | the options are the caller's (none for a falsy argument) after the defaults loop as written, so they are exactly the caller's unless one is named `false` |
| Cli.Cli.Help | lib/bunch/cli.js:94-101 | `commands.help` prints its lines after what was printed before |
| Cli.Cli.Switch | lib/bunch/cli.js:62-84 | the switch applies one flag to the options and prints its output |
| Cli.Cli.Visit | lib/bunch/cli.js:55-61 | the filter callback keeps an argument iff it is a non-empty non-flag, and applies a flag |
| Cli.Cli.VisitAt | lib/bunch/cli.js:55-85 | one index of the filter's loop keeps the scan invariant |
| Cli.Cli.Process | lib/bunch/cli.js:54-90 | `process` applies the visited flags in order, prints their output, and runs the dispatched command |
| Cli.Cli.Filter | lib/bunch/cli.js:55-85 | the filter applies and prints the visited flags in order, and keeps exactly the visited operands |
| Cli.Cli.Dispatch | lib/bunch/cli.js:87-89 | runs the command the first kept argument names, if any |
| Cli.VersionRun | test/test_bunch_cli.js:60-68 | `process(['-v'])` prints the version line and nothing else |
| Cli.HelpRun | test/test_bunch_cli.js:70-79 | `process(['-h'])` prints the command list and runs no command |

## Left out

- File contents, stat results, the manifest reader, less, yui and the clock
  are parameters. `fs.writeFile`, `fs.mkdir`, `path.exists` on the build
  directory and the `process.cwd()` join of the write path are left out.
  A written bundle appears in the model as its output path and final text.
- Concurrency is left out. The bundles of one `pack` finish in an order
  given as an arrangement of the dispatched bundles. Reads within a bundle
  are sequential, as in the code.
- `JSON.parse` of the manifest is a parameter that yields a value or throws.
- Numbers are integers, so `JSON.stringify` and `String(n)` of fractions and
  exponents are left out.
- Property order in objects is insertion order. JavaScript puts
  integer-like keys first; that reordering is left out.
- The keys `__proto__` and inherited properties are not modelled. `config`
  is a plain entry list, so `ext in config` sees own keys only.
- Strings are sequences of characters, not of UTF-16 code units.
- `path.join` is modelled for clean relative segments only. Normalisation of
  `.`, `..` and doubled slashes is left out.
- `getDir` on a bare key takes `us in config[ext]` on a non-object to throw.
  For arrays and functions it reads their own properties, which the model
  takes to be empty.
- `bundle` called with a single string (`typeof bundles === 'string'`) is
  left out. It is reachable only with `options.bundles` a string, and
  `bundleList.length` is then a string length.
- `setReporter`, `toJSON` and `stopMonitor` (`process.exit`) are left out.
  The reporter is the `reports` field.
- `loadConfig`'s callback is the `LoadOutcome` result. It is not a
  separate call.
- The `init`, `monitor` and `pack` command bodies in `cli.js` are left out.
  Only the fact that they run is recorded. So are the banner, the three
  `startMonitor` banner lines, and the monitor's `on`, `once` and `emit`
  wrappers.
- `msg` in `cli.js` and `privateFunc` in `monitor.js` are implicit globals,
  shared by all instances. The model gives each instance its own.
- `options.verbose`, `options.silent` and the `=value` part of a flag are
  recorded or ignored exactly as the code does. Nothing reads them.
- `fs.statSync` throwing for a deleted file is left out: `Stat` is total.
- Packager.PackRun.AfterBundle: `erredBundles` is modelled as a count with no
  bundle names, because the code only ever reads its length.
- Packager.Packager.Bundle, Packager.Packager.Pack: when the loop of
  `bundle` throws, the model still delivers the bundles dispatched before
  the exception, so their reports are issued, and the counter, which
  expects every name, never fires. In the code the exception leaves `pack`;
  no caller in this repository catches it (`regenerate` in the monitor is
  called from `init` and from a timer), so the process ends and those reads
  never complete.
- Monitor.Monitor.CheckFiles: the loop searches first and then acts for the
  entry it found. The code acts inside the loop and returns; the two are the
  same step for step.
- Monitor.Monitor.InitialRebuild: the model runs the initial rebuild to its
  end before the first sweep is scheduled and `monitorStarted` is emitted.
  In the code the file reads are asynchronous, which differs in three ways.
  `setTimeout` and `monitorStarted` come before `afterRegenerate` in time.
  A bundle that throws from its file callback ends the process after
  `monitorStarted`; the model records this as no sweep pending. A first
  sweep that runs while a slow initial rebuild is still reading sees
  `lastBuild` 0 and starts a rebuild of its own; the model does not
  interleave the two.
- An exception that escapes a timer callback or a file callback ends the
  Node process: a manifest that cannot be reloaded, a `getFiles()` that
  throws, or a sweep's rebuild whose `pack` throws. The model records only
  that the table is kept and no further sweep is scheduled; a rebuild that
  threw stays pending in `rebuilding`.
- PackagerConfig.MemberValues: an object's `length` is used only when it is
  a number; the coercion of a string or boolean `length` is left out. A
  function's `length` is its arity; the model gives a function no members.
- PackagerConfig.ResolveMember: a member that is not a string is rejected
  with the `path.join` TypeError. The code first runs `path.extname` and
  `getDir` on its string conversion; with the default configuration keys
  that always ends in the same TypeError, from one join or the other.
- Assembly.MembersOf: `bundle` copies a defined bundle only when it is an
  array of file names; any other defined value is modelled as throwing the
  `slice` TypeError of an undefined bundle. The code copies a string or a
  mixed array and fails later (or, for an empty string, writes the preamble
  alone), and other values throw TypeErrors with other messages.
- Assembly.MembersOfSpec, PackagerConfig.ShapedBundlesRead: these state
  facts about bundles in the documented form only. For the table loops the
  general case is stated by FileListThrows, FileListSpec and the
  `ListBundles`/`IndexBundles` contracts.
- Monitor.Monitor.Regenerate: a callback that fires more than once is not
  possible for the counts reached here, so only "never" and "once" are
  stated.
- Packager.Packager.ListMembers, Packager.Packager.IndexMembers: the reports
  are threaded through the loop as a value and written to the field once,
  after the outer loop.

## Findings

| source | as written | input that shows it | evidently intended | confidence | as-written member | corrected member |
|---|---|---|---|---|---|---|
| lib/bunch/cli.js:38 | `!d in options` parses as `(!d) in options`, which tests for a key named `false` | `CLI({})`: `compress`, `clean` and `msg` are never copied into the options | copy every default the caller did not supply | high; not executed | Cli.DefaultsAsWrittenCopyNothing | JsObject.MergeDefaultsSpec |
| lib/bunch/monitor.js:98 | `Date.parse(fs.statSync(file).mtime)` turns the `Date` into a string first, which drops the milliseconds, and compares it with the millisecond `lastBuild` | build completes at 1500 ms, file saved at 1800 ms: parsed mtime 1000 <= 1500, so no rebuild | compare the modification time in milliseconds | medium; not executed | Monitor.SubSecondChangeLost | Monitor.ChangeDetected |
