/**
 * The command line front end: `process(args)` picks the flags out of the
 * argument list, applies each one to the options or to the output, and runs
 * the command that the first remaining argument names.
 */
module Cli {
  import opened Wrappers
  import opened JsObject
  import opened JsValue
  import opened Sequences

  // ------------------------------------------------------------ the flag pattern

  predicate IsAsciiLetter(c: char) {
    'a' <= c <= 'z' || 'A' <= c <= 'Z'
  }

  /** `[0-9a-z]` under the case-insensitive flag. */
  predicate IsAsciiAlnum(c: char) {
    IsAsciiLetter(c) || '0' <= c <= '9'
  }

  /** The characters `\s` matches: white space and line terminators. */
  predicate IsJsWhiteSpace(c: char) {
    var n := c as int;
    || n == 0x20 || 0x09 <= n <= 0x0D || n == 0xA0 || n == 0x1680
    || 0x2000 <= n <= 0x200A || n == 0x2028 || n == 0x2029
    || n == 0x202F || n == 0x205F || n == 0x3000 || n == 0xFEFF
  }

  /** `--?`: one dash or two. */
  predicate IsDashes(d: string) {
    d == "-" || d == "--"
  }

  /** `([a-z][0-9a-z]*)`, case-insensitively: the flag's name. */
  predicate IsName(n: string) {
    |n| >= 1 && IsAsciiLetter(n[0]) && forall i :: 0 <= i < |n| ==> IsAsciiAlnum(n[i])
  }

  /** `(?:=([^\s]+))?`: nothing, or `=` and a value without white space. */
  predicate IsValuePart(v: string) {
    v == [] || (|v| >= 2 && v[0] == '=' && forall i :: 1 <= i < |v| ==> !IsJsWhiteSpace(v[i]))
  }

  /** The length of the longest prefix of letters and digits. */
  function AlnumRun(s: string): (n: nat)
    ensures n <= |s|
    ensures forall i :: 0 <= i < n ==> IsAsciiAlnum(s[i])
    ensures n < |s| ==> !IsAsciiAlnum(s[n])
  {
    if s == [] || !IsAsciiAlnum(s[0]) then 0 else 1 + AlnumRun(s[1..])
  }

  /**
   * `arg.match(/^--?([a-z][0-9a-z]*)(?:=([^\s]+))?$/i)`: the first group when
   * the whole argument matches.  Two leading dashes are always taken as the
   * dashes, since a third character `-` cannot start a name.
   */
  function FlagName(arg: string): (r: Option<string>)
    ensures r.Some? ==> IsName(r.value)
  {
    var d := if |arg| >= 2 && arg[0] == '-' && arg[1] == '-' then 2
             else if |arg| >= 1 && arg[0] == '-' then 1
             else 0;
    if d == 0 then None
    else
      var rest := arg[d..];
      var n := AlnumRun(rest);
      if n == 0 || !IsAsciiLetter(rest[0]) || !IsValuePart(rest[n..]) then None
      else Some(rest[..n])
  }

  /** Whatever `FlagName` recognises is dashes, a name and a value part. */
  lemma FlagNameSound(arg: string)
    requires FlagName(arg).Some?
    ensures exists d, v :: IsDashes(d) && IsValuePart(v) && arg == d + FlagName(arg).value + v
  {
    var k := if |arg| >= 2 && arg[0] == '-' && arg[1] == '-' then 2 else 1;
    var rest := arg[k..];
    var n := AlnumRun(rest);
    assert arg[..k] == (if k == 2 then "--" else "-");
    assert arg == arg[..k] + rest[..n] + rest[n..];
  }

  /** Every argument of that shape is recognised, with exactly that name. */
  lemma FlagNameComplete(d: string, n: string, v: string)
    requires IsDashes(d) && IsName(n) && IsValuePart(v)
    ensures FlagName(d + n + v) == Some(n)
  {
    var arg := d + n + v;
    var rest := n + v;
    assert arg[|d|..] == rest;
    assert arg[0] == '-';
    if d == "-" {
      assert arg[1] == n[0];
    }
    assert rest[0] == n[0];
    forall j | 0 <= j < |n| ensures IsAsciiAlnum(rest[j]) {
      assert rest[j] == n[j];
    }
    if v != [] {
      assert rest[|n|] == '=';
    }
    assert AlnumRun(rest) == |n|;
    assert rest[..|n|] == n && rest[|n|..] == v;
  }

  // ------------------------------------------------------------ the filter

  /**
   * How an argument is classified: the flag name it carries, or `None` for
   * an argument that is not a flag.  The filter's shape is stated for any
   * classification; `process` uses `FlagName`.
   */
  type Matcher = string -> Option<string>

  /** A non-flag argument survives the filter only when it is truthy. */
  predicate IsOperand(flag: Matcher, arg: string) {
    flag(arg).None? && arg != ""
  }

  predicate IsHelpFlag(flag: Matcher, arg: string) {
    flag(arg) == Some("h") || flag(arg) == Some("help")
  }

  /** The position of the first help flag. */
  function HelpAt(flag: Matcher, s: seq<string>): (r: Option<nat>)
    ensures r.Some? ==> r.value < |s| && IsHelpFlag(flag, s[r.value])
    ensures r.Some? ==> forall j :: 0 <= j < r.value ==> !IsHelpFlag(flag, s[j])
    ensures r.None? ==> forall j :: 0 <= j < |s| ==> !IsHelpFlag(flag, s[j])
    decreases |s|
  {
    if s == [] then None
    else
      match HelpAt(flag, s[..|s| - 1])
      case Some(i) => Some(i)
      case None => if IsHelpFlag(flag, s[|s| - 1]) then Some(|s| - 1) else None
  }

  /**
   * The arguments the filter looks at.  The help branch truncates the array
   * to its first element with `args.splice(1)`, and `filter` skips the
   * indices that are gone, so nothing after the first help flag is seen.
   */
  function Visited(flag: Matcher, args: seq<string>): (r: seq<string>)
    ensures r <= args
  {
    match HelpAt(flag, args)
    case Some(i) => args[..i + 1]
    case None => args
  }

  /** The operands among `s`, in order. */
  function KeptOf(flag: Matcher, s: seq<string>): (r: seq<string>)
    ensures |r| <= |s|
    decreases |s|
  {
    if s == [] then []
    else KeptOf(flag, s[..|s| - 1]) + (if IsOperand(flag, s[|s| - 1]) then [s[|s| - 1]] else [])
  }

  /** The flag names among `s`, in order. */
  function FlagsOf(flag: Matcher, s: seq<string>): (r: seq<string>)
    ensures |r| <= |s|
    decreases |s|
  {
    if s == [] then []
    else FlagsOf(flag, s[..|s| - 1]) + (match flag(s[|s| - 1]) case Some(n) => [n] case None => [])
  }

  lemma FlagsOfOne(flag: Matcher, arg: string)
    ensures FlagsOf(flag, [arg]) == match flag(arg) case Some(n) => [n] case None => []
  {
    assert [arg][..0] == [];
  }

  /** What `filter` returns: the operands the visit reached. */
  function Kept(args: seq<string>): seq<string> {
    KeptOf(FlagName, Visited(FlagName, args))
  }

  /** The flags the visit reached, in order. */
  function Flags(args: seq<string>): seq<string> {
    FlagsOf(FlagName, Visited(FlagName, args))
  }

  lemma {:induction false} KeptOfMembers(flag: Matcher, s: seq<string>, x: string)
    ensures x in KeptOf(flag, s) <==> x in s && IsOperand(flag, x)
    decreases |s|
  {
    if s != [] {
      var init := s[..|s| - 1];
      assert s == init + [s[|s| - 1]];
      KeptOfMembers(flag, init, x);
    }
  }

  /**
   * The filter keeps exactly the truthy non-flag arguments up to the first
   * help flag, and nothing after it.
   */
  lemma KeptMembers(args: seq<string>, x: string)
    ensures x in Kept(args) <==> x in Visited(FlagName, args) && IsOperand(FlagName, x)
    ensures x in Kept(args) ==> x in args
  {
    KeptOfMembers(FlagName, Visited(FlagName, args), x);
  }

  /** Once a help flag has been passed, the remaining arguments change nothing. */
  lemma AfterHelpIgnored(flag: Matcher, s: seq<string>, t: seq<string>)
    requires HelpAt(flag, s).Some?
    ensures Visited(flag, s + t) == Visited(flag, s)
  {
    var i := HelpAt(flag, s).value;
    assert (s + t)[i] == s[i];
    forall j | 0 <= j < i ensures !IsHelpFlag(flag, (s + t)[j]) {
      assert (s + t)[j] == s[j];
    }
    var h := HelpAt(flag, s + t);
    assert IsHelpFlag(flag, (s + t)[i]);
    assert h.Some?;
    assert !(h.value < i);
    assert !(h.value > i);
    assert (s + t)[..i + 1] == s[..i + 1];
  }

  /** Without a help flag every argument is visited. */
  lemma NoHelpVisitsAll(flag: Matcher, args: seq<string>)
    requires forall j :: 0 <= j < |args| ==> !IsHelpFlag(flag, args[j])
    ensures Visited(flag, args) == args
  {
  }

  /** One more argument of the filter's loop. */
  lemma VisitedStep(flag: Matcher, args: seq<string>, k: nat)
    requires k < |args|
    ensures HelpAt(flag, args[..k]).Some? ==>
      && k >= 1
      && HelpAt(flag, args[..k + 1]) == HelpAt(flag, args[..k])
      && Visited(flag, args[..k + 1]) == Visited(flag, args[..k])
    ensures HelpAt(flag, args[..k]).None? ==>
      && Visited(flag, args[..k]) == args[..k]
      && (HelpAt(flag, args[..k + 1]).Some? <==> IsHelpFlag(flag, args[k]))
      && Visited(flag, args[..k + 1]) == args[..k + 1]
      && KeptOf(flag, args[..k + 1]) == KeptOf(flag, args[..k]) + KeptOf(flag, [args[k]])
      && FlagsOf(flag, args[..k + 1]) == FlagsOf(flag, args[..k]) + FlagsOf(flag, [args[k]])
  {
    var s := args[..k + 1];
    assert s == args[..k] + [args[k]];
    assert s[..k] == args[..k];
    SnocParts(flag, args[..k], args[k]);
    match HelpAt(flag, args[..k])
    case Some(i) =>
      assert s[..i + 1] == args[..k][..i + 1];
    case None =>
  }

  // ------------------------------------------------------------ the switch

  /** `a || b` on two strings, as a `case` label computes it. */
  function Or(a: string, b: string): string {
    if Truthy(Str(a)) then a else b
  }

  /** The option a flag sets to `true`, if any. */
  function SwitchOption(name: string): Option<string> {
    if name == "verbose" then Some("verbose")
    else if name == "s" || name == "silent" then Some("silent")
    else if name == Or("clean", "c") then Some("clean")
    else if name == Or("compress", "x") then Some("compress")
    else None
  }

  /** The options after one flag. */
  function Apply(options: Entries<Value>, flag: string): Entries<Value> {
    match SwitchOption(flag)
    case Some(key) => Put(options, key, Bool(true))
    case None => options
  }

  /** The options after the flags, applied in order. */
  function SetFlags(options: Entries<Value>, flags: seq<string>): Entries<Value>
    decreases |flags|
  {
    if flags == [] then options else Apply(SetFlags(options, flags[..|flags| - 1]), flags[|flags| - 1])
  }

  /** A flag naming an option. */
  ghost predicate Named(flags: seq<string>, key: string) {
    exists j :: 0 <= j < |flags| && SwitchOption(flags[j]) == Some(key)
  }

  /**
   * An option is `true` after the flags exactly when one of them names it;
   * every other option keeps its value.
   */
  lemma {:induction false} SetFlagsSpec(options: Entries<Value>, flags: seq<string>, key: string)
    ensures Get(SetFlags(options, flags), key) == if Named(flags, key) then Some(Bool(true)) else Get(options, key)
    decreases |flags|
  {
    if flags != [] {
      var init := flags[..|flags| - 1];
      var f := flags[|flags| - 1];
      SetFlagsSpec(options, init, key);
      assert SetFlags(options, flags) == Apply(SetFlags(options, init), f);
      ApplySpec(SetFlags(options, init), f, key);
      NamedSnoc(flags, key);
    }
  }

  /** SetFlagsSpec for one flag. */
  lemma ApplySpec(options: Entries<Value>, f: string, key: string)
    ensures Get(Apply(options, f), key) == if SwitchOption(f) == Some(key) then Some(Bool(true)) else Get(options, key)
  {
  }

  lemma NamedSnoc(flags: seq<string>, key: string)
    requires flags != []
    ensures Named(flags, key) <==>
            Named(flags[..|flags| - 1], key) || SwitchOption(flags[|flags| - 1]) == Some(key)
  {
    var init := flags[..|flags| - 1];
    if Named(init, key) {
      var j :| 0 <= j < |init| && SwitchOption(init[j]) == Some(key);
      assert flags[j] == init[j];
    }
    if Named(flags, key) {
      var j :| 0 <= j < |flags| && SwitchOption(flags[j]) == Some(key);
      if j < |init| {
        assert flags[j] == init[j];
      }
    }
  }

  /** The flags add only the options they name, after those already present. */
  lemma SetFlagsKeys(options: Entries<Value>, flags: seq<string>, key: string)
    ensures key in Keys(SetFlags(options, flags)) <==> key in Keys(options) || Named(flags, key)
  {
    SetFlagsSpec(options, flags, key);
  }

  /** The labels `'clean' || 'c'` and `'compress' || 'x'` match `clean` and `compress` only. */
  lemma AliasLabels()
    ensures SwitchOption("c") == None && SwitchOption("x") == None
    ensures SwitchOption("clean") == Some("clean") && SwitchOption("compress") == Some("compress")
  {
    assert Or("clean", "c") == "clean" && Or("compress", "x") == "compress";
  }

  /** `-c` and `-x` set nothing: their labels evaluate to `clean` and `compress`. */
  lemma {:induction false} AliasFlagsIgnored(options: Entries<Value>, flags: seq<string>)
    requires forall j :: 0 <= j < |flags| ==> flags[j] == "c" || flags[j] == "x"
    ensures SetFlags(options, flags) == options
    decreases |flags|
  {
    if flags != [] {
      AliasFlagsIgnored(options, flags[..|flags| - 1]);
      AliasLabels();
      var f := flags[|flags| - 1];
      assert SwitchOption(f) == None;
    }
  }

  lemma SetFlagsAppend(options: Entries<Value>, a: seq<string>, b: seq<string>)
    ensures SetFlags(options, a + b) == SetFlags(SetFlags(options, a), b)
    decreases |b|
  {
    if b == [] {
      assert a + b == a;
    } else {
      assert (a + b)[..|a + b| - 1] == a + b[..|b| - 1];
      SetFlagsAppend(options, a, b[..|b| - 1]);
    }
  }

  // ------------------------------------------------------------ output

  /** The commands, in the order `for (command in commands)` lists them. */
  const CommandNames: seq<string> := ["help", "init", "monitor", "pack"]

  /** `'  bunch ' + command` for each command. */
  function CommandLines(names: seq<string>): (r: seq<string>)
    ensures |r| == |names|
    ensures forall i {:trigger r[i]} :: 0 <= i < |names| ==> r[i] == "  bunch " + names[i]
    decreases |names|
  {
    if names == [] then [] else CommandLines(names[..|names| - 1]) + ["  bunch " + names[|names| - 1]]
  }

  /** What `help` emits. */
  function HelpLines(): seq<string> {
    ["Commands:"] + CommandLines(CommandNames)
  }

  lemma HelpListing()
    ensures HelpLines() == ["Commands:", "  bunch help", "  bunch init", "  bunch monitor", "  bunch pack"]
  {
    var r := CommandLines(CommandNames);
    assert r[0] == "  bunch help" && r[1] == "  bunch init";
    assert r[2] == "  bunch monitor" && r[3] == "  bunch pack";
  }

  /** `String(n)` for each part of the version. */
  function Decimals(parts: seq<nat>): (r: seq<string>)
    ensures |r| == |parts|
    ensures forall i {:trigger r[i]} :: 0 <= i < |parts| ==> r[i] == NatToString(parts[i])
    decreases |parts|
  {
    if parts == [] then [] else Decimals(parts[..|parts| - 1]) + [NatToString(parts[|parts| - 1])]
  }

  /** `"bunch " + version.join('.')`. */
  function VersionLine(version: seq<nat>): string {
    "bunch " + ArrayJoin(Decimals(version), ".")
  }

  lemma VersionExample()
    ensures VersionLine([0, 4, 0]) == "bunch 0.4.0"
  {
    var ds := Decimals([0, 4, 0]);
    assert ds[0] == "0" && ds[1] == "4" && ds[2] == "0";
    assert ds[..2][..1] == ["0"];
    assert ArrayJoin(ds[..2], ".") == "0.4";
  }

  /** The output of one flag. */
  function FlagOutput(flag: string, version: seq<nat>): seq<string> {
    if flag == "v" || flag == "version" then [VersionLine(version)]
    else if flag == "h" || flag == "help" then HelpLines()
    else []
  }

  /** What each flag prints. */
  type Printer = string -> seq<string>

  function Output(version: seq<nat>): Printer {
    flag => FlagOutput(flag, version)
  }

  /** The output the flags produce, in order. */
  function FlagMessages(flags: seq<string>, emit: Printer): seq<string>
    decreases |flags|
  {
    if flags == [] then []
    else FlagMessages(flags[..|flags| - 1], emit) + emit(flags[|flags| - 1])
  }

  lemma FlagMessagesAppend(a: seq<string>, b: seq<string>, emit: Printer)
    ensures FlagMessages(a + b, emit) == FlagMessages(a, emit) + FlagMessages(b, emit)
    decreases |b|
  {
    if b == [] {
      assert a + b == a;
    } else {
      assert (a + b)[..|a + b| - 1] == a + b[..|b| - 1];
      FlagMessagesAppend(a, b[..|b| - 1], emit);
    }
  }

  /** `if (args[0] in commands)`: the command that runs, if any, after filtering. */
  function Dispatched(kept: seq<string>): (r: seq<string>)
    ensures |r| <= 1
    ensures r != [] <==> kept != [] && kept[0] in CommandNames
    ensures r != [] ==> r[0] == kept[0]
  {
    if kept != [] && kept[0] in CommandNames then [kept[0]] else []
  }

  /** What the dispatched command prints; only `help` is modelled. */
  function DispatchOutput(kept: seq<string>): seq<string> {
    if Dispatched(kept) == ["help"] then HelpLines() else []
  }

  // ------------------------------------------------------------ defaults

  /** `defaults`: the options every caller is meant to get. */
  const CliDefaults: Entries<Value> := [("compress", Bool(false)), ("clean", Bool(false)), ("msg", Func)]

  /**
   * The defaults loop as written: `!d in options` is `(!d) in options`,
   * that is `'false' in options`, so the defaults are all copied over when
   * the caller happens to have an option named `false`, and never otherwise.
   */
  function DefaultsAsWritten(options: Entries<Value>, defaults: Entries<Value>): Entries<Value>
    decreases |defaults|
  {
    if defaults == [] then options
    else
      var prev := DefaultsAsWritten(options, defaults[..|defaults| - 1]);
      var (d, v) := defaults[|defaults| - 1];
      if "false" in Keys(prev) then Put(prev, d, v) else prev
  }

  /** The defaults loop as written, updating the caller's options in place. */
  method FillDefaultsAsWritten(options: Entries<Value>, defaults: Entries<Value>) returns (r: Entries<Value>)
    ensures r == DefaultsAsWritten(options, defaults)
  {
    r := options;
    var i := 0;
    while i < |defaults|
      invariant 0 <= i <= |defaults|
      invariant r == DefaultsAsWritten(options, defaults[..i])
    {
      assert defaults[..i + 1][..i] == defaults[..i];
      var (d, v) := defaults[i];
      if "false" in Keys(r) {
        r := Put(r, d, v);
      }
      i := i + 1;
    }
    assert defaults[..|defaults|] == defaults;
  }

  /** With no option named `false` the loop as written copies no default. */
  lemma {:induction false} DefaultsAsWrittenCopyNothing(options: Entries<Value>, defaults: Entries<Value>)
    requires "false" !in Keys(options)
    ensures DefaultsAsWritten(options, defaults) == options
    decreases |defaults|
  {
    if defaults != [] {
      DefaultsAsWrittenCopyNothing(options, defaults[..|defaults| - 1]);
    }
  }

  /** A caller that passes no options gets no `compress` option from the loop as written. */
  lemma DefaultsLost()
    ensures "compress" !in Keys(DefaultsAsWritten([], CliDefaults))
    ensures "compress" in Keys(MergeDefaults([], CliDefaults))
    ensures Get(MergeDefaults([], CliDefaults), "compress") == Some(Bool(false))
  {
    DefaultsAsWrittenCopyNothing([], CliDefaults);
    MergeDefaultsSpec([], CliDefaults, "compress");
    assert CliDefaults[0].0 == "compress";
  }

  // ------------------------------------------------------------ the front end

  class Cli {
    /** The options object, which the flags update in place. */
    var options: Entries<Value>
    /** Everything passed to `msg`, in order. */
    var messages: seq<string>
    /** The commands run, in order. */
    var ran: seq<string>
    /** The version the `version` module exports. */
    var version: seq<nat>

    /**
     * `CLI(options)`: the caller's options (none for a falsy argument) after
     * the defaults loop as written, which leaves them as they were unless
     * one of them is named `false`.
     */
    constructor(given: Option<Entries<Value>>, version0: seq<nat>)
      ensures options == DefaultsAsWritten(given.GetOr([]), CliDefaults)
      ensures "false" !in Keys(given.GetOr([])) ==> options == given.GetOr([])
      ensures messages == [] && ran == [] && version == version0
    {
      var merged := FillDefaultsAsWritten(given.GetOr([]), CliDefaults);
      if "false" !in Keys(given.GetOr([])) {
        DefaultsAsWrittenCopyNothing(given.GetOr([]), CliDefaults);
      }
      options := merged;
      messages := [];
      ran := [];
      version := version0;
    }

    /** `commands.help`: the heading, then one line per command. */
    method Help()
      modifies this
      ensures messages == old(messages) + HelpLines()
      ensures options == old(options) && ran == old(ran) && version == old(version)
    {
      messages := messages + ["Commands:"];
      var i := 0;
      while i < |CommandNames|
        invariant 0 <= i <= |CommandNames|
        invariant messages == old(messages) + ["Commands:"] + CommandLines(CommandNames[..i])
        invariant options == old(options) && ran == old(ran) && version == old(version)
      {
        assert CommandNames[..i + 1][..i] == CommandNames[..i];
        messages := messages + ["  bunch " + CommandNames[i]];
        i := i + 1;
      }
      assert CommandNames[..i] == CommandNames;
    }

    /** The `switch` on a flag's name. */
    method Switch(name: string)
      modifies this
      ensures options == Apply(old(options), name)
      ensures messages == old(messages) + FlagOutput(name, version)
      ensures ran == old(ran) && version == old(version)
    {
      if name == "v" || name == "version" {
        messages := messages + [VersionLine(version)];
      } else if name == "verbose" {
        options := Put(options, "verbose", Bool(true));
      } else if name == "s" || name == "silent" {
        options := Put(options, "silent", Bool(true));
      } else if name == "h" || name == "help" {
        Help();
      } else if name == Or("clean", "c") {
        options := Put(options, "clean", Bool(true));
      } else if name == Or("compress", "x") {
        options := Put(options, "compress", Bool(true));
      }
    }

    /** The `filter` callback on one visited argument: whether it stays. */
    method Visit(arg: string) returns (keep: bool)
      modifies this
      ensures keep == IsOperand(FlagName, arg)
      ensures options == SetFlags(old(options), FlagsOf(FlagName, [arg]))
      ensures messages == old(messages) + FlagMessages(FlagsOf(FlagName, [arg]), Output(version))
      ensures ran == old(ran) && version == old(version)
    {
      FlagsOfOne(FlagName, arg);
      match FlagName(arg) {
        case None =>
          keep := arg != "";
        case Some(name) =>
          keep := false;
          assert SetFlags(options, [name]) == Apply(options, name);
          Switch(name);
      }
    }

    /** One index of the filter's loop: skipped once the array is cut short, visited otherwise. */
    method VisitAt(args: seq<string>, k: nat, present: nat, kept: seq<string>,
                   ghost options0: Entries<Value>, ghost messages0: seq<string>)
      returns (present': nat, kept': seq<string>)
      requires k < |args|
      requires Scanned(FlagName, args, k, present, kept, options0, options, messages0, messages, Output(version))
      modifies this
      ensures Scanned(FlagName, args, k + 1, present', kept', options0, options, messages0, messages, Output(version))
      ensures ran == old(ran) && version == old(version)
    {
      ScanStep(FlagName, args, k, present, kept, options0, options, messages0, messages, Output(version));
      present', kept' := present, kept;
      if k < present {
        var keep := Visit(args[k]);
        if keep {
          kept' := kept + [args[k]];
        }
        if IsHelpFlag(FlagName, args[k]) {
          present' := 1;
        }
      }
    }

    /**
     * `process(args)`: the filter over the arguments, then the command the
     * first remaining argument names, if it names one.
     */
    method Process(args: seq<string>)
      modifies this
      ensures version == old(version)
      ensures options == SetFlags(old(options), Flags(args))
      ensures messages == old(messages) + FlagMessages(Flags(args), Output(version)) + DispatchOutput(Kept(args))
      ensures ran == old(ran) + Dispatched(Kept(args))
    {
      var kept := Filter(args);
      Dispatch(kept);
      ConcatAssoc(old(messages), FlagMessages(Flags(args), Output(version)), DispatchOutput(kept));
    }

    /** `args.filter(...)`: the visited flags applied and printed, and the operands kept. */
    method Filter(args: seq<string>) returns (kept: seq<string>)
      modifies this
      ensures kept == Kept(args)
      ensures options == SetFlags(old(options), Flags(args))
      ensures messages == old(messages) + FlagMessages(Flags(args), Output(version))
      ensures ran == old(ran) && version == old(version)
    {
      var present: nat := |args|;  // the array's length, which the help branch cuts to 1
      kept := [];
      var k := 0;
      assert args[..0] == [];
      while k < |args|
        invariant 0 <= k <= |args|
        invariant Scanned(FlagName, args, k, present, kept, old(options), options, old(messages), messages, Output(version))
        invariant ran == old(ran) && version == old(version)
      {
        present, kept := VisitAt(args, k, present, kept, old(options), old(messages));
        k := k + 1;
      }
      ScanEnd(FlagName, args, present, kept, old(options), options, old(messages), messages, Output(version));
    }

    /** `if (args[0] in commands) commands[args[0]](options, callback)`. */
    method Dispatch(kept: seq<string>)
      modifies this
      ensures ran == old(ran) + Dispatched(kept)
      ensures messages == old(messages) + DispatchOutput(kept)
      ensures options == old(options) && version == old(version)
    {
      if kept != [] && kept[0] in CommandNames {
        ran := ran + [kept[0]];
        if kept[0] == "help" {
          Help();
        }
      }
    }
  }

  /**
   * The filter's loop after visiting the indices below `k`: the array's
   * remaining length, the arguments kept, the options and the output so far.
   */
  ghost predicate Scanned(flag: Matcher, args: seq<string>, k: nat, present: nat, kept: seq<string>,
                          options0: Entries<Value>, options: Entries<Value>,
                          messages0: seq<string>, messages: seq<string>, emit: Printer)
    requires k <= |args|
  {
    var seen := Visited(flag, args[..k]);
    && present == (if HelpAt(flag, args[..k]).Some? then 1 else |args|)
    && kept == KeptOf(flag, seen)
    && options == SetFlags(options0, FlagsOf(flag, seen))
    && messages == messages0 + FlagMessages(FlagsOf(flag, seen), emit)
  }

  /** After the last index the loop's state is the filter's result. */
  lemma ScanEnd(flag: Matcher, args: seq<string>, present: nat, kept: seq<string>,
                options0: Entries<Value>, options: Entries<Value>,
                messages0: seq<string>, messages: seq<string>, emit: Printer)
    requires Scanned(flag, args, |args|, present, kept, options0, options, messages0, messages, emit)
    ensures kept == KeptOf(flag, Visited(flag, args))
    ensures options == SetFlags(options0, FlagsOf(flag, Visited(flag, args)))
    ensures messages == messages0 + FlagMessages(FlagsOf(flag, Visited(flag, args)), emit)
  {
    assert args[..|args|] == args;
  }

  /** Index `k` is skipped once a help flag has been seen, and visited otherwise. */
  lemma ScanStep(flag: Matcher, args: seq<string>, k: nat, present: nat, kept: seq<string>,
                 options0: Entries<Value>, options: Entries<Value>,
                 messages0: seq<string>, messages: seq<string>, emit: Printer)
    requires k < |args|
    requires Scanned(flag, args, k, present, kept, options0, options, messages0, messages, emit)
    ensures k >= present ==> Scanned(flag, args, k + 1, present, kept, options0, options, messages0, messages, emit)
    ensures k < present ==>
      Scanned(flag, args, k + 1, if IsHelpFlag(flag, args[k]) then 1 else present,
              kept + (if IsOperand(flag, args[k]) then [args[k]] else []),
              options0, SetFlags(options, FlagsOf(flag, [args[k]])),
              messages0, messages + FlagMessages(FlagsOf(flag, [args[k]]), emit), emit)
  {
    VisitedStep(flag, args, k);
    if HelpAt(flag, args[..k]).None? {
      ScanVisit(flag, args, k, present, kept, options0, options, messages0, messages, emit);
    }
  }

  lemma ScanVisit(flag: Matcher, args: seq<string>, k: nat, present: nat, kept: seq<string>,
                  options0: Entries<Value>, options: Entries<Value>,
                  messages0: seq<string>, messages: seq<string>, emit: Printer)
    requires k < |args| && HelpAt(flag, args[..k]).None?
    requires Scanned(flag, args, k, present, kept, options0, options, messages0, messages, emit)
    ensures
      Scanned(flag, args, k + 1, if IsHelpFlag(flag, args[k]) then 1 else present,
              kept + (if IsOperand(flag, args[k]) then [args[k]] else []),
              options0, SetFlags(options, FlagsOf(flag, [args[k]])),
              messages0, messages + FlagMessages(FlagsOf(flag, [args[k]]), emit), emit)
  {
    var a := args[k];
    var seen := args[..k];
    assert args[..k + 1] == seen + [a];
    VisitNext(flag, seen, a);
    var one := FlagsOf(flag, [a]);
    SnocParts(flag, seen, a);
    SetFlagsAppend(options0, FlagsOf(flag, seen), one);
    FlagMessagesAppend(FlagsOf(flag, seen), one, emit);
    ConcatAssoc(messages0, FlagMessages(FlagsOf(flag, seen), emit), FlagMessages(one, emit));
  }

  /** Before any help flag, the next argument is visited too. */
  lemma VisitNext(flag: Matcher, seen: seq<string>, a: string)
    requires HelpAt(flag, seen).None?
    ensures Visited(flag, seen) == seen && Visited(flag, seen + [a]) == seen + [a]
    ensures HelpAt(flag, seen + [a]).Some? <==> IsHelpFlag(flag, a)
  {
    var next := seen + [a];
    assert next[..|seen|] == seen && next[|seen|] == a;
    assert next[..|next|] == next;
  }

  lemma SnocParts(flag: Matcher, s: seq<string>, a: string)
    ensures KeptOf(flag, s + [a]) == KeptOf(flag, s) + (if IsOperand(flag, a) then [a] else [])
    ensures FlagsOf(flag, s + [a]) == FlagsOf(flag, s) + FlagsOf(flag, [a])
  {
    assert (s + [a])[..|s|] == s;
    assert [a][..0] == [];
  }

  /** `process(['-v'])` prints the version line and nothing else. */
  lemma VersionRun(version: seq<nat>)
    ensures Flags(["-v"]) == ["v"] && Kept(["-v"]) == []
    ensures FlagMessages(Flags(["-v"]), Output(version)) == [VersionLine(version)]
  {
    var args := ["-v"];
    assert "-" + "v" + "" == args[0];
    FlagNameComplete("-", "v", "");
    assert !IsHelpFlag(FlagName, args[0]);
    NoHelpVisitsAll(FlagName, args);
    assert args[..0] == [];
    FlagsOfOne(FlagName, args[0]);
    assert FlagOutput("v", version) == [VersionLine(version)];
  }

  /** `process(['-h'])` prints the command list and runs no command. */
  lemma HelpRun(version: seq<nat>)
    ensures Flags(["-h"]) == ["h"] && Kept(["-h"]) == [] && Dispatched(Kept(["-h"])) == []
    ensures FlagMessages(Flags(["-h"]), Output(version)) + DispatchOutput(Kept(["-h"])) == HelpLines()
  {
    var args := ["-h"];
    assert "-" + "h" + "" == args[0];
    FlagNameComplete("-", "h", "");
    assert args[..0] == [] && ["h"][..0] == [];
    assert HelpAt(FlagName, args) == Some(0);
    assert args[..1] == args;
    assert FlagsOf(FlagName, args) == ["h"];
    assert FlagOutput("h", version) == HelpLines();
  }
}
