/**
 * The parts of Node's `path` module the bundler relies on, for clean relative
 * paths (no empty, `.` or `..` components, no doubled or trailing slash).
 */
module Paths {
  import opened Wrappers
  import opened JsValue

  predicate HasSuffix(s: string, suffix: string) {
    |suffix| <= |s| && s[|s| - |suffix|..] == suffix
  }

  predicate HasPrefix(s: string, prefix: string) {
    |prefix| <= |s| && s[..|prefix|] == prefix
  }

  /** A suffix stays a suffix when one character is appended to both. */
  lemma SuffixSnoc(q: string, b: string, x: char)
    requires HasSuffix(q, b)
    ensures HasSuffix(q + [x], b + [x])
  {
    var p := q + [x];
    forall j | 0 <= j < |b| + 1 ensures p[|q| - |b| + j] == (b + [x])[j] {
      if j < |b| {
        assert p[|q| - |b| + j] == q[|q| - |b|..][j];
      }
    }
    assert p[|p| - |b| - 1..] == b + [x];
  }

  lemma SuffixTrans(p: string, b: string, e: string)
    requires HasSuffix(p, b) && HasSuffix(b, e)
    ensures HasSuffix(p, e)
  {
    forall j | 0 <= j < |e| ensures p[|p| - |e| + j] == e[j] {
      assert e[j] == b[|b| - |e|..][j] == b[|b| - |e| + j];
      assert b[|b| - |e| + j] == p[|p| - |b|..][|b| - |e| + j];
    }
    assert p[|p| - |e|..] == e;
  }

  lemma NotInSuffix(s: string, e: string, c: char)
    requires HasSuffix(s, e) && c !in s
    ensures c !in e
  {
    forall j | 0 <= j < |e| ensures e[j] != c {
      assert e[j] == s[|s| - |e|..][j];
    }
  }

  /** The last component of a path: the longest suffix without a slash. */
  function Basename(p: string): (b: string)
    ensures '/' !in b && HasSuffix(p, b)
    ensures |b| < |p| ==> p[|p| - |b| - 1] == '/'
  {
    if p == [] || p[|p| - 1] == '/' then []
    else
      var q := p[..|p| - 1];
      assert p == q + [p[|p| - 1]];
      SlashFreeSnoc(q, Basename(q), p[|p| - 1]);
      Basename(q) + [p[|p| - 1]]
  }

  /** A slash-free last component grows by a non-slash character. */
  lemma SlashFreeSnoc(q: string, b: string, x: char)
    requires '/' !in b && HasSuffix(q, b) && x != '/'
    requires |b| < |q| ==> q[|q| - |b| - 1] == '/'
    ensures var p, c := q + [x], b + [x];
      '/' !in c && HasSuffix(p, c) && (|c| < |p| ==> p[|p| - |c| - 1] == '/')
  {
    SuffixSnoc(q, b, x);
    NotInAppend(b, [x], '/');
    var p, c := q + [x], b + [x];
    if |c| < |p| {
      assert p[|p| - |c| - 1] == q[|q| - |b| - 1];
    }
  }

  /**
   * The part of `s` from its last dot on: it starts with the dot and holds no
   * other, and it is empty exactly when `s` has no dot.
   */
  function FromLastDot(s: string): (e: string)
    ensures e == "" <==> '.' !in s
    ensures e != "" ==> HasSuffix(s, e) && e[0] == '.' && '.' !in e[1..]
  {
    if s == [] then []
    else if s[|s| - 1] == '.' then
      assert s[|s| - 1..] == ".";
      "."
    else
      var q := s[..|s| - 1];
      var x := s[|s| - 1];
      assert s == q + [x];
      var e := FromLastDot(q);
      if e == [] then []
      else
        SuffixSnoc(q, e, x);
        assert (e + [x])[1..] == e[1..] + [x];
        e + [x]
  }

  /** Where such a part starts: at a dot with no dot after it. */
  lemma LastDotAt(s: string, e: string)
    requires e != "" && HasSuffix(s, e) && e[0] == '.' && '.' !in e[1..]
    ensures s[|s| - |e|] == '.'
    ensures forall j :: |s| - |e| < j < |s| ==> s[j] != '.'
  {
    assert s[|s| - |e|] == s[|s| - |e|..][0];
    forall j | |s| - |e| < j < |s| ensures s[j] != '.' {
      assert s[j] == s[|s| - |e|..][j - (|s| - |e|)];
      assert e[j - (|s| - |e|)] == e[1..][j - (|s| - |e|) - 1];
    }
  }

  /**
   * `path.extname(p)`: the last component's text from its last dot on, or ""
   * when that component has no dot, starts with its only dot, or is "..".
   */
  function ExtName(p: string): (e: string)
    ensures e == "" || (HasSuffix(p, e) && e[0] == '.' && '/' !in e && '.' !in e[1..])
  {
    var b := Basename(p);
    var e := FromLastDot(b);
    if e == "" || |e| == |b| || b == ".." then ""
    else
      SuffixTrans(p, b, e);
      NotInSuffix(b, e, '/');
      e
  }

  /**
   * A file name with a given extension: the stem is a non-empty name with no
   * slash other than ".", and the extension is a dot
   * followed by characters other than dots and slashes.
   */
  lemma ExtNameOfStemAndExt(stem: string, ext: string)
    requires stem != [] && stem != "." && '/' !in stem && '/' !in ext
    requires ext != [] && ext[0] == '.' && '.' !in ext[1..]
    ensures ExtName(stem + ext) == ext
  {
    var p := stem + ext;
    assert Basename(p) == p by {
      NotInAppend(stem, ext, '/');
      SlashFreeBasename(p);
    }
    assert FromLastDot(p) == ext by {
      LastDotOf(stem, ext);
    }
    assert p != ".." by {
      assert [p[0]] == p[..1] == stem[..1];
      assert stem == [p[0]] || |stem| > 1;
    }
    ExtNameOfWhole(p, ext);
  }

  /** The extension of a slash-free name whose last dot is not its first character. */
  lemma ExtNameOfWhole(p: string, e: string)
    requires Basename(p) == p && FromLastDot(p) == e
    requires e != "" && |e| < |p| && p != ".."
    ensures ExtName(p) == e
  {
  }

  lemma NotInAppend(a: string, b: string, c: char)
    requires c !in a && c !in b
    ensures c !in a + b
  {
    forall j | 0 <= j < |a + b| ensures (a + b)[j] != c {
      if j < |a| { assert (a + b)[j] == a[j]; } else { assert (a + b)[j] == b[j - |a|]; }
    }
  }

  /** A path without a slash is its own last component. */
  lemma SlashFreeBasename(p: string)
    requires '/' !in p
    ensures Basename(p) == p
  {
    var b := Basename(p);
    assert |b| == |p|;
    assert p[|p| - |p|..] == p;
  }

  /** The part from the last dot of a stem followed by an extension. */
  lemma LastDotOf(stem: string, ext: string)
    requires ext != [] && ext[0] == '.' && '.' !in ext[1..]
    ensures FromLastDot(stem + ext) == ext
  {
    var p := stem + ext;
    assert p[|stem|] == '.';
    forall j | |stem| < j < |p| ensures p[j] != '.' {
      assert p[j] == ext[1..][j - |stem| - 1];
    }
    var e := FromLastDot(p);
    LastDotAt(p, e);
    assert |e| == |ext|;
    assert p[|stem|..] == ext;
  }

  /** No extension when the last component has no dot. */
  lemma NoDotNoExt(p: string)
    requires '.' !in Basename(p)
    ensures ExtName(p) == ""
  {
  }

  /**
   * `path.join(a, b)` for two clean relative segments: empty segments drop
   * out, and joining nothing gives ".".
   */
  function Join(a: string, b: string): (r: string)
    ensures r != ""
    ensures a != "" ==> HasPrefix(r, a)
    ensures b != "" ==> HasSuffix(r, b)
    ensures a != "" && b != "" ==> r == a + "/" + b
  {
    if a == "" then (if b == "" then "." else b)
    else if b == "" then a
    else a + "/" + b
  }

  /** The TypeError Node throws when a segment given to `path.join` is not a string. */
  const JoinTypeError := JsError("TypeError", "Arguments to path.join must be strings")

  /** `path.join` on arbitrary values: a non-string segment throws. */
  function JoinValues(a: Value, b: Value): (r: Result<string, JsError>)
    ensures r.Ok? <==> a.Str? && b.Str?
    ensures r.Ok? ==> r.value == Join(a.s, b.s)
    ensures r.Err? ==> r.error == JoinTypeError
  {
    if a.Str? && b.Str? then Ok(Join(a.s, b.s)) else Err(JoinTypeError)
  }

  /** `s.replace(/^(\.)?/, '')`: drops one leading dot. */
  function StripLeadingDot(s: string): (r: string)
    ensures s == (if HasPrefix(s, ".") then "." else "") + r
  {
    if |s| > 0 && s[0] == '.' then s[1..] else s
  }
}
