/**
 * A JavaScript object seen through `for ... in` and `hasOwnProperty`: its own
 * enumerable properties as (key, value) pairs in enumeration order.  Assigning
 * to an existing key replaces its value in place; assigning to a new key
 * appends it.
 */
module JsObject {
  import opened Wrappers
  import opened Sequences

  type Entries<V> = seq<(string, V)>

  function Keys<V>(m: Entries<V>): (ks: seq<string>)
    ensures |ks| == |m|
    ensures forall i {:trigger ks[i]} :: 0 <= i < |m| ==> ks[i] == m[i].0
  {
    seq(|m|, i requires 0 <= i < |m| => m[i].0)
  }

  /** Every key occurs once, as in a real object. */
  ghost predicate DistinctKeys<V>(m: Entries<V>) {
    forall i, j :: 0 <= i < j < |m| ==> m[i].0 != m[j].0
  }

  lemma DistinctKeysOfKeys<V>(m: Entries<V>)
    requires Distinct(Keys(m))
    ensures DistinctKeys(m)
  {
    forall i, j | 0 <= i < j < |m| ensures m[i].0 != m[j].0 {
      assert Keys(m)[i] == m[i].0 && Keys(m)[j] == m[j].0;
    }
  }

  /** `m[k]`, with `None` for a missing property. */
  function Get<V>(m: Entries<V>, k: string): (r: Option<V>)
    ensures r.None? <==> k !in Keys(m)
    ensures r.Some? ==> (k, r.value) in m
  {
    if m == [] then None
    else
      KeysUncons(m);
      if m[0].0 == k then Some(m[0].1) else Get(m[1..], k)
  }

  /** `m[k] = v`: replaces the value of an existing key in place, or appends a new key. */
  function Put<V>(m: Entries<V>, k: string, v: V): (r: Entries<V>)
    ensures Get(r, k) == Some(v)
    ensures forall k' :: k' != k ==> Get(r, k') == Get(m, k')
    ensures Keys(r) == if k in Keys(m) then Keys(m) else Keys(m) + [k]
    decreases |m|
  {
    if m == [] then [(k, v)]
    else if m[0].0 == k then
      KeysUncons(m);
      KeysCons((k, v), m[1..]);
      [(k, v)] + m[1..]
    else
      var t := Put(m[1..], k, v);
      KeysUncons(m);
      KeysCons(m[0], t);
      KeysSnoc(m[0].0, Keys(m[1..]), k);
      [m[0]] + t
  }

  /** An object with one more entry in front. */
  lemma KeysCons<V>(e: (string, V), t: Entries<V>)
    ensures ([e] + t)[1..] == t && ([e] + t)[0] == e
    ensures Keys([e] + t) == [e.0] + Keys(t)
  {
    assert ([e] + t)[1..] == t;
  }

  /** The same, read off a non-empty object. */
  lemma KeysUncons<V>(m: Entries<V>)
    requires m != []
    ensures m == [m[0]] + m[1..]
    ensures Keys(m) == [m[0].0] + Keys(m[1..])
  {
    assert m == [m[0]] + m[1..];
    KeysCons(m[0], m[1..]);
  }

  lemma KeysSnoc(a: string, rest: seq<string>, k: string)
    requires a != k
    ensures k in [a] + rest <==> k in rest
    ensures [a] + (rest + [k]) == ([a] + rest) + [k]
  {
  }

  lemma PutKeepsDistinct<V>(m: Entries<V>, k: string, v: V)
    requires DistinctKeys(m)
    ensures DistinctKeys(Put(m, k, v))
  {
    var r := Put(m, k, v);
    forall i, j | 0 <= i < j < |r| ensures r[i].0 != r[j].0 {
      assert Keys(r)[i] == r[i].0 && Keys(r)[j] == r[j].0;
      if k !in Keys(m) {
        assert Keys(r) == Keys(m) + [k];
        if j < |m| {
          assert Keys(m)[i] == m[i].0 && Keys(m)[j] == m[j].0;
        }
      } else {
        assert Keys(m)[i] == m[i].0 && Keys(m)[j] == m[j].0;
      }
    }
  }

  lemma GetAt<V>(m: Entries<V>, i: nat)
    requires DistinctKeys(m) && i < |m|
    ensures Get(m, m[i].0) == Some(m[i].1)
  {
    assert Keys(m)[i] == m[i].0;
    var r := Get(m, m[i].0);
    var j :| 0 <= j < |m| && m[j] == (m[i].0, r.value);
    assert j == i;
  }

  lemma KeysAppend<V>(a: Entries<V>, b: Entries<V>)
    ensures Keys(a + b) == Keys(a) + Keys(b)
  {
  }

  /** Looking a key up after appending one more entry. */
  lemma GetSnoc<V>(m: Entries<V>, k: string, v: V, q: string)
    ensures Get(m + [(k, v)], q) ==
            if q in Keys(m) then Get(m, q) else if q == k then Some(v) else None
  {
    KeysAppend(m, [(k, v)]);
    if m != [] {
      assert (m + [(k, v)])[1..] == m[1..] + [(k, v)];
      assert Keys(m) == [m[0].0] + Keys(m[1..]);
      GetSnoc(m[1..], k, v, q);
    }
  }

  // ------------------------------------------------------------ defaults

  /**
   * `for (d in defaults) if (!(d in options)) options[d] = defaults[d]`:
   * every default the caller did not supply is added, in the order of
   * `defaults`.
   */
  function MergeDefaults<V>(options: Entries<V>, defaults: Entries<V>): Entries<V>
    decreases |defaults|
  {
    if defaults == [] then options
    else
      var prev := MergeDefaults(options, defaults[..|defaults| - 1]);
      var (d, v) := defaults[|defaults| - 1];
      if d in Keys(prev) then prev else Put(prev, d, v)
  }

  /**
   * Supplied options keep their values whatever the defaults say; a missing
   * option takes its default; nothing else is added.
   */
  lemma {:induction false} MergeDefaultsSpec<V>(options: Entries<V>, defaults: Entries<V>, k: string)
    ensures k in Keys(MergeDefaults(options, defaults)) <==> k in Keys(options) || k in Keys(defaults)
    ensures Get(MergeDefaults(options, defaults), k) ==
            if k in Keys(options) then Get(options, k) else Get(defaults, k)
    decreases |defaults|
  {
    if defaults != [] {
      var init := defaults[..|defaults| - 1];
      var (d, v) := defaults[|defaults| - 1];
      assert defaults == init + [(d, v)];
      MergeDefaultsSpec(options, init, k);
      GetSnoc(init, d, v, k);
      KeysAppend(init, [(d, v)]);
      if d in Keys(MergeDefaults(options, init)) && k == d {
        MergeDefaultsSpec(options, init, d);
      }
    }
  }

  /** The defaults loop itself, run over a copy of the options. */
  method FillDefaults<V>(options: Entries<V>, defaults: Entries<V>) returns (r: Entries<V>)
    ensures r == MergeDefaults(options, defaults)
  {
    r := options;
    var i := 0;
    while i < |defaults|
      invariant 0 <= i <= |defaults|
      invariant r == MergeDefaults(options, defaults[..i])
    {
      assert defaults[..i + 1][..i] == defaults[..i];
      var (d, v) := defaults[i];
      if d !in Keys(r) {
        r := Put(r, d, v);
      }
      i := i + 1;
    }
    assert defaults[..|defaults|] == defaults;
  }
}
