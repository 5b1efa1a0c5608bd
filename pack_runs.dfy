/**
 * The completion counter of `pack`: `afterBundle` receives each bundle's
 * outcome in whatever order the bundles finish, collects the written output
 * paths and counts the failures, and fires the final callback when the two
 * together reach the number of bundles.
 */
module PackRuns {
  import opened Sequences
  import opened Assembly

  /** The output paths of the written bundles, in arrival order. */
  function Successes(rs: seq<Rendered>): seq<string> {
    if rs == [] then []
    else Successes(rs[..|rs| - 1]) + (if rs[|rs| - 1].Written? then [rs[|rs| - 1].file] else [])
  }

  /** The number of failed bundles. */
  function Failures(rs: seq<Rendered>): nat {
    if rs == [] then 0
    else Failures(rs[..|rs| - 1]) + (if rs[|rs| - 1].Failed? then 1 else 0)
  }

  /**
   * The successive values the final callback receives when the outcomes
   * arrive in the order given: after each arrival, the callback fires with
   * the success list if successes plus failures equal the bundle count.
   */
  function Fired(total: nat, rs: seq<Rendered>): seq<seq<string>> {
    if rs == [] then []
    else
      Fired(total, rs[..|rs| - 1])
      + (if |Successes(rs)| + Failures(rs) == total then [Successes(rs)] else [])
  }

  /** Every arrival counts once, as a success or as a failure. */
  lemma {:induction false} ArrivalsCounted(rs: seq<Rendered>)
    ensures |Successes(rs)| + Failures(rs) == |rs|
  {
    if rs != [] {
      ArrivalsCounted(rs[..|rs| - 1]);
    }
  }

  /**
   * As long as no more outcomes arrive than there are bundles, the callback
   * fires at most once: exactly when every bundle has reported and there is
   * at least one, with the output paths of the written bundles.  With zero
   * bundles it never fires.
   */
  lemma {:induction false} FiredSpec(total: nat, rs: seq<Rendered>)
    requires |rs| <= total
    ensures Fired(total, rs) == if 0 < total == |rs| then [Successes(rs)] else []
  {
    if rs != [] {
      var init := rs[..|rs| - 1];
      FiredSpec(total, init);
      ArrivalsCounted(rs);
    }
  }

  /** The tallies and the callback log after one more arrival. */
  lemma ArriveOne(total: nat, rs: seq<Rendered>, r: Rendered)
    ensures var next := rs + [r];
      && Successes(next) == Successes(rs) + (if r.Written? then [r.file] else [])
      && Failures(next) == Failures(rs) + (if r.Failed? then 1 else 0)
      && Fired(total, next) ==
         Fired(total, rs) + (if |Successes(next)| + Failures(next) == total then [Successes(next)] else [])
  {
    assert (rs + [r])[..|rs|] == rs;
  }

  lemma {:induction false} SuccessesAppend(xs: seq<Rendered>, ys: seq<Rendered>)
    ensures Successes(xs + ys) == Successes(xs) + Successes(ys)
    ensures Failures(xs + ys) == Failures(xs) + Failures(ys)
    decreases |ys|
  {
    if ys != [] {
      var init := ys[..|ys| - 1];
      assert (xs + ys)[..|xs + ys| - 1] == xs + init;
      SuccessesAppend(xs, init);
    } else {
      assert xs + ys == xs;
    }
  }

  /** Removing the element at `j` splits both tallies around it. */
  lemma TallyWithout(qs: seq<Rendered>, j: nat)
    requires j < |qs|
    ensures multiset(Successes(qs)) == multiset(Successes([qs[j]])) + multiset(Successes(qs[..j] + qs[j + 1..]))
    ensures Failures(qs) == Failures([qs[j]]) + Failures(qs[..j] + qs[j + 1..])
  {
    var a, x, b := qs[..j], [qs[j]], qs[j + 1..];
    SplitAt(qs, j);
    assert Successes(qs) == Successes(a) + Successes(x) + Successes(b)
        && Failures(qs) == Failures(a) + Failures(x) + Failures(b) by {
      SuccessesAppend(a + x, b);
      SuccessesAppend(a, x);
    }
    assert Successes(a + b) == Successes(a) + Successes(b)
        && Failures(a + b) == Failures(a) + Failures(b) by {
      SuccessesAppend(a, b);
    }
    MultisetMiddle(Successes(a), Successes(x), Successes(b));
  }

  /**
   * Whatever order the outcomes arrive in, the success list holds the same
   * output paths with the same multiplicities, and the failure count is
   * the same.
   */
  lemma {:induction false} ArrivalOrderIrrelevant(rs: seq<Rendered>, qs: seq<Rendered>)
    requires multiset(rs) == multiset(qs)
    ensures multiset(Successes(rs)) == multiset(Successes(qs))
    ensures Failures(rs) == Failures(qs)
    decreases |rs|
  {
    if rs == [] {
      assert |qs| == |multiset(qs)| == 0;
    } else {
      var x := rs[0];
      assert x in multiset(qs);
      var j :| 0 <= j < |qs| && qs[j] == x;
      var rest, tail := qs[..j] + qs[j + 1..], rs[1..];
      assert rs == [x] + tail;
      assert multiset(tail) == multiset(rest) by {
        MultisetWithout(qs, j);
      }
      ArrivalOrderIrrelevant(tail, rest);
      assert multiset(Successes(rs)) == multiset(Successes([x])) + multiset(Successes(tail))
          && Failures(rs) == Failures([x]) + Failures(tail) by {
        SuccessesAppend([x], tail);
      }
      TallyWithout(qs, j);
    }
  }
}
