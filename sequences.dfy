/** Sequence helpers: de-duplication by first appearance, as `indexOf(x) == -1` before a push does it. */
module Sequences {

  ghost predicate Distinct<T>(s: seq<T>) {
    forall i, j :: 0 <= i < j < |s| ==> s[i] != s[j]
  }

  /** The elements of `s` without repeats, each where it first appears. */
  function Dedupe<T(==)>(s: seq<T>): seq<T> {
    if s == [] then []
    else
      var prev := Dedupe(s[..|s| - 1]);
      if s[|s| - 1] in prev then prev else prev + [s[|s| - 1]]
  }

  /** The index of the first occurrence of `x` in `s`. */
  function FirstIndex<T(==)>(s: seq<T>, x: T): (r: nat)
    requires x in s
    ensures r < |s| && s[r] == x
    ensures forall j :: 0 <= j < r ==> s[j] != x
  {
    if s[0] == x then 0 else 1 + FirstIndex(s[1..], x)
  }

  lemma FirstIndexSnoc<T>(s: seq<T>, y: T, x: T)
    requires x in s
    ensures x in s + [y] && FirstIndex(s + [y], x) == FirstIndex(s, x)
  {
    var i := FirstIndex(s, x);
    var k := FirstIndex(s + [y], x);
    assert (s + [y])[i] == x;
    assert k <= i;
    assert s[k] == (s + [y])[k];
  }

  /** An element is kept exactly when it occurs. */
  lemma {:induction false} DedupeMembers<T>(s: seq<T>)
    ensures forall x :: x in Dedupe(s) <==> x in s
  {
    if s != [] {
      var init := s[..|s| - 1];
      DedupeMembers(init);
      assert s == init + [s[|s| - 1]];
    }
  }

  /** No element is kept twice. */
  lemma {:induction false} DedupeDistinct<T>(s: seq<T>)
    ensures Distinct(Dedupe(s))
  {
    if s != [] {
      DedupeDistinct(s[..|s| - 1]);
    }
  }

  /** Kept elements are ordered by where they first appear. */
  lemma {:induction false} DedupeOrder<T>(s: seq<T>)
    ensures forall x :: x in Dedupe(s) ==> x in s
    ensures forall i, j :: 0 <= i < j < |Dedupe(s)| ==>
              FirstIndex(s, Dedupe(s)[i]) < FirstIndex(s, Dedupe(s)[j])
  {
    DedupeMembers(s);
    if s != [] {
      var init := s[..|s| - 1];
      var y := s[|s| - 1];
      assert s == init + [y];
      DedupeOrder(init);
      DedupeMembers(init);
      var prev := Dedupe(init);
      var r := Dedupe(s);
      forall i, j | 0 <= i < j < |r| ensures FirstIndex(s, r[i]) < FirstIndex(s, r[j]) {
        assert r[i] in prev;
        FirstIndexSnoc(init, y, r[i]);
        if j < |prev| {
          FirstIndexSnoc(init, y, r[j]);
        } else {
          assert r[j] == y && y !in init;
          assert FirstIndex(s, r[j]) == |init|;
        }
      }
    }
  }


  // ------------------------------------------------------------- arrangements

  function Range(n: nat): (r: seq<nat>)
    ensures |r| == n && forall i :: 0 <= i < n ==> r[i] == i
  {
    seq(n, i => i)
  }

  /** `order` lists every index below `n` exactly once. */
  predicate IsArrangement(order: seq<nat>, n: nat) {
    multiset(order) == multiset(Range(n))
  }

  /** Every index in `order` is below `n`. */
  predicate Below(order: seq<nat>, n: nat) {
    forall k :: 0 <= k < |order| ==> order[k] < n
  }

  /** The elements of `s` in the order the indices in `order` name them. */
  function Arrange<T>(s: seq<T>, order: seq<nat>): (r: seq<T>)
    requires Below(order, |s|)
    ensures |r| == |order| && forall k {:trigger r[k]} :: 0 <= k < |order| ==> r[k] == s[order[k]]
  {
    seq(|order|, k requires 0 <= k < |order| => s[order[k]])
  }

  lemma ArrangementBounded(order: seq<nat>, n: nat)
    requires IsArrangement(order, n)
    ensures |order| == n && Below(order, n)
  {
    assert |order| == |multiset(order)| == |multiset(Range(n))| == n;
    forall k | 0 <= k < |order| ensures order[k] < n {
      assert order[k] in multiset(Range(n));
    }
  }

  lemma MultisetWithout<T>(qs: seq<T>, j: nat)
    requires j < |qs|
    ensures multiset(qs[..j] + qs[j + 1..]) == multiset(qs) - multiset{qs[j]}
  {
    SplitAt(qs, j);
  }

  /** A sequence is what precedes position `j`, the element there, and what follows. */
  lemma SplitAt<T>(qs: seq<T>, j: nat)
    requires j < |qs|
    ensures qs == qs[..j] + [qs[j]] + qs[j + 1..]
  {
    assert qs[..j + 1] == qs[..j] + [qs[j]];
    assert qs == qs[..j + 1] + qs[j + 1..];
  }

  lemma ArrangeAppend<T>(s: seq<T>, a: seq<nat>, b: seq<nat>)
    requires Below(a, |s|) && Below(b, |s|)
    ensures Below(a + b, |s|)
    ensures Arrange(s, a + b) == Arrange(s, a) + Arrange(s, b)
  {
    assert forall k :: 0 <= k < |a + b| ==> (a + b)[k] == if k < |a| then a[k] else b[k - |a|];
  }

  /** Taking index `j` out of an arrangement takes its element out of the result. */
  lemma ArrangeWithout<T>(s: seq<T>, ys: seq<nat>, j: nat)
    requires j < |ys| && Below(ys, |s|)
    ensures Below(ys[..j] + ys[j + 1..], |s|)
    ensures multiset(Arrange(s, ys)) == multiset(Arrange(s, ys[..j] + ys[j + 1..])) + multiset{s[ys[j]]}
  {
    var a, x, b := ys[..j], [ys[j]], ys[j + 1..];
    SplitAt(ys, j);
    assert Below(a, |s|) && Below(x, |s|) && Below(b, |s|);
    assert Arrange(s, ys) == Arrange(s, a) + Arrange(s, x) + Arrange(s, b) by {
      ArrangeAppend(s, a, x);
      ArrangeAppend(s, a + x, b);
    }
    ArrangeAppend(s, a, b);
    assert Arrange(s, x) == [s[ys[j]]];
    MultisetMiddle(Arrange(s, a), Arrange(s, x), Arrange(s, b));
  }

  lemma MultisetMiddle<T>(a: seq<T>, x: seq<T>, b: seq<T>)
    ensures multiset(a + x + b) == multiset(x) + multiset(a + b)
  {
  }

  lemma {:induction false} ArrangeMultiset<T>(s: seq<T>, xs: seq<nat>, ys: seq<nat>)
    requires Below(xs, |s|) && Below(ys, |s|)
    requires multiset(xs) == multiset(ys)
    ensures multiset(Arrange(s, xs)) == multiset(Arrange(s, ys))
    decreases |xs|
  {
    if xs == [] {
      assert |ys| == |multiset(ys)| == 0;
    } else {
      var x := xs[0];
      assert x in multiset(ys);
      var j :| 0 <= j < |ys| && ys[j] == x;
      assert xs[..0] + xs[1..] == xs[1..];
      MultisetWithout(ys, j);
      MultisetWithout(xs, 0);
      ArrangeWithout(s, ys, j);
      ArrangeWithout(s, xs, 0);
      ArrangeMultiset(s, xs[1..], ys[..j] + ys[j + 1..]);
    }
  }

  /** An arrangement of all indices permutes the sequence. */
  lemma ArrangePermutes<T>(s: seq<T>, order: seq<nat>)
    requires IsArrangement(order, |s|)
    ensures Below(order, |s|)
    ensures multiset(Arrange(s, order)) == multiset(s)
  {
    ArrangementBounded(order, |s|);
    ArrangeMultiset(s, order, Range(|s|));
    assert Arrange(s, Range(|s|)) == s;
  }

  lemma ConcatAssoc<T>(a: seq<T>, b: seq<T>, c: seq<T>)
    ensures (a + b) + c == a + (b + c)
  {
  }
}
