/** Sequence operations the dashboard borrows from JavaScript arrays and
    lodash: `Array.prototype.filter`, `_.uniq`, `Array.prototype.indexOf`,
    together with the reference notions they are proved against. */
module Seqs {

  /** Array.prototype.filter: the elements satisfying `keep`, in order. */
  function Filter<T(!new)>(s: seq<T>, keep: T -> bool): (r: seq<T>)
    ensures |r| <= |s|
    ensures forall i :: 0 <= i < |r| ==> r[i] in s && keep(r[i])
    ensures forall x :: x in r <==> x in s && keep(x)
  {
    if |s| == 0 then []
    else (if keep(s[0]) then [s[0]] else []) + Filter(s[1..], keep)
  }

  /** `idx` is a strictly increasing list of positions of `s` that spells out `r`. */
  ghost predicate Embeds<T>(idx: seq<int>, r: seq<T>, s: seq<T>) {
    && |idx| == |r|
    && (forall k :: 0 <= k < |idx| ==> 0 <= idx[k] < |s| && r[k] == s[idx[k]])
    && (forall k, l :: 0 <= k < l < |idx| ==> idx[k] < idx[l])
  }

  /** `r` is obtained from `s` by deleting elements, without reordering. */
  ghost predicate IsSubsequence<T>(r: seq<T>, s: seq<T>) {
    exists idx :: Embeds(idx, r, s)
  }

  predicate NoDuplicates<T(==)>(s: seq<T>) {
    forall i, j :: 0 <= i < j < |s| ==> s[i] != s[j]
  }

  /** Every position moved one place to the right. */
  function Shift(xs: seq<int>): (r: seq<int>)
    ensures |r| == |xs|
    ensures forall k :: 0 <= k < |xs| ==> r[k] == xs[k] + 1
  {
    seq(|xs|, k requires 0 <= k < |xs| => xs[k] + 1)
  }

  /** The positions of `s` whose element satisfies `keep`, in increasing order. */
  function KeptIndices<T>(s: seq<T>, keep: T -> bool): seq<int> {
    if |s| == 0 then []
    else (if keep(s[0]) then [0] else []) + Shift(KeptIndices(s[1..], keep))
  }

  /** An embedding into the tail of `s` is, shifted, an embedding into `s`
      that avoids position 0. */
  lemma ShiftEmbeds<T>(idx: seq<int>, r: seq<T>, s: seq<T>)
    requires |s| > 0 && Embeds(idx, r, s[1..])
    ensures Embeds(Shift(idx), r, s)
    ensures forall i :: 0 <= i < |s| ==> (i in Shift(idx) <==> i >= 1 && i - 1 in idx)
  {
    var shifted := Shift(idx);
    forall i | 0 <= i < |s|
      ensures i in shifted <==> i >= 1 && i - 1 in idx
    {
      if i in shifted {
        var k :| 0 <= k < |shifted| && shifted[k] == i;
        assert idx[k] == i - 1;
      }
      if i >= 1 && i - 1 in idx {
        var k :| 0 <= k < |idx| && idx[k] == i - 1;
        assert shifted[k] == i;
      }
    }
  }

  /** Filter keeps exactly the positions where `keep` holds, in their original
      order: the result is the subsequence of `s` picked out by those positions. */
  lemma {:induction false} FilterPicksKeptIndices<T(!new)>(s: seq<T>, keep: T -> bool)
    ensures Embeds(KeptIndices(s, keep), Filter(s, keep), s)
    ensures forall i :: 0 <= i < |s| ==> (i in KeptIndices(s, keep) <==> keep(s[i]))
  {
    KeptIndicesEmbed(s, keep);
    KeptIndicesAreKept(s, keep);
  }

  lemma {:induction false} KeptIndicesEmbed<T(!new)>(s: seq<T>, keep: T -> bool)
    ensures Embeds(KeptIndices(s, keep), Filter(s, keep), s)
  {
    if |s| > 0 {
      var tail := KeptIndices(s[1..], keep);
      var rest := Filter(s[1..], keep);
      KeptIndicesEmbed(s[1..], keep);
      ShiftEmbeds(tail, rest, s);
      if keep(s[0]) {
        assert KeptIndices(s, keep) == [0] + Shift(tail);
        assert Filter(s, keep) == [s[0]] + rest;
        ConsEmbeds(Shift(tail), rest, s);
      } else {
        assert KeptIndices(s, keep) == Shift(tail);
        assert Filter(s, keep) == rest;
      }
    }
  }

  lemma {:induction false} KeptIndicesAreKept<T(!new)>(s: seq<T>, keep: T -> bool)
    ensures forall i :: 0 <= i < |s| ==> (i in KeptIndices(s, keep) <==> keep(s[i]))
  {
    if |s| > 0 {
      var tail := KeptIndices(s[1..], keep);
      KeptIndicesAreKept(s[1..], keep);
      KeptIndicesEmbed(s[1..], keep);
      ShiftEmbeds(tail, Filter(s[1..], keep), s);
      forall i | 1 <= i < |s|
        ensures i in Shift(tail) <==> keep(s[i])
      {
        assert s[1..][i - 1] == s[i];
      }
    }
  }

  /** Position 0 may be put in front of an embedding that avoids it. */
  lemma ConsEmbeds<T>(idx: seq<int>, r: seq<T>, s: seq<T>)
    requires |s| > 0 && Embeds(idx, r, s)
    requires forall k :: 0 <= k < |idx| ==> 1 <= idx[k]
    ensures Embeds([0] + idx, [s[0]] + r, s)
  {
    var idx', r' := [0] + idx, [s[0]] + r;
    assert forall k :: 1 <= k < |idx'| ==> idx'[k] == idx[k - 1] && r'[k] == r[k - 1];
  }

  lemma {:induction false} FilterAppend<T(!new)>(a: seq<T>, b: seq<T>, keep: T -> bool)
    ensures Filter(a + b, keep) == Filter(a, keep) + Filter(b, keep)
  {
    if |a| == 0 {
      assert a + b == b;
    } else {
      assert (a + b)[1..] == a[1..] + b;
      FilterAppend(a[1..], b, keep);
    }
  }

  /** Two filters in a row are one filter by the conjunction. */
  lemma {:induction false} FilterFusion<T(!new)>(s: seq<T>, p: T -> bool, q: T -> bool, both: T -> bool)
    requires forall x :: both(x) == (p(x) && q(x))
    ensures Filter(Filter(s, p), q) == Filter(s, both)
  {
    if |s| > 0 {
      FilterFusion(s[1..], p, q, both);
      var head: seq<T> := if p(s[0]) then [s[0]] else [];
      FilterAppend(head, Filter(s[1..], p), q);
      if p(s[0]) {
        assert Filter(head, q) == (if q(s[0]) then [s[0]] else []) by {
          assert head[1..] == [];
        }
      }
    }
  }

  /** Filters by predicates that agree everywhere agree. */
  lemma {:induction false} FilterExtensional<T(!new)>(s: seq<T>, p: T -> bool, q: T -> bool)
    requires forall x :: p(x) == q(x)
    ensures Filter(s, p) == Filter(s, q)
  {
    if |s| > 0 {
      FilterExtensional(s[1..], p, q);
    }
  }

  /** A filter every element passes returns its input. */
  lemma {:induction false} FilterKeepsAll<T(!new)>(s: seq<T>, keep: T -> bool)
    requires forall i :: 0 <= i < |s| ==> keep(s[i])
    ensures Filter(s, keep) == s
  {
    if |s| > 0 {
      FilterKeepsAll(s[1..], keep);
    }
  }

  /** A subsequence of a sequence without duplicates has none either. */
  lemma EmbedsNoDuplicates<T>(idx: seq<int>, r: seq<T>, s: seq<T>)
    requires Embeds(idx, r, s) && NoDuplicates(s)
    ensures NoDuplicates(r)
  {
    forall i, j | 0 <= i < j < |r|
      ensures r[i] != r[j]
    {
      assert idx[i] < idx[j];
    }
  }

  /** Array.prototype.indexOf for a present element. */
  function FirstIndex<T(==)>(s: seq<T>, x: T): (i: nat)
    requires x in s
    ensures i < |s| && s[i] == x
    ensures forall j :: 0 <= j < i ==> s[j] != x
  {
    if s[0] == x then 0
    else
      assert x in s[1..];
      1 + FirstIndex(s[1..], x)
  }

  /** The first occurrence of `x` is the only position holding `x` with no
      earlier `x`. */
  lemma FirstIndexUnique<T>(s: seq<T>, x: T, i: int)
    requires 0 <= i < |s| && s[i] == x
    requires forall j :: 0 <= j < i ==> s[j] != x
    ensures FirstIndex(s, x) == i
  {
  }

  /** lodash `_.uniq`: the first occurrence of every distinct element, in order. */
  function Uniq<T(==)>(s: seq<T>): (r: seq<T>)
    ensures forall i :: 0 <= i < |r| ==> r[i] in s
    ensures forall i :: 0 <= i < |s| ==> s[i] in r
    ensures NoDuplicates(r)
  {
    if |s| == 0 then []
    else
      var init := s[..|s| - 1];
      assert s == init + [s[|s| - 1]];
      var u := Uniq(init);
      if s[|s| - 1] in u then u else u + [s[|s| - 1]]
  }

  /** `_.uniq` lists values in the order in which they are first seen. */
  lemma {:induction false} UniqFirstSeenOrder<T>(s: seq<T>)
    ensures forall i, j :: 0 <= i < j < |Uniq(s)| ==>
      FirstIndex(s, Uniq(s)[i]) < FirstIndex(s, Uniq(s)[j])
  {
    if |s| > 0 {
      var init := s[..|s| - 1];
      var last := s[|s| - 1];
      assert s == init + [last];
      UniqFirstSeenOrder(init);
      var u := Uniq(init);
      forall y | y in init
        ensures FirstIndex(s, y) == FirstIndex(init, y)
      {
        var k := FirstIndex(init, y);
        assert s[..k] == init[..k];
        FirstIndexUnique(s, y, k);
      }
      if last !in u {
        assert last !in init;
        assert s[..|s| - 1] == init;
        FirstIndexUnique(s, last, |s| - 1);
        var r := u + [last];
        forall i, j | 0 <= i < j < |r|
          ensures FirstIndex(s, r[i]) < FirstIndex(s, r[j])
        {
          assert r[i] == u[i] && r[i] in init;
          if j < |u| {
            assert r[j] == u[j] && r[j] in init;
          }
        }
      } else {
        forall i, j | 0 <= i < j < |u|
          ensures FirstIndex(s, u[i]) < FirstIndex(s, u[j])
        {
          assert u[i] in init && u[j] in init;
        }
      }
    }
  }
}
