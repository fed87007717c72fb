/**
 * Sequence helpers behind Python's `filter` and `str.join`, and the facts that
 * pin down what they produce.
 */
module Seqs {

  /** The elements of `s` that satisfy `p`, in their original order. */
  function Filter<T>(p: T -> bool, s: seq<T>): (r: seq<T>)
    ensures |r| <= |s|
    decreases |s|
  {
    if s == [] then []
    else Filter(p, s[..|s| - 1]) + (if p(s[|s| - 1]) then [s[|s| - 1]] else [])
  }

  /** The positions of `s` whose elements satisfy `p`, in increasing order. */
  function KeptIndices<T>(p: T -> bool, s: seq<T>): seq<nat>
    decreases |s|
  {
    if s == [] then []
    else KeptIndices(p, s[..|s| - 1]) + (if p(s[|s| - 1]) then [|s| - 1] else [])
  }

  /** Filtering an extended sequence filters the extension on its own. */
  lemma FilterSnoc<T>(p: T -> bool, s: seq<T>, x: T)
    ensures Filter(p, s + [x]) == Filter(p, s) + (if p(x) then [x] else [])
  {
    assert (s + [x])[..|s|] == s;
  }

  /** The elements of `xs` whose flag in `takes` is set, in their original order. */
  function Masked<T>(xs: seq<T>, takes: seq<bool>): seq<T>
    requires |xs| == |takes|
    decreases |xs|
  {
    if xs == [] then []
    else Masked(xs[..|xs| - 1], takes[..|xs| - 1]) + (if takes[|xs| - 1] then [xs[|xs| - 1]] else [])
  }

  /** Masking one more element of a prefix adds that element when its flag is set. */
  lemma MaskedPrefix<T>(xs: seq<T>, takes: seq<bool>, i: nat)
    requires |xs| == |takes|
    requires i < |xs|
    ensures Masked(xs[..i + 1], takes[..i + 1]) == Masked(xs[..i], takes[..i]) + (if takes[i] then [xs[i]] else [])
  {
    assert xs[..i + 1][..i] == xs[..i];
    assert takes[..i + 1][..i] == takes[..i];
  }

  /** Only if `take`: the one-element sequence `[x]` when `take` holds, else empty. */
  function OnlyIf<T>(take: bool, x: T): seq<T> {
    if take then [x] else []
  }

  /** A mask over five elements, written out. */
  lemma MaskedFive<T>(xs: seq<T>, takes: seq<bool>)
    requires |xs| == |takes| == 5
    ensures Masked(xs, takes) == OnlyIf(takes[0], xs[0]) + OnlyIf(takes[1], xs[1]) + OnlyIf(takes[2], xs[2])
      + OnlyIf(takes[3], xs[3]) + OnlyIf(takes[4], xs[4])
  {
    assert xs[..0] == [] && takes[..0] == [];
    MaskedPrefix(xs, takes, 0);
    var c1 := OnlyIf(takes[0], xs[0]);
    assert Masked(xs[..1], takes[..1]) == c1;
    MaskedPrefix(xs, takes, 1);
    var c2 := c1 + OnlyIf(takes[1], xs[1]);
    assert Masked(xs[..2], takes[..2]) == c2;
    MaskedPrefix(xs, takes, 2);
    var c3 := c2 + OnlyIf(takes[2], xs[2]);
    assert Masked(xs[..3], takes[..3]) == c3;
    MaskedPrefix(xs, takes, 3);
    var c4 := c3 + OnlyIf(takes[3], xs[3]);
    assert Masked(xs[..4], takes[..4]) == c4;
    MaskedPrefix(xs, takes, 4);
    assert xs[..5] == xs && takes[..5] == takes;
  }

  /** A mask is empty exactly when no flag is set. */
  lemma {:induction false} MaskedEmpty<T>(xs: seq<T>, takes: seq<bool>)
    requires |xs| == |takes|
    ensures Masked(xs, takes) == [] <==> forall i :: 0 <= i < |takes| ==> !takes[i]
    decreases |xs|
  {
    if xs != [] {
      var n := |xs|;
      MaskedEmpty(xs[..n - 1], takes[..n - 1]);
      assert forall i :: 0 <= i < n - 1 ==> takes[..n - 1][i] == takes[i];
    }
  }

  /**
   * Masking away only elements that `p` rejects does not change what the
   * filter keeps.
   */
  lemma {:induction false} FilterMasked<T>(p: T -> bool, xs: seq<T>, takes: seq<bool>)
    requires |xs| == |takes|
    requires forall i :: 0 <= i < |xs| ==> takes[i] || !p(xs[i])
    ensures Filter(p, Masked(xs, takes)) == Filter(p, xs)
    decreases |xs|
  {
    if xs != [] {
      var n := |xs|;
      var init, tinit, x, t := xs[..n - 1], takes[..n - 1], xs[n - 1], takes[n - 1];
      forall i | 0 <= i < n - 1
        ensures tinit[i] || !p(init[i])
      {
        assert tinit[i] == takes[i] && init[i] == xs[i];
      }
      FilterMasked(p, init, tinit);
      var m := Masked(init, tinit);
      assert Masked(xs, takes) == m + (if t then [x] else []);
      assert Filter(p, xs) == Filter(p, init) + (if p(x) then [x] else []);
      if t {
        FilterSnoc(p, m, x);
      } else {
        assert m + [] == m;
      }
    }
  }

  /**
   * Filter keeps exactly the elements at KeptIndices: one per position, each
   * satisfying `p`, in the same order.
   */
  lemma {:induction false} FilterByIndices<T>(p: T -> bool, s: seq<T>)
    ensures var r, idx := Filter(p, s), KeptIndices(p, s);
      && |r| == |idx|
      && (forall k :: 0 <= k < |idx| ==> idx[k] < |s| && p(s[idx[k]]) && r[k] == s[idx[k]])
    decreases |s|
  {
    if s != [] {
      var n := |s|;
      var init := s[..n - 1];
      FilterByIndices(p, init);
      var r0, idx0 := Filter(p, init), KeptIndices(p, init);
      var r, idx := Filter(p, s), KeptIndices(p, s);
      assert r == r0 + (if p(s[n - 1]) then [s[n - 1]] else []);
      assert idx == idx0 + (if p(s[n - 1]) then [n - 1] else []);
      forall k | 0 <= k < |idx|
        ensures idx[k] < n && p(s[idx[k]]) && r[k] == s[idx[k]]
      {
        if k < |idx0| {
          assert idx[k] == idx0[k] && r[k] == r0[k];
          assert init[idx0[k]] == s[idx0[k]];
        }
      }
    }
  }

  /** No position whose element satisfies `p` is missing from KeptIndices. */
  lemma {:induction false} KeptIndicesComplete<T>(p: T -> bool, s: seq<T>)
    ensures forall i :: 0 <= i < |s| && p(s[i]) ==> i in KeptIndices(p, s)
    decreases |s|
  {
    if s != [] {
      var n := |s|;
      var init := s[..n - 1];
      KeptIndicesComplete(p, init);
      var idx0, idx := KeptIndices(p, init), KeptIndices(p, s);
      assert idx == idx0 + (if p(s[n - 1]) then [n - 1] else []);
      forall i | 0 <= i < n && p(s[i])
        ensures i in idx
      {
        if i < n - 1 {
          assert init[i] == s[i];
          assert i in idx0;
        } else {
          assert idx[|idx| - 1] == i;
        }
      }
    }
  }

  /** KeptIndices rises strictly, so no position is kept twice and order is kept. */
  lemma {:induction false} KeptIndicesIncreasing<T>(p: T -> bool, s: seq<T>)
    ensures forall k :: 0 <= k < |KeptIndices(p, s)| ==> KeptIndices(p, s)[k] < |s|
    ensures forall k, l :: 0 <= k < l < |KeptIndices(p, s)| ==> KeptIndices(p, s)[k] < KeptIndices(p, s)[l]
    decreases |s|
  {
    if s != [] {
      var n := |s|;
      KeptIndicesIncreasing(p, s[..n - 1]);
      var idx0 := KeptIndices(p, s[..n - 1]);
      assert KeptIndices(p, s) == idx0 + (if p(s[n - 1]) then [n - 1] else []);
    }
  }

  /** Python's `sep.join(parts)`: the parts with `sep` between each adjacent two. */
  function Join(parts: seq<string>, sep: string): string
    decreases |parts|
  {
    if |parts| == 0 then ""
    else if |parts| == 1 then parts[0]
    else Join(parts[..|parts| - 1], sep) + sep + parts[|parts| - 1]
  }

  /** Where in the joined string the part after `before` starts. */
  function Offset(before: seq<string>, sep: string): nat
    decreases |before|
  {
    if before == [] then 0
    else Offset(before[..|before| - 1], sep) + |before[|before| - 1]| + |sep|
  }

  /** Join adds one separator fewer than Offset counts: |sep| per gap, no trailing one. */
  lemma {:induction false} JoinLength(parts: seq<string>, sep: string)
    requires parts != []
    ensures |Join(parts, sep)| + |sep| == Offset(parts, sep)
    decreases |parts|
  {
    var n := |parts|;
    if n == 1 {
      assert parts[..0] == [];
    } else {
      JoinLength(parts[..n - 1], sep);
    }
  }

  /** A slice inside the left operand of a concatenation. */
  lemma SliceLeft(a: string, b: string, i: nat, j: nat)
    requires i <= j <= |a|
    ensures (a + b)[i..j] == a[i..j]
  {
  }

  /** A slice inside the right operand of a concatenation. */
  lemma SliceRight(a: string, b: string, i: nat, j: nat)
    requires i <= j <= |b|
    ensures (a + b)[|a| + i..|a| + j] == b[i..j]
  {
  }

  /** Part `k` of Join(parts, sep) sits at Offset(parts[..k], sep). */
  lemma {:induction false} JoinPartAt(parts: seq<string>, sep: string, k: nat)
    requires k < |parts|
    ensures var o := Offset(parts[..k], sep);
      o + |parts[k]| <= |Join(parts, sep)| && Join(parts, sep)[o..o + |parts[k]|] == parts[k]
    decreases |parts|
  {
    var n := |parts|;
    if n == 1 {
      assert parts[..k] == [];
    } else {
      var init, last := parts[..n - 1], parts[n - 1];
      var head := Join(init, sep) + sep;
      assert Join(parts, sep) == head + last;
      JoinLength(init, sep);
      if k == n - 1 {
        assert parts[..k] == init;
        SliceRight(head, last, 0, |last|);
        assert last[0..|last|] == last;
      } else {
        JoinPartAt(init, sep, k);
        var o := Offset(parts[..k], sep);
        assert init[..k] == parts[..k];
        SliceLeft(Join(init, sep), sep, o, o + |parts[k]|);
        SliceLeft(head, last, o, o + |parts[k]|);
      }
    }
  }

  /** In Join(parts, sep), a separator follows every part but the last. */
  lemma {:induction false} JoinSeparatorAfter(parts: seq<string>, sep: string, k: nat)
    requires k + 1 < |parts|
    ensures var o := Offset(parts[..k], sep) + |parts[k]|;
      o + |sep| <= |Join(parts, sep)| && Join(parts, sep)[o..o + |sep|] == sep
    decreases |parts|
  {
    var n := |parts|;
    var init, last := parts[..n - 1], parts[n - 1];
    var joined := Join(init, sep);
    var head := joined + sep;
    assert Join(parts, sep) == head + last;
    var o := Offset(parts[..k], sep) + |parts[k]|;
    assert init[..k] == parts[..k];
    if k + 1 < n - 1 {
      JoinSeparatorAfter(init, sep, k);
      SliceLeft(joined, sep, o, o + |sep|);
      SliceLeft(head, last, o, o + |sep|);
    } else {
      JoinLength(init, sep);
      assert init[..k] == init[..|init| - 1];
      assert o == |joined|;
      SliceRight(joined, sep, 0, |sep|);
      assert sep[0..|sep|] == sep;
      SliceLeft(head, last, |joined|, |joined| + |sep|);
    }
  }
}
