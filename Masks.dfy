/** Boolean-mask selection, the numpy operation `arr[mask]` that every
    active/passive filter of the model is built on: it keeps, in their
    original order, exactly the elements whose mask entry is true. */
module Masks {

  /** `s[keep]` for a boolean mask `keep` of the same length. */
  function Select<T>(s: seq<T>, keep: seq<bool>): (r: seq<T>)
    requires |keep| == |s|
    ensures |r| <= |s|
    ensures forall x :: x in r ==> x in s
    decreases |s|
  {
    if s == [] then []
    else
      var n := |s| - 1;
      Select(s[..n], keep[..n]) + (if keep[n] then [s[n]] else [])
  }

  /** The element-wise negation of a mask (`[not(b) for b in keep]`). */
  function Negate(keep: seq<bool>): (r: seq<bool>)
    ensures |r| == |keep|
    ensures forall i :: 0 <= i < |keep| ==> r[i] != keep[i]
  {
    seq(|keep|, i requires 0 <= i < |keep| => !keep[i])
  }

  /** The indices `0, 1, ..., n - 1`. */
  function Indices(n: nat): (r: seq<nat>)
    ensures |r| == n
    ensures forall i :: 0 <= i < n ==> r[i] == i
  {
    seq(n, i requires 0 <= i < n => i)
  }

  ghost predicate StrictlyIncreasing(q: seq<nat>)
  {
    forall i, j :: 0 <= i < j < |q| ==> q[i] < q[j]
  }

  /** The positions a mask keeps, in increasing order. */
  function Positions(keep: seq<bool>): seq<nat>
  {
    Select(Indices(|keep|), keep)
  }

  /** Selecting from an extended sequence extends the selection at its end. */
  lemma SelectAppend<T>(s: seq<T>, keep: seq<bool>, x: T, k: bool)
    requires |keep| == |s|
    ensures Select(s + [x], keep + [k]) == Select(s, keep) + (if k then [x] else [])
  {
    assert (s + [x])[..|s|] == s;
    assert (keep + [k])[..|s|] == keep;
  }

  /** An element is selected exactly when some position holding it is kept. */
  lemma {:induction false} SelectMember<T>(s: seq<T>, keep: seq<bool>, x: T)
    requires |keep| == |s|
    ensures x in Select(s, keep) <==> exists i :: 0 <= i < |s| && keep[i] && s[i] == x
    decreases |s|
  {
    if s != [] {
      var n := |s| - 1;
      SelectMember(s[..n], keep[..n], x);
      if x in Select(s[..n], keep[..n]) {
        var i :| 0 <= i < n && keep[..n][i] && s[..n][i] == x;
        assert keep[i] && s[i] == x;
      }
      if exists i :: 0 <= i < |s| && keep[i] && s[i] == x {
        var i :| 0 <= i < |s| && keep[i] && s[i] == x;
        if i < n {
          assert keep[..n][i] && s[..n][i] == x;
        }
      }
    }
  }

  /** The selection is the sequence of kept elements read at the kept positions:
      it preserves the original order and drops nothing that the mask keeps. */
  lemma {:induction false} SelectAt<T>(s: seq<T>, keep: seq<bool>)
    requires |keep| == |s|
    ensures |Positions(keep)| == |Select(s, keep)|
    ensures forall k :: 0 <= k < |Positions(keep)| ==>
              Positions(keep)[k] < |s| && Select(s, keep)[k] == s[Positions(keep)[k]]
    decreases |s|
  {
    if s != [] {
      var n := |s| - 1;
      SelectAt(s[..n], keep[..n]);
      assert Indices(|keep|)[..n] == Indices(n);
      assert Positions(keep) == Positions(keep[..n]) + (if keep[n] then [n] else []);
    }
  }

  /** Selection from an increasing sequence stays increasing. */
  lemma {:induction false} SelectIncreasing(q: seq<nat>, keep: seq<bool>)
    requires |keep| == |q|
    requires StrictlyIncreasing(q)
    ensures StrictlyIncreasing(Select(q, keep))
    decreases |q|
  {
    if q != [] {
      var n := |q| - 1;
      SelectIncreasing(q[..n], keep[..n]);
      var r0 := Select(q[..n], keep[..n]);
      forall x | x in r0 ensures x < q[n] {
        var i :| 0 <= i < n && q[..n][i] == x;
      }
      var r := Select(q, keep);
      assert r == r0 + (if keep[n] then [q[n]] else []);
      forall i, j | 0 <= i < j < |r| ensures r[i] < r[j] {
        if j >= |r0| {
          assert r[i] in r0;
        }
      }
    }
  }

  /** The kept positions are increasing and are exactly those whose mask
      entry is true. */
  lemma PositionsExact(keep: seq<bool>)
    ensures StrictlyIncreasing(Positions(keep))
    ensures forall i :: 0 <= i < |keep| ==> (keep[i] <==> i in Positions(keep))
  {
    SelectIncreasing(Indices(|keep|), keep);
    forall i | 0 <= i < |keep| ensures keep[i] <==> i in Positions(keep) {
      SelectMember<nat>(Indices(|keep|), keep, i);
      assert Indices(|keep|)[i] == i;
    }
  }

  /** A mask and its negation split a sequence into two selections that
      together hold every element exactly once. */
  lemma {:induction false} SelectPartition<T>(s: seq<T>, keep: seq<bool>)
    requires |keep| == |s|
    ensures |Select(s, keep)| + |Select(s, Negate(keep))| == |s|
    ensures multiset(Select(s, keep)) + multiset(Select(s, Negate(keep))) == multiset(s)
    decreases |s|
  {
    if s != [] {
      var n := |s| - 1;
      SelectPartition(s[..n], keep[..n]);
      assert Negate(keep)[..n] == Negate(keep[..n]);
      assert s == s[..n] + [s[n]];
    }
  }
}
