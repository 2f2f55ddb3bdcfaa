/** Dictionary updates applied one after the other,
    `for k, x in zip(keys, xs): m[k] = x`: a key written twice holds its last
    write. The attributes that `setattr` leaves on a problem, the `curr_var`
    dictionary and the write-back of a solver vector are all built this way. */
module Updates {

  /** The updates `keys[i] := xs[i]`, in order, applied to `m`. */
  function Overwrite<V>(m: map<string, V>, keys: seq<string>, xs: seq<V>): (r: map<string, V>)
    requires |keys| == |xs|
    ensures forall k :: k in r <==> k in m || k in keys
    decreases |keys|
  {
    if keys == [] then m
    else
      var n := |keys| - 1;
      assert keys == keys[..n] + [keys[n]];
      Overwrite(m, keys[..n], xs[..n])[keys[n] := xs[n]]
  }

  /** The last position at which `k` is written. */
  ghost function LastIndex(keys: seq<string>, k: string): (i: nat)
    requires k in keys
    ensures i < |keys| && keys[i] == k
    ensures forall j :: i < j < |keys| ==> keys[j] != k
    decreases |keys|
  {
    var n := |keys| - 1;
    if keys[n] == k then n
    else
      assert k in keys[..n] by {
        var j :| 0 <= j < |keys| && keys[j] == k;
        assert keys[..n][j] == k;
      }
      LastIndex(keys[..n], k)
  }

  /** One more update is one more map assignment. */
  lemma OverwriteSnoc<V>(m: map<string, V>, keys: seq<string>, xs: seq<V>, k: string, x: V)
    requires |keys| == |xs|
    ensures Overwrite(m, keys + [k], xs + [x]) == Overwrite(m, keys, xs)[k := x]
  {
    assert (keys + [k])[..|keys|] == keys;
    assert (xs + [x])[..|xs|] == xs;
  }

  /** A key that is not written keeps its entry (or its absence). */
  lemma {:induction false} OverwriteElsewhere<V>(m: map<string, V>, keys: seq<string>, xs: seq<V>, k: string)
    requires |keys| == |xs|
    requires k !in keys
    ensures k in Overwrite(m, keys, xs) <==> k in m
    ensures k in m ==> Overwrite(m, keys, xs)[k] == m[k]
    decreases |keys|
  {
    if keys != [] {
      var n := |keys| - 1;
      assert k !in keys[..n];
      OverwriteElsewhere(m, keys[..n], xs[..n], k);
    }
  }

  /** A written key holds the value of its last write. */
  lemma {:induction false} OverwriteAtLastIndex<V>(m: map<string, V>, keys: seq<string>, xs: seq<V>, k: string)
    requires |keys| == |xs|
    requires k in keys
    ensures Overwrite(m, keys, xs)[k] == xs[LastIndex(keys, k)]
    decreases |keys|
  {
    var n := |keys| - 1;
    if keys[n] != k {
      OverwriteAtLastIndex(m, keys[..n], xs[..n], k);
      assert xs[..n][LastIndex(keys[..n], k)] == xs[LastIndex(keys, k)];
    }
  }

  /** The same fact from the position's side: a position not written again
      later holds its value in the result. */
  lemma OverwriteLast<V>(m: map<string, V>, keys: seq<string>, xs: seq<V>, i: nat)
    requires |keys| == |xs|
    requires i < |keys|
    requires forall j :: i < j < |keys| ==> keys[j] != keys[i]
    ensures Overwrite(m, keys, xs)[keys[i]] == xs[i]
  {
    OverwriteAtLastIndex(m, keys, xs, keys[i]);
  }

  /** Writing the first `n` pairs of two lists: a key that is nowhere in the
      key list keeps its entry (or its absence), and a written key that no
      later written position repeats holds the value written with it. */
  lemma OverwritePrefix<V>(m: map<string, V>, keys: seq<string>, xs: seq<V>, n: nat)
    requires n <= |keys| && n <= |xs|
    ensures forall k :: k !in keys ==> (k in Overwrite(m, keys[..n], xs[..n]) <==> k in m)
    ensures forall k :: k !in keys && k in m ==> Overwrite(m, keys[..n], xs[..n])[k] == m[k]
    ensures forall i :: (0 <= i < n && forall j :: i < j < n ==> keys[j] != keys[i]) ==>
              Overwrite(m, keys[..n], xs[..n])[keys[i]] == xs[i]
  {
    forall k | k !in keys
      ensures k in Overwrite(m, keys[..n], xs[..n]) <==> k in m
      ensures k in m ==> Overwrite(m, keys[..n], xs[..n])[k] == m[k]
    {
      OverwriteElsewhere(m, keys[..n], xs[..n], k);
    }
    forall i | 0 <= i < n && (forall j :: i < j < n ==> keys[j] != keys[i])
      ensures Overwrite(m, keys[..n], xs[..n])[keys[i]] == xs[i]
    {
      OverwriteLast(m, keys[..n], xs[..n], i);
    }
  }
}
