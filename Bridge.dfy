/** The pure parts of the bridge to the solver: the objective sign, the
    starting vector read from the current values, and the write-back of a
    flat solver vector into the name-to-value bindings (`Overwrite`). */
module Bridge {
  import opened Common
  import opened Updates

  /** `obj_sign`: maximisation is minimisation of the negated objective. The
      program tests `opt_type is "max"`, an identity test that CPython passes
      for the interned literal; it is modelled as string equality. */
  function ObjSign(optType: string): (s: real)
    ensures s == 1.0 || s == -1.0
    ensures s == -1.0 <==> optType == "max"
  {
    if optType == "max" then -1.0 else 1.0
  }

  /** `obj_sign * obj_val`: the value the minimiser sees. */
  function Signed(sign: real, v: real): real
  {
    sign * v
  }

  /** The sign flips the order of objective values exactly for "max": a point
      whose wrapped value is lower than another's has a higher objective
      value when maximising and a lower one otherwise. */
  lemma SignedOrder(optType: string, a: real, b: real)
    ensures optType == "max" ==> (ObjSign(optType) * a <= ObjSign(optType) * b <==> b <= a)
    ensures optType != "max" ==> (ObjSign(optType) * a <= ObjSign(optType) * b <==> a <= b)
  {
  }

  /** Whatever the solver minimises is what the user asked for: a point that
      minimises `sign * f` over a set of candidate points maximises `f` there
      for "max" and minimises it otherwise. */
  lemma SignedOptimum(optType: string, f: Bindings -> real, pts: set<Bindings>, p: Bindings)
    requires p in pts
    requires forall q :: q in pts ==> ObjSign(optType) * f(p) <= ObjSign(optType) * f(q)
    ensures optType == "max" ==> forall q :: q in pts ==> f(q) <= f(p)
    ensures optType != "max" ==> forall q :: q in pts ==> f(p) <= f(q)
  {
    forall q | q in pts ensures optType == "max" ==> f(q) <= f(p) {
      SignedOrder(optType, f(p), f(q));
    }
    forall q | q in pts ensures optType != "max" ==> f(p) <= f(q) {
      SignedOrder(optType, f(p), f(q));
    }
  }

  /** `x0 = [curr_var[name] for name in _index2var]`. */
  function StartPoint(curr: Bindings, names: seq<string>): (x0: seq<real>)
    requires forall n :: n in names ==> n in curr
    ensures |x0| == |names|
    ensures forall i :: 0 <= i < |names| ==> x0[i] == curr[names[i]]
  {
    seq(|names|, i requires 0 <= i < |names| => curr[names[i]])
  }

  /** Writing back the very vector that was read out changes nothing. */
  lemma {:induction false} OverwriteStartPoint(curr: Bindings, names: seq<string>)
    requires forall n :: n in names ==> n in curr
    ensures Overwrite(curr, names, StartPoint(curr, names)) == curr
    decreases |names|
  {
    if names != [] {
      var n := |names| - 1;
      assert StartPoint(curr, names)[..n] == StartPoint(curr, names[..n]);
      OverwriteStartPoint(curr, names[..n]);
    }
  }

  /** Writing back a vector and reading the start point again returns the
      vector, whenever the names are distinct. */
  lemma StartPointOfOverwrite(curr: Bindings, names: seq<string>, x: seq<real>)
    requires |names| == |x|
    requires forall i, j :: 0 <= i < j < |names| ==> names[i] != names[j]
    ensures StartPoint(Overwrite(curr, names, x), names) == x
  {
    var m := Overwrite(curr, names, x);
    forall i | 0 <= i < |names| ensures m[names[i]] == x[i] {
      OverwriteLast(curr, names, x, i);
    }
  }
}
