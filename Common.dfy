/** Shared value types of the optimisation model: optional values, results with
    the errors the modelling layer can raise, variable bounds and the
    name-to-value bindings that every objective is evaluated on. */
module Common {

  datatype Option<+T> = None | Some(value: T)

  datatype Result<+T, +E> = Ok(value: T) | Err(error: E)

  /** The failures the modelling layer itself raises (as Python exceptions). */
  datatype Error =
    | ObjectiveMissing   // `obj_fun` is still None when `optimize` or the objective wrapper runs
    | KeywordMismatch    // a cached compiled expression is called with another keyword set
    | JacobianMissing    // the Jacobian wrapper is called while `jac` is None
    | AttributeMissing   // `getattr(self, name)` for a name the problem never registered

  /** One end of a bound: a finite number or an infinity (`np.inf`, `-np.inf`). */
  datatype BoundEnd = NegInf | Finite(r: real) | PosInf

  /** A `[lower, upper]` bound pair as handed to the solver. */
  datatype Bound = Bound(lower: BoundEnd, upper: BoundEnd)

  /** The default bound `[-np.inf, np.inf]` of a new variable. */
  const Unbounded: Bound := Bound(NegInf, PosInf)

  /** Keyword bindings `name -> value`, the `**kwargs` every objective receives. */
  type Bindings = map<string, real>

  function Min(a: nat, b: nat): (m: nat)
    ensures m <= a && m <= b && (m == a || m == b)
  {
    if a <= b then a else b
  }
}
