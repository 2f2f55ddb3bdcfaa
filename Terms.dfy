/** Objective and constraint terms. A term is backed either by a symbolic
    expression (`expression`), compiled to a numeric function on its first
    call, or by a plain user function (`function`). Constraints add a
    comparison type and their own active flag. The symbolic engine and the
    user's callables are opaque: only what the modelling layer does around
    them is modelled. */
module Terms {
  import opened Common
  import opened Masks

  /** A symbolic expression, seen through the two things the symbolic engine
      is asked for: its value under some bindings (what the compiled
      function returns), and the row of its partial derivatives with
      respect to an ordered list of variables (what the compiled Jacobian
      returns). */
  datatype SymExpr = SymExpr(eval: Bindings -> real, gradient: (seq<string>, Bindings) -> seq<real>)

  /** A user-supplied numeric function with its `__name__`. */
  datatype Callable = Callable(name: string, eval: Bindings -> real)

  /** A user-supplied Jacobian function. */
  datatype JacCallable = JacCallable(eval: Bindings -> seq<real>)

  /** What `get_jac` hands back when it hands back anything: a Jacobian
      derived from the expression with respect to the active variables, or
      the user's own. */
  datatype Jacobian =
    | Derived(expr: SymExpr, wrt: seq<string>)
    | Supplied(fn: JacCallable)

  /** Calling a Jacobian on keyword bindings. */
  function EvalJacobian(j: Jacobian, b: Bindings): (r: seq<real>)
    ensures j.Derived? ==> r == j.expr.gradient(j.wrt, b)
    ensures j.Supplied? ==> r == j.fn.eval(b)
  {
    match j
    case Derived(e, wrt) => e.gradient(wrt, b)
    case Supplied(f) => f.eval(b)
  }

  /** `expression`: a symbolic term with the one-shot compilation cache `fun`.
      The cache records the keyword names of the first call, which become the
      parameters of the compiled function. */
  class Expression {
    const sym: SymExpr
    const comJac: bool
    var fun: Option<set<string>>

    /** `expression.__init__(expr, var, com_jac=True)`: the second positional
        argument is the unused `vars`, so a caller that passes its `com_jac`
        positionally leaves `comJac` at its default. */
    constructor (expr: SymExpr, vars: bool, comJac: bool := true)
      ensures sym == expr && this.comJac == comJac && fun == None
    {
      sym := expr;
      this.comJac := comJac;
      fun := None;
    }

    /** `expression.__call__(**kwargs)`: compile on the first call only, then
        apply the compiled function, which accepts exactly the keyword set it
        was compiled for. */
    method Call(kwargs: Bindings) returns (r: Result<real, Error>)
      modifies this
      ensures old(fun).None? ==> fun == Some(kwargs.Keys)
      ensures old(fun).Some? ==> fun == old(fun)
      ensures r.Ok? <==> fun.value == kwargs.Keys
      ensures r.Ok? ==> r.value == sym.eval(kwargs)
      ensures r.Err? ==> r.error == KeywordMismatch
    {
      if fun.None? {
        fun := Some(kwargs.Keys);
      }
      if fun.value == kwargs.Keys {
        r := Ok(sym.eval(kwargs));
      } else {
        r := Err(KeywordMismatch);
      }
    }
  }

  /** `function`: a term backed by a user function, its optional Jacobian and
      the name of its display placeholder. Nothing in it is ever reassigned. */
  datatype FunctionTerm = FunctionTerm(fun: Callable, jac: Option<JacCallable>, symName: string)

  /** `function.__init__`: an absent or empty display name falls back to the
      function's own `__name__`. */
  function MakeFunctionTerm(fun: Callable, jac: Option<JacCallable>, symName: Option<string>): (t: FunctionTerm)
    ensures t.fun == fun && t.jac == jac
    ensures symName.Some? && symName.value != "" ==> t.symName == symName.value
    ensures symName.None? || symName.value == "" ==> t.symName == fun.name
  {
    FunctionTerm(fun, jac, if symName.None? || symName.value == "" then fun.name else symName.value)
  }

  /** An objective or the body of a constraint. */
  datatype Term = ExprTerm(e: Expression) | FunTerm(f: FunctionTerm)

  /** The objects a call of the term may update (the expression's cache). */
  function Footprint(t: Term): set<object>
  {
    if t.ExprTerm? then {t.e} else {}
  }

  /** `get_jac`: an expression with `comJac` derives its Jacobian with respect
      to the active names (otherwise it returns None); a function term
      returns the Jacobian it was given. */
  function GetJac(t: Term, activeNames: seq<string>): (r: Option<Jacobian>)
    ensures t.ExprTerm? ==> (r.Some? <==> t.e.comJac)
    ensures t.ExprTerm? && r.Some? ==> r.value.Derived? && r.value.expr == t.e.sym && r.value.wrt == activeNames
    ensures t.FunTerm? ==> (r.Some? <==> t.f.jac.Some?)
    ensures t.FunTerm? && r.Some? ==> r.value == Supplied(t.f.jac.value)
  {
    match t
    case ExprTerm(e) => if e.comJac then Some(Derived(e.sym, activeNames)) else None
    case FunTerm(f) => if f.jac.Some? then Some(Supplied(f.jac.value)) else None
  }

  /** `term(**kwargs)`: a function term forwards to its function; an
      expression goes through its compilation cache. */
  method Evaluate(t: Term, kwargs: Bindings) returns (r: Result<real, Error>)
    modifies Footprint(t)
    ensures t.FunTerm? ==> r.Ok? && r.value == t.f.fun.eval(kwargs)
    ensures t.ExprTerm? ==> old(t.e.fun).None? ==> t.e.fun == Some(kwargs.Keys)
    ensures t.ExprTerm? ==> old(t.e.fun).Some? ==> t.e.fun == old(t.e.fun)
    ensures t.ExprTerm? ==> (r.Ok? <==> t.e.fun.value == kwargs.Keys)
    ensures t.ExprTerm? && r.Ok? ==> r.value == t.e.sym.eval(kwargs)
    ensures t.ExprTerm? && r.Err? ==> r.error == KeywordMismatch
  {
    match t
    case ExprTerm(e) => r := e.Call(kwargs);
    case FunTerm(f) => r := Ok(f.fun.eval(kwargs));
  }

  /** `expression_constraint` and `function_constraint`: a term, a comparison
      type read as "term <conType> 0", and an active flag of its own. */
  class Constraint {
    const term: Term
    const conType: string
    var active: bool

    /** `expression_constraint(expr, con_type, com_jac, active)`. Its
        initialiser hands `com_jac` to `expression.__init__` positionally,
        into the unused `vars` slot, so the expression always derives a
        Jacobian. */
    constructor FromExpression(expr: SymExpr, conType: string := ">", comJac: bool := true, active: bool := true)
      ensures term.ExprTerm? && fresh(term.e)
      ensures term.e.sym == expr && term.e.comJac && term.e.fun == None
      ensures this.conType == conType && this.active == active
    {
      this.active := active;
      this.conType := conType;
      var e := new Expression(expr, comJac);
      term := ExprTerm(e);
    }

    /** `function_constraint(fun, var, con_type, jac, sym_name, active)`; the
        variable list only feeds the display placeholder and is not kept. */
    constructor FromFunction(fun: Callable, conType: string := ">", jac: Option<JacCallable> := None,
                             symName: Option<string> := None, active: bool := true)
      ensures term == FunTerm(MakeFunctionTerm(fun, jac, symName))
      ensures this.conType == conType && this.active == active
    {
      this.active := active;
      this.conType := conType;
      term := FunTerm(MakeFunctionTerm(fun, jac, symName));
    }

    method SetPassive()
      modifies this
      ensures !active
    {
      active := false;
    }

    method SetActive()
      modifies this
      ensures active
    {
      active := true;
    }
  }

  /** The mask `[con.active for con in con_fun]`. */
  function ConFlags(cs: seq<Constraint>): (r: seq<bool>)
    reads cs
    ensures |r| == |cs|
    ensures forall i :: 0 <= i < |cs| ==> r[i] == cs[i].active
  {
    seq(|cs|, i reads cs requires 0 <= i < |cs| => cs[i].active)
  }

  /** `get_active_con`. */
  function ActiveCons(cs: seq<Constraint>): (r: seq<Constraint>)
    reads cs
    ensures forall c :: c in r ==> c in cs && c.active
    ensures forall i :: 0 <= i < |cs| && cs[i].active ==> cs[i] in r
  {
    var keep := ConFlags(cs);
    forall c | c in Select(cs, keep) ensures c in cs && c.active {
      SelectMember(cs, keep, c);
    }
    forall i | 0 <= i < |cs| && cs[i].active ensures cs[i] in Select(cs, keep) {
      SelectMember(cs, keep, cs[i]);
    }
    Select(cs, keep)
  }

  /** `get_passive_con`. */
  function PassiveCons(cs: seq<Constraint>): (r: seq<Constraint>)
    reads cs
    ensures forall c :: c in r ==> c in cs && !c.active
    ensures forall i :: 0 <= i < |cs| && !cs[i].active ==> cs[i] in r
  {
    var keep := Negate(ConFlags(cs));
    forall c | c in Select(cs, keep) ensures c in cs && !c.active {
      SelectMember(cs, keep, c);
    }
    forall i | 0 <= i < |cs| && !cs[i].active ensures cs[i] in Select(cs, keep) {
      SelectMember(cs, keep, cs[i]);
    }
    Select(cs, keep)
  }

  /** The active and passive constraints partition the constraint list. */
  lemma ConPartition(cs: seq<Constraint>)
    ensures |ActiveCons(cs)| + |PassiveCons(cs)| == |cs|
    ensures multiset(ActiveCons(cs)) + multiset(PassiveCons(cs)) == multiset(cs)
    ensures forall c :: !(c in ActiveCons(cs) && c in PassiveCons(cs))
  {
    SelectPartition(cs, ConFlags(cs));
  }

  /** Both filters keep the order of the constraint list. */
  lemma ConsInOrder(cs: seq<Constraint>)
    ensures |ActiveCons(cs)| == |Positions(ConFlags(cs))|
    ensures forall k :: 0 <= k < |ActiveCons(cs)| ==>
              Positions(ConFlags(cs))[k] < |cs| && ActiveCons(cs)[k] == cs[Positions(ConFlags(cs))[k]]
    ensures |PassiveCons(cs)| == |Positions(Negate(ConFlags(cs)))|
    ensures forall k :: 0 <= k < |PassiveCons(cs)| ==>
              Positions(Negate(ConFlags(cs)))[k] < |cs| &&
              PassiveCons(cs)[k] == cs[Positions(Negate(ConFlags(cs)))[k]]
    ensures StrictlyIncreasing(Positions(ConFlags(cs)))
    ensures StrictlyIncreasing(Positions(Negate(ConFlags(cs))))
  {
    SelectAt(cs, ConFlags(cs));
    SelectAt(cs, Negate(ConFlags(cs)));
    PositionsExact(ConFlags(cs));
    PositionsExact(Negate(ConFlags(cs)));
  }

  /** Adding a constraint appends it to the active or the passive list. */
  lemma ConsAppend(cs: seq<Constraint>, c: Constraint)
    ensures ActiveCons(cs + [c]) == ActiveCons(cs) + (if c.active then [c] else [])
    ensures PassiveCons(cs + [c]) == PassiveCons(cs) + (if c.active then [] else [c])
  {
    assert ConFlags(cs + [c]) == ConFlags(cs) + [c.active];
    assert Negate(ConFlags(cs + [c])) == Negate(ConFlags(cs)) + [!c.active];
    SelectAppend(cs, ConFlags(cs), c, c.active);
    SelectAppend(cs, Negate(ConFlags(cs)), c, !c.active);
  }
}
