/** `Objective_Optimization`: the problem model. It owns the registered
    variables (also exposed as attributes under their names), the single
    objective and the list of constraints, and it assembles the inputs of the
    bounded minimiser: the order of the active names, the starting vector,
    the bounds, the sign and the Jacobian. */
module Problem {
  import opened Common
  import opened Masks
  import opened Variables
  import opened Terms
  import opened Bridge
  import opened Updates

  /** What `optimize` hands to the external minimiser besides the objective
      wrapper: the starting vector, the bounds, and whether the Jacobian
      wrapper is passed (constraints never are). */
  datatype SolverRequest = SolverRequest(x0: seq<real>, bounds: seq<Bound>, useJac: bool)

  class ObjectiveOptimization {
    const optType: string
    var optVar: seq<OptimizationVariable>
    /** The attributes `setattr(self, name, var)` created, by name. */
    var attrs: map<string, OptimizationVariable>
    /** The name each variable of `opt_var` was registered under. */
    ghost var regNames: seq<string>
    var objFun: Option<Term>
    var conFun: seq<Constraint>
    /** Set by `optimize` (absent before its first call in the program). */
    var index2var: seq<string>
    var currVar: Bindings
    var jac: Option<Jacobian>
    var objSign: real

    /** Every registered variable can be looked up under its current name.
        The problem's own calls keep this; re-registering one of its display
        symbols under another name through a second problem breaks it. */
    ghost predicate NamesResolve()
      reads this, optVar
    {
      forall i :: 0 <= i < |optVar| ==> optVar[i].nameIn in attrs
    }

    /** The attributes are what the registrations leave behind: each
        registration name refers to the last variable registered under it,
        whatever the variables are called now. */
    ghost predicate Consistent()
      reads this
    {
      |regNames| == |optVar| && attrs == Overwrite(map[], regNames, optVar)
    }

    constructor (optType: string := "min")
      ensures NamesResolve() && Consistent()
      ensures this.optType == optType && optVar == [] && objFun == None && conFun == []
      ensures index2var == [] && currVar == map[] && jac == None && objSign == 1.0
    {
      this.optType := optType;
      optVar := [];
      attrs := map[];
      regNames := [];
      objFun := None;
      conFun := [];
      index2var := [];
      currVar := map[];
      jac := None;
      objSign := 1.0;
    }

    /** `add_optimization_variable`: create the variable through the symbol
        cache, append it at the end of `opt_var` and make it the attribute of
        its name. When the display symbol is already cached, the appended
        object is the cached one, re-initialised in place: wherever it is
        held already, in this problem or another, it now has the new name,
        value, bound and flag. */
    method AddOptimizationVariable(cache: SymbolCache, name: string, value: real := 0.0, bound: Bound := Unbounded,
                                   symName: Option<string> := None, active: bool := true)
      requires cache.Valid()
      modifies this, cache, cache.Cached(DisplayName(name, symName))
      ensures cache.Valid()
      ensures |optVar| == |old(optVar)| + 1 && optVar == old(optVar) + [optVar[|optVar| - 1]]
      ensures cache.symbols == old(cache.symbols)[DisplayName(name, symName) := optVar[|optVar| - 1]]
      ensures old(DisplayName(name, symName) in cache.symbols) ==>
                optVar[|optVar| - 1] == old(cache.symbols[DisplayName(name, symName)])
      ensures old(DisplayName(name, symName) !in cache.symbols) ==> fresh(optVar[|optVar| - 1])
      ensures optVar[|optVar| - 1].symName == DisplayName(name, symName) && optVar[|optVar| - 1].nameIn == name
      ensures optVar[|optVar| - 1].value == value && optVar[|optVar| - 1].defaultValue == value
      ensures optVar[|optVar| - 1].bound == bound && optVar[|optVar| - 1].active == active
      ensures attrs == old(attrs)[name := optVar[|optVar| - 1]]
      ensures objFun == old(objFun) && conFun == old(conFun)
      ensures index2var == old(index2var) && currVar == old(currVar) && jac == old(jac) && objSign == old(objSign)
      ensures regNames == old(regNames) + [name]
      ensures old(NamesResolve()) ==> NamesResolve()
      ensures old(Consistent()) ==> Consistent()
    {
      ghost var before := optVar;
      var v := cache.NewVariable(name, value, bound, symName, active);
      forall i | 0 <= i < |before| && before[i] != v
        ensures before[i].nameIn == old(before[i].nameIn)
      {
      }
      assert old(NamesResolve()) ==> forall i :: 0 <= i < |before| && before[i] != v ==> before[i].nameIn in attrs;
      Register(name, v);
    }

    /** The last two steps of a registration: append the variable to
        `opt_var` and make it the attribute `name`. */
    method Register(name: string, v: OptimizationVariable)
      modifies this
      ensures optVar == old(optVar) + [v] && attrs == old(attrs)[name := v] && regNames == old(regNames) + [name]
      ensures objFun == old(objFun) && conFun == old(conFun)
      ensures index2var == old(index2var) && currVar == old(currVar) && jac == old(jac) && objSign == old(objSign)
      ensures old(Consistent()) ==> Consistent()
      ensures v.nameIn == name &&
              (forall i :: 0 <= i < |old(optVar)| && old(optVar)[i] != v ==> old(optVar)[i].nameIn in old(attrs))
              ==> NamesResolve()
    {
      if Consistent() {
        OverwriteSnoc(map[], regNames, optVar, name, v);
      }
      optVar, attrs, regNames := optVar + [v], attrs[name := v], regNames + [name];
    }

    /** `add_optimization_parameter`: the same registration, passive by default. */
    method AddOptimizationParameter(cache: SymbolCache, name: string, value: real := 0.0, bound: Bound := Unbounded,
                                    symName: Option<string> := None, active: bool := false)
      requires cache.Valid()
      modifies this, cache, cache.Cached(DisplayName(name, symName))
      ensures cache.Valid()
      ensures |optVar| == |old(optVar)| + 1 && optVar == old(optVar) + [optVar[|optVar| - 1]]
      ensures cache.symbols == old(cache.symbols)[DisplayName(name, symName) := optVar[|optVar| - 1]]
      ensures old(DisplayName(name, symName) in cache.symbols) ==>
                optVar[|optVar| - 1] == old(cache.symbols[DisplayName(name, symName)])
      ensures old(DisplayName(name, symName) !in cache.symbols) ==> fresh(optVar[|optVar| - 1])
      ensures optVar[|optVar| - 1].symName == DisplayName(name, symName) && optVar[|optVar| - 1].nameIn == name
      ensures optVar[|optVar| - 1].value == value && optVar[|optVar| - 1].defaultValue == value
      ensures optVar[|optVar| - 1].bound == bound && optVar[|optVar| - 1].active == active
      ensures attrs == old(attrs)[name := optVar[|optVar| - 1]]
      ensures objFun == old(objFun) && conFun == old(conFun)
      ensures index2var == old(index2var) && currVar == old(currVar) && jac == old(jac) && objSign == old(objSign)
      ensures regNames == old(regNames) + [name]
      ensures old(NamesResolve()) ==> NamesResolve()
      ensures old(Consistent()) ==> Consistent()
    {
      AddOptimizationVariable(cache, name, value, bound, symName, active);
    }

    /** `add_expression_objective_function`: replace the objective by a fresh
        expression. `com_jac` reaches `expression.__init__` positionally, in
        the unused `vars` slot, so the new objective derives its Jacobian
        whatever `comJac` says. */
    method AddExpressionObjectiveFunction(expr: SymExpr, comJac: bool := true)
      modifies this
      ensures objFun.Some? && objFun.value.ExprTerm? && fresh(objFun.value.e)
      ensures objFun.value.e.sym == expr && objFun.value.e.comJac && objFun.value.e.fun == None
      ensures optVar == old(optVar) && regNames == old(regNames) && attrs == old(attrs) && conFun == old(conFun)
      ensures index2var == old(index2var) && currVar == old(currVar) && jac == old(jac) && objSign == old(objSign)
    {
      var e := new Expression(expr, comJac);
      objFun := Some(ExprTerm(e));
    }

    /** `add_objective_function`: replace the objective by a user function. */
    method AddObjectiveFunction(fun: Callable, jac: Option<JacCallable> := None, symName: Option<string> := None)
      modifies this
      ensures objFun == Some(FunTerm(MakeFunctionTerm(fun, jac, symName)))
      ensures optVar == old(optVar) && regNames == old(regNames) && attrs == old(attrs) && conFun == old(conFun)
      ensures index2var == old(index2var) && currVar == old(currVar) && this.jac == old(this.jac)
      ensures objSign == old(objSign)
    {
      objFun := Some(FunTerm(MakeFunctionTerm(fun, jac, symName)));
    }

    /** `add_expression_constraint_function`: append a fresh expression
        constraint; it keeps its `conType` and `active`, and always derives
        its Jacobian. */
    method AddExpressionConstraintFunction(expr: SymExpr, conType: string := ">", comJac: bool := true,
                                           active: bool := true)
      modifies this
      ensures |conFun| == |old(conFun)| + 1 && conFun == old(conFun) + [conFun[|conFun| - 1]]
      ensures fresh(conFun[|conFun| - 1])
      ensures conFun[|conFun| - 1].term.ExprTerm? && conFun[|conFun| - 1].term.e.sym == expr
      ensures conFun[|conFun| - 1].term.e.comJac && conFun[|conFun| - 1].term.e.fun == None
      ensures conFun[|conFun| - 1].conType == conType && conFun[|conFun| - 1].active == active
      ensures optVar == old(optVar) && regNames == old(regNames) && attrs == old(attrs) && objFun == old(objFun)
      ensures index2var == old(index2var) && currVar == old(currVar) && jac == old(jac) && objSign == old(objSign)
    {
      var c := new Constraint.FromExpression(expr, conType, comJac, active);
      conFun := conFun + [c];
    }

    /** `add_constraint_function`: append a fresh function constraint. The
        program passes `jac=None, sym_name=None` instead of its own arguments
        and cannot pass a comparison type, so the new constraint is always an
        active ">" constraint with no Jacobian, displayed under the function's
        own name. */
    method AddConstraintFunction(fun: Callable, jac: Option<JacCallable> := None, symName: Option<string> := None)
      modifies this
      ensures |conFun| == |old(conFun)| + 1 && conFun == old(conFun) + [conFun[|conFun| - 1]]
      ensures fresh(conFun[|conFun| - 1])
      ensures conFun[|conFun| - 1].term == FunTerm(FunctionTerm(fun, None, fun.name))
      ensures conFun[|conFun| - 1].conType == ">" && conFun[|conFun| - 1].active
      ensures optVar == old(optVar) && regNames == old(regNames) && attrs == old(attrs) && objFun == old(objFun)
      ensures index2var == old(index2var) && currVar == old(currVar) && this.jac == old(this.jac)
      ensures objSign == old(objSign)
    {
      var c := new Constraint.FromFunction(fun, jac := None, symName := None);
      conFun := conFun + [c];
    }

    /** `_set_index2var`: fix the order of the active names. */
    method SetIndex2Var()
      modifies this
      ensures index2var == ActiveNames(optVar)
      ensures optVar == old(optVar) && regNames == old(regNames) && attrs == old(attrs) && objFun == old(objFun) && conFun == old(conFun)
      ensures currVar == old(currVar) && jac == old(jac) && objSign == old(objSign)
    {
      index2var := ActiveNames(optVar);
    }

    /** `_set_curr_val`: write a flat vector back into `curr_var`, position by
        position along the active names, stopping at the shorter of the two.
        Every other entry, the passive variables' among them, is unchanged. */
    method SetCurrVal(x: seq<real>)
      modifies this
      ensures currVar == Overwrite(old(currVar), index2var[..Min(|index2var|, |x|)], x[..Min(|index2var|, |x|)])
      ensures forall k :: k !in index2var ==> (k in currVar <==> k in old(currVar))
      ensures forall k :: k !in index2var && k in old(currVar) ==> currVar[k] == old(currVar)[k]
      ensures forall i :: (0 <= i < Min(|index2var|, |x|) &&
                           forall j :: i < j < Min(|index2var|, |x|) ==> index2var[j] != index2var[i]) ==>
                currVar[index2var[i]] == x[i]
      ensures optVar == old(optVar) && regNames == old(regNames) && attrs == old(attrs) && objFun == old(objFun) && conFun == old(conFun)
      ensures index2var == old(index2var) && jac == old(jac) && objSign == old(objSign)
    {
      currVar := WriteEntries(currVar, index2var, x);
      OverwritePrefix(old(currVar), index2var, x, Min(|index2var|, |x|));
    }

    /** The objects a call of the current objective may update. */
    function ObjectiveFootprint(): set<object>
      reads this
    {
      if objFun.Some? then Footprint(objFun.value) else {}
    }

    /** `obj_fun_eval`: the objective wrapper the minimiser calls. It writes
        the vector back into `curr_var`, evaluates the objective on all of
        `curr_var` and multiplies by the sign. */
    method ObjFunEval(x: seq<real>) returns (r: Result<real, Error>)
      modifies this, ObjectiveFootprint()
      ensures currVar == Overwrite(old(currVar), index2var[..Min(|index2var|, |x|)], x[..Min(|index2var|, |x|)])
      ensures objFun == old(objFun) && index2var == old(index2var) && objSign == old(objSign)
      ensures optVar == old(optVar) && regNames == old(regNames) && attrs == old(attrs) && conFun == old(conFun) && jac == old(jac)
      ensures objFun.None? ==> r == Err(ObjectiveMissing)
      ensures objFun.Some? && objFun.value.FunTerm? ==>
                r.Ok? && r.value == Signed(objSign, objFun.value.f.fun.eval(currVar))
      ensures objFun.Some? && objFun.value.ExprTerm? ==>
                var e := objFun.value.e;
                && e.fun == (if old(e.fun).None? then Some(currVar.Keys) else old(e.fun))
                && (r.Ok? <==> e.fun.value == currVar.Keys)
                && (r.Ok? ==> r.value == Signed(objSign, e.sym.eval(currVar)))
                && (r.Err? ==> r.error == KeywordMismatch)
    {
      SetCurrVal(x);
      if objFun.None? {
        return Err(ObjectiveMissing);
      }
      var t := objFun.value;
      ghost var cv := currVar;
      var v := Evaluate(t, currVar);
      assert currVar == cv;
      if v.Ok? {
        r := Ok(Signed(objSign, v.value));
      } else {
        r := Err(v.error);
      }
    }

    /** `_obj_jac_fun`: the Jacobian wrapper: write the vector back, then call
        the Jacobian on all of `curr_var`. */
    method ObjJacFun(x: seq<real>) returns (r: Result<seq<real>, Error>)
      modifies this
      ensures currVar == Overwrite(old(currVar), index2var[..Min(|index2var|, |x|)], x[..Min(|index2var|, |x|)])
      ensures objFun == old(objFun) && index2var == old(index2var) && objSign == old(objSign)
      ensures optVar == old(optVar) && regNames == old(regNames) && attrs == old(attrs) && conFun == old(conFun) && jac == old(jac)
      ensures jac.None? ==> r == Err(JacobianMissing)
      ensures jac.Some? ==> r == Ok(EvalJacobian(jac.value, currVar))
    {
      SetCurrVal(x);
      if jac.None? {
        r := Err(JacobianMissing);
      } else {
        r := Ok(EvalJacobian(jac.value, currVar));
      }
    }

    /** `_get_bounds`: the bound of the attribute of every index name, in
        index order. A name that is no attribute fails the lookup. */
    function GetBounds(): (r: Result<seq<Bound>, Error>)
      reads this, attrs.Values
      ensures r.Ok? <==> forall n :: n in index2var ==> n in attrs
      ensures r.Ok? ==> |r.value| == |index2var| &&
                        forall i :: 0 <= i < |index2var| ==> r.value[i] == attrs[index2var[i]].bound
      ensures r.Err? ==> r.error == AttributeMissing
    {
      LookupBounds(attrs, index2var)
    }

    /** `optimize` up to the call of the minimiser: fix the index order, take
        every variable's current value into `curr_var`, read the starting
        vector, ask the objective for its Jacobian, read the bounds through
        the attributes and choose the sign. Without an objective it fails at
        the Jacobian request, after the index order and `curr_var` have been
        set; with an index name that is no attribute it fails at the bounds,
        after the Jacobian has been set too. */
    method Optimize(verbose: bool := true) returns (r: Result<SolverRequest, Error>)
      modifies this
      ensures optVar == old(optVar) && regNames == old(regNames) && attrs == old(attrs) && objFun == old(objFun) && conFun == old(conFun)
      ensures index2var == old(ActiveNames(optVar)) && currVar == old(ValueMap(optVar))
      ensures forall n :: n in index2var ==> n in currVar
      ensures objFun.None? ==> r == Err(ObjectiveMissing) && jac == old(jac) && objSign == old(objSign)
      ensures objFun.Some? ==> jac == GetJac(objFun.value, index2var)
      ensures objFun.Some? && GetBounds().Err? ==> r == Err(AttributeMissing) && objSign == old(objSign)
      ensures objFun.Some? && GetBounds().Ok? ==>
                objSign == ObjSign(optType) &&
                r == Ok(SolverRequest(StartPoint(currVar, index2var), GetBounds().value, jac.Some?))
    {
      // Every value is computed first, and the fields are set together, each
      // to what the program has set by the time it returns or fails. The
      // lookups are pure, so computing one the program never reaches
      // changes nothing.
      var states := Snapshot(optVar);
      IndexOrderHasValues(states);
      var names := IndexOrder(states);
      var values := CurrentValues(states);
      var x0 := StartPoint(values, names);
      var bounds := LookupBounds(attrs, names);
      var j := if objFun.Some? then GetJac(objFun.value, names) else jac;
      var sign := if objFun.Some? && bounds.Ok? then ObjSign(optType) else objSign;
      r := if objFun.None? then Err(ObjectiveMissing)
           else if bounds.Err? then Err(bounds.error)
           else Ok(SolverRequest(x0, bounds.value, j.Some?));
      index2var, currVar, jac, objSign := names, values, j, sign;
    }
  }

  /** The loop of `_set_curr_val` on the dictionary `cur`: for each pair of
      `zip(names, x)`, in order, the entry of the name is set to the value.
      `zip` stops at the shorter list. */
  method WriteEntries(cur: Bindings, names: seq<string>, x: seq<real>) returns (r: Bindings)
    ensures r == Overwrite(cur, names[..Min(|names|, |x|)], x[..Min(|names|, |x|)])
  {
    var n := Min(|names|, |x|);
    r := cur;
    var i := 0;
    while i < n
      invariant 0 <= i <= n
      invariant r == Overwrite(cur, names[..i], x[..i])
    {
      assert names[..i + 1] == names[..i] + [names[i]];
      assert x[..i + 1] == x[..i] + [x[i]];
      OverwriteSnoc(cur, names[..i], x[..i], names[i], x[i]);
      r := r[names[i] := x[i]];
      i := i + 1;
    }
  }

  /** The bounds `_get_bounds` reads for the names `names`: one
      `getattr(self, n).bound` per name, in order, or a failure when some name
      is no attribute. */
  function LookupBounds(attrs: map<string, OptimizationVariable>, names: seq<string>): (r: Result<seq<Bound>, Error>)
    reads attrs.Values
    ensures r.Ok? <==> forall n :: n in names ==> n in attrs
    ensures r.Ok? ==> |r.value| == |names| && forall i :: 0 <= i < |names| ==> r.value[i] == attrs[names[i]].bound
    ensures r.Err? ==> r.error == AttributeMissing
  {
    if forall n | n in names :: n in attrs then Ok(BoundsOf(attrs, names))
    else Err(AttributeMissing)
  }

  /** While every variable still carries its registration name, the
      attributes are the last-wins map of the variables by current name. */
  lemma ConsistentNameMap(p: ObjectiveOptimization)
    requires p.Consistent() && NamesOf(p.optVar) == p.regNames
    ensures p.attrs == NameMap(p.optVar)
  {
  }

  /** When every variable can be looked up under its current name, so can
      every name of the index order. */
  lemma ResolvedActiveNames(vs: seq<OptimizationVariable>, attrs: map<string, OptimizationVariable>)
    requires forall i :: 0 <= i < |vs| ==> vs[i].nameIn in attrs
    ensures forall n :: n in ActiveNames(vs) ==> n in attrs
  {
    ActiveNamesExact(vs);
    forall n | n in ActiveNames(vs) ensures n in attrs {
      var i :| 0 <= i < |vs| && NamesOf(vs)[i] == n;
    }
  }

  /** The solver inputs line up while the attributes are consistent: the
      starting vector and the bounds have one entry per active variable, and
      position i of both reads the same variable, the one the attribute of
      the i-th active name refers to. With distinct names that is the i-th
      active variable itself. */
  lemma SolverInputsAligned(vs: seq<OptimizationVariable>)
    ensures forall n :: n in ActiveNames(vs) ==> n in ValueMap(vs) && n in NameMap(vs)
    ensures |StartPoint(ValueMap(vs), ActiveNames(vs))| == |ActiveVars(vs)|
    ensures |BoundsOf(NameMap(vs), ActiveNames(vs))| == |ActiveVars(vs)|
    ensures forall i :: 0 <= i < |ActiveVars(vs)| ==>
              StartPoint(ValueMap(vs), ActiveNames(vs))[i] == NameMap(vs)[ActiveNames(vs)[i]].value &&
              BoundsOf(NameMap(vs), ActiveNames(vs))[i] == NameMap(vs)[ActiveNames(vs)[i]].bound
    ensures DistinctNames(vs) ==> forall i :: 0 <= i < |ActiveVars(vs)| ==>
              StartPoint(ValueMap(vs), ActiveNames(vs))[i] == ActiveVars(vs)[i].value &&
              BoundsOf(NameMap(vs), ActiveNames(vs))[i] == ActiveVars(vs)[i].bound
  {
    ActiveNamesResolve(vs);
    ActiveNamesValues(vs);
    if DistinctNames(vs) {
      ActiveNamesDistinct(vs);
    }
  }

  /** The state `optimize` leaves on a problem whose variables still carry
      their registration names: `_get_bounds` succeeds, and the starting
      point and the bounds have one entry per active variable, reading at
      each position the attribute of the same index name; with distinct
      names, that is the active variable at that position. */
  lemma OptimizedInputsAligned(p: ObjectiveOptimization)
    requires p.Consistent() && NamesOf(p.optVar) == p.regNames
    requires p.index2var == ActiveNames(p.optVar) && p.currVar == ValueMap(p.optVar)
    ensures p.GetBounds().Ok?
    ensures |StartPoint(p.currVar, p.index2var)| == |p.GetBounds().value| == |ActiveVars(p.optVar)|
    ensures forall i :: 0 <= i < |ActiveVars(p.optVar)| ==>
              StartPoint(p.currVar, p.index2var)[i] == p.attrs[p.index2var[i]].value &&
              p.GetBounds().value[i] == p.attrs[p.index2var[i]].bound
    ensures DistinctNames(p.optVar) ==> forall i :: 0 <= i < |ActiveVars(p.optVar)| ==>
              StartPoint(p.currVar, p.index2var)[i] == ActiveVars(p.optVar)[i].value &&
              p.GetBounds().value[i] == ActiveVars(p.optVar)[i].bound
  {
    ConsistentNameMap(p);
    SolverInputsAligned(p.optVar);
  }

  /** Every active name is a key of `curr_var` and an attribute, and there
      is one active name per active variable. */
  lemma ActiveNamesResolve(vs: seq<OptimizationVariable>)
    ensures |ActiveNames(vs)| == |ActiveVars(vs)|
    ensures forall n :: n in ActiveNames(vs) ==> n in ValueMap(vs) && n in NameMap(vs)
  {
    ActiveNamesExact(vs);
  }

  /** Position by position, `curr_var` of an active name is the value of the
      variable that the attribute of that name refers to. */
  lemma ActiveNamesValues(vs: seq<OptimizationVariable>)
    ensures forall i :: 0 <= i < |ActiveNames(vs)| ==>
              ActiveNames(vs)[i] in ValueMap(vs) && ActiveNames(vs)[i] in NameMap(vs) &&
              ValueMap(vs)[ActiveNames(vs)[i]] == NameMap(vs)[ActiveNames(vs)[i]].value
  {
    ActiveNamesResolve(vs);
    ValueMapIsNameMapValue(vs);
  }

  /** With distinct names the attribute of the i-th active name is the i-th
      active variable. */
  lemma ActiveNamesDistinct(vs: seq<OptimizationVariable>)
    requires DistinctNames(vs)
    ensures |ActiveNames(vs)| == |ActiveVars(vs)|
    ensures forall i :: 0 <= i < |ActiveVars(vs)| ==>
              ActiveNames(vs)[i] in NameMap(vs) && NameMap(vs)[ActiveNames(vs)[i]] == ActiveVars(vs)[i]
  {
    ActiveNamesOfActiveVars(vs);
    ActiveVarsInOrder(vs);
    var pos := Positions(ActiveFlags(vs));
    forall i | 0 <= i < |ActiveVars(vs)|
      ensures ActiveNames(vs)[i] in NameMap(vs) && NameMap(vs)[ActiveNames(vs)[i]] == ActiveVars(vs)[i]
    {
      NameMapDistinct(vs, pos[i]);
    }
  }


  /** Duplicate names are not rejected. Two distinct variables of one name
      have distinct display symbols (the symbol cache returns one object per
      symbol), and then the later one shadows the earlier wherever a name is
      looked up: with an active `a` registered first and a passive `a`
      second, the index order holds the one active name, but the starting
      value and the bound handed to the solver for it are the passive
      variable's. */
  lemma ShadowedNameInputs(a1: OptimizationVariable, a2: OptimizationVariable)
    requires a1.symName != a2.symName
    requires a1.nameIn == a2.nameIn
    requires a1.active && !a2.active
    ensures ActiveNames([a1, a2]) == [a1.nameIn]
    ensures StartPoint(ValueMap([a1, a2]), ActiveNames([a1, a2])) == [a2.value]
    ensures BoundsOf(NameMap([a1, a2]), ActiveNames([a1, a2])) == [a2.bound]
  {
    var n := a1.nameIn;
    var s1 := VarState(n, a1.value, a1.bound, true);
    var s2 := VarState(n, a2.value, a2.bound, false);
    assert Snapshot([a1, a2]) == [s1, s2];
    ShadowedStateInputs(s1, s2);
    assert NamesOf([a1, a2]) == [n, n];
    OverwriteLast(map[], [n, n], [a1, a2], 1);
  }

  /** An active state followed by a passive one: the index order is the
      first name alone, and `curr_var` holds both values. */
  lemma OneActiveStates(s1: VarState, s2: VarState)
    requires s1.active && !s2.active
    ensures IndexOrder([s1, s2]) == [s1.nameIn]
    ensures CurrentValues([s1, s2]) == map[s1.nameIn := s1.value][s2.nameIn := s2.value]
  {
    assert Names([s1, s2]) == [s1.nameIn] + [s2.nameIn];
    assert Flags([s1, s2]) == [true] + [false];
    assert Values([s1, s2]) == [s1.value] + [s2.value];
    SelectAppend([], [], s1.nameIn, true);
    SelectAppend([s1.nameIn], [true], s2.nameIn, false);
    OverwriteSnoc(map[], [], [], s1.nameIn, s1.value);
    OverwriteSnoc(map[], [s1.nameIn], [s1.value], s2.nameIn, s2.value);
  }

  /** `ShadowedNameInputs` on the states: when both states carry one name,
      the passive state's value overwrites the active one's. */
  lemma ShadowedStateInputs(s1: VarState, s2: VarState)
    requires s1.nameIn == s2.nameIn
    requires s1.active && !s2.active
    ensures IndexOrder([s1, s2]) == [s1.nameIn]
    ensures CurrentValues([s1, s2]) == map[s1.nameIn := s2.value]
  {
    OneActiveStates(s1, s2);
  }
}
