/** Client scenarios: sequences of calls whose outcome follows from the
    contracts alone. They fix, on small concrete inputs, behaviour that the
    program shows but never checks. */
module Scenarios {
  import opened Common
  import opened Variables
  import opened Terms
  import opened Problem

  /** A bound set through the variable's attribute is the bound read back;
      the value and the default value stay as registered. */
  method BoundRoundTrip()
  {
    var cache := new SymbolCache();
    var p := new ObjectiveOptimization();
    p.AddOptimizationVariable(cache, "x", 1.0, Bound(Finite(-2.0), Finite(2.0)));
    var x := p.attrs["x"];
    assert x == p.optVar[0];
    x.SetBound(Bound(Finite(0.0), Finite(5.0)));
    assert p.optVar[0].bound == Bound(Finite(0.0), Finite(5.0));
    assert x.value == 1.0 && x.defaultValue == 1.0 && x.active;
  }

  /** A name registered a second time with the default display symbol is
      the same symbol: `opt_var` holds the one object twice, re-initialised
      by the second call, so a variable turned into a parameter leaves no
      active name at all. */
  method RepeatedName()
  {
    var cache := new SymbolCache();
    var p := new ObjectiveOptimization();
    p.AddOptimizationVariable(cache, "a", 1.0);
    p.AddOptimizationParameter(cache, "a", 5.0);
    var a := p.optVar[0];
    assert p.optVar == [a, a];
    assert a.value == 5.0 && !a.active;
    RepeatedSymbolInputs(a);
    assert ActiveNames(p.optVar) == [];
  }

  /** The symbol cache is shared by every problem: registering the same name
      in a second problem re-initialises the first problem's variable. */
  method SharedAcrossProblems()
  {
    var cache := new SymbolCache();
    var p1, a := ProblemWith(cache, "a", 1.0);
    var p2, b := ProblemWith(cache, "a", 3.0);
    assert b == a;
    assert p1.optVar == p2.optVar == [a] && a.value == a.defaultValue == 3.0;
  }

  /** A new problem with one variable registered on the shared cache. */
  method ProblemWith(cache: SymbolCache, name: string, value: real) returns (p: ObjectiveOptimization, v: OptimizationVariable)
    requires cache.Valid()
    modifies cache, cache.Cached(name)
    ensures fresh(p) && p.optVar == [v] && cache.Valid() && cache.symbols == old(cache.symbols)[name := v]
    ensures name in old(cache.symbols) ==> v == old(cache.symbols[name])
    ensures name !in old(cache.symbols) ==> fresh(v)
    ensures v.nameIn == name && v.value == value && v.defaultValue == value
  {
    p := new ObjectiveOptimization();
    p.AddOptimizationVariable(cache, name, value);
    v := p.optVar[0];
  }

  /** The usual order of calls: register a variable and a parameter, set the
      objective, optimize. The attributes are still the last-wins map of the
      registrations, so the solver request reads the one active variable: its
      value as the starting point and its bound as the only bound. */
  method RegisterThenOptimize(f: Callable)
  {
    var p, x := RegisterAndSetObjective(f);
    var r := OptimizeRegistered(p, x);
    assert r.Ok? && r.value.x0 == [0.5] && r.value.bounds == [x.bound] && !r.value.useJac;
    assert p.objSign == 1.0;
    OptimizedInputsAligned(p);
  }

  /** The first part of `RegisterThenOptimize`: an active variable "x" and a
      parameter "k" registered on a new problem, then a user objective. */
  method RegisterAndSetObjective(f: Callable) returns (p: ObjectiveOptimization, x: OptimizationVariable)
    ensures fresh(p) && p.Consistent() && p.regNames == ["x", "k"] && NamesOf(p.optVar) == ["x", "k"]
    ensures Snapshot(p.optVar) == [VarState("x", 0.5, x.bound, true), VarState("k", 2.0, Unbounded, false)]
    ensures x.bound == Bound(Finite(-1.0), Finite(1.0)) && p.attrs["x"] == x
    ensures p.objFun == Some(FunTerm(MakeFunctionTerm(f, None, None))) && p.optType == "min"
  {
    p, x := RegisterVariableAndParameter();
    ghost var states := Snapshot(p.optVar);
    p.AddObjectiveFunction(f);
    assert Snapshot(p.optVar) == states;
  }

  /** The registrations of `RegisterAndSetObjective`, through a new symbol
      cache: "x" active with bound [-1, 1], then "k" as a parameter. */
  method RegisterVariableAndParameter() returns (p: ObjectiveOptimization, x: OptimizationVariable)
    ensures fresh(p) && p.Consistent() && p.regNames == ["x", "k"] && NamesOf(p.optVar) == ["x", "k"]
    ensures Snapshot(p.optVar) == [VarState("x", 0.5, x.bound, true), VarState("k", 2.0, Unbounded, false)]
    ensures x.bound == Bound(Finite(-1.0), Finite(1.0)) && p.attrs["x"] == x && p.optType == "min"
  {
    var cache := new SymbolCache();
    p := new ObjectiveOptimization();
    p.AddOptimizationVariable(cache, "x", 0.5, Bound(Finite(-1.0), Finite(1.0)));
    p.AddOptimizationParameter(cache, "k", 2.0);
    x := p.optVar[0];
  }

  /** The second part: `optimize` on the problem the first part leaves. The
      objective supplies no Jacobian and "x" is the one active variable, so
      the request is its value and its bound, without the Jacobian, and the
      sign is +1 for `"min"`. */
  method OptimizeRegistered(p: ObjectiveOptimization, x: OptimizationVariable) returns (r: Result<SolverRequest, Error>)
    requires p.Consistent() && p.regNames == ["x", "k"] && NamesOf(p.optVar) == ["x", "k"]
    requires Snapshot(p.optVar) == [VarState("x", 0.5, x.bound, true), VarState("k", 2.0, Unbounded, false)]
    requires p.attrs["x"] == x && p.objFun.Some? && p.objFun.value.FunTerm? && p.objFun.value.f.jac.None?
    requires p.optType == "min"
    modifies p
    ensures r == Ok(SolverRequest([0.5], [x.bound], false)) && p.objSign == 1.0
    ensures p.Consistent() && NamesOf(p.optVar) == p.regNames
    ensures p.index2var == ActiveNames(p.optVar) && p.currVar == ValueMap(p.optVar)
  {
    ghost var states := Snapshot(p.optVar);
    OneActiveStates(states[0], states[1]);
    r := p.Optimize();
    assert Snapshot(p.optVar) == states;
    assert p.index2var == ["x"] && p.currVar == map["x" := 0.5, "k" := 2.0];
    assert p.GetBounds().Ok?;
    assert r.Ok? && r.value.x0 == [0.5] && r.value.bounds == [x.bound];
    assert p.jac.None?;
  }

  /** The compiled expression keeps the keyword set of its first call: a later
      call with one more keyword (a variable registered after the first solve)
      fails, and the cache is not rebuilt. */
  method StaleCompiledExpression(e: SymExpr)
  {
    var ex := new Expression(e, true);
    var r1 := ex.Call(map["x" := 1.0]);
    assert map["x" := 1.0].Keys == {"x"};
    assert r1.Ok? && r1.value == e.eval(map["x" := 1.0]);
    var r2 := ex.Call(map["x" := 1.0, "y" := 2.0]);
    assert map["x" := 1.0, "y" := 2.0].Keys != {"x"} by {
      assert "y" in map["x" := 1.0, "y" := 2.0].Keys;
    }
    assert r2.Err? && r2.error == KeywordMismatch;
    assert ex.fun == Some({"x"});
  }
}
