/** Decision variables (`optimization_variable`) and the views the problem
    model derives from its list of them: the active/passive filters, the
    attribute lookup by name, and the `curr_var` dictionary of values; and
    the symbol cache through which the program creates every variable. */
module Variables {
  import opened Common
  import opened Masks
  import opened Updates

  /** The display symbol of a variable: `sym_name`, or the name when it is None. */
  function DisplayName(name: string, symName: Option<string>): (s: string)
    ensures symName.None? ==> s == name
    ensures symName.Some? ==> s == symName.value
  {
    if symName.Some? then symName.value else name
  }

  /** A named, bounded scalar, which in the program is a sympy `Symbol` named
      by its display symbol `symName`. `nameIn` is the keyword under which
      the value reaches the objective. The display symbol never changes; the
      other five fields are set again whenever `__init__` runs on the object,
      and the last four are also mutated through the setters. Every alias of
      the object (each entry of `opt_var` holding it, each attribute of a
      problem, the symbol cache) sees the change. */
  class OptimizationVariable {
    var nameIn: string
    const symName: string
    var value: real
    var defaultValue: real
    var bound: Bound
    var active: bool

    /** A new variable: the value given is both its current and its default
        value, and the display symbol falls back to the name when absent. */
    constructor (name: string, value: real := 0.0, bound: Bound := Unbounded,
                 symName: Option<string> := None, active: bool := true)
      ensures nameIn == name && this.symName == DisplayName(name, symName)
      ensures this.value == value && defaultValue == value
      ensures this.bound == bound && this.active == active
    {
      nameIn := name;
      this.symName := DisplayName(name, symName);
      this.value := value;
      defaultValue := value;
      this.bound := bound;
      this.active := active;
    }

    /** `__init__` run again on a symbol that sympy returned from its cache:
        every field but the display symbol is set anew, the default value to
        the value given. */
    method Reinit(name: string, value: real, bound: Bound, active: bool)
      modifies this
      ensures nameIn == name && this.value == value && defaultValue == value
      ensures this.bound == bound && this.active == active
    {
      nameIn := name;
      this.value := value;
      defaultValue := value;
      this.bound := bound;
      this.active := active;
    }

    method SetValue(value: real)
      modifies this
      ensures this.value == value
      ensures nameIn == old(nameIn) && defaultValue == old(defaultValue) && bound == old(bound) && active == old(active)
    {
      this.value := value;
    }

    method SetDefaultValue(defaultValue: real)
      modifies this
      ensures this.defaultValue == defaultValue
      ensures nameIn == old(nameIn) && value == old(value) && bound == old(bound) && active == old(active)
    {
      this.defaultValue := defaultValue;
    }

    method SetBound(bound: Bound)
      modifies this
      ensures this.bound == bound
      ensures nameIn == old(nameIn) && value == old(value) && defaultValue == old(defaultValue) && active == old(active)
    {
      this.bound := bound;
    }

    method SetPassive()
      modifies this
      ensures !active
      ensures nameIn == old(nameIn) && value == old(value) && defaultValue == old(defaultValue) && bound == old(bound)
    {
      active := false;
    }

    method SetActive()
      modifies this
      ensures active
      ensures nameIn == old(nameIn) && value == old(value) && defaultValue == old(defaultValue) && bound == old(bound)
    {
      active := true;
    }
  }

  /** sympy's cache of symbols. sympy keys it on the class and the name of
      the symbol, so for variables on the display symbol alone. It belongs to
      the process, not to a problem: every problem draws its variables from
      the same cache. */
  class SymbolCache {
    var symbols: map<string, OptimizationVariable>

    /** Each cached variable is filed under its own display symbol. */
    ghost predicate Valid()
      reads this
    {
      forall k :: k in symbols ==> symbols[k].symName == k
    }

    constructor ()
      ensures Valid() && symbols == map[]
    {
      symbols := map[];
    }

    /** The variable that a display symbol already names, if any. */
    function Cached(key: string): set<object>
      reads this
    {
      if key in symbols then {symbols[key]} else {}
    }

    /** `optimization_variable(name, value, bound, sym_name, active)`:
        `__new__` asks sympy for the symbol of the display name, which is a
        new object only when that name is not cached yet; `__init__` then
        sets the fields of whichever object came back. A cached variable is
        therefore re-initialised in place, wherever else it is held. */
    method NewVariable(name: string, value: real, bound: Bound, symName: Option<string>, active: bool)
      returns (v: OptimizationVariable)
      requires Valid()
      modifies this, Cached(DisplayName(name, symName))
      ensures Valid()
      ensures symbols == old(symbols)[DisplayName(name, symName) := v]
      ensures old(DisplayName(name, symName) in symbols) ==> v == old(symbols[DisplayName(name, symName)])
      ensures old(DisplayName(name, symName) !in symbols) ==> fresh(v)
      ensures v.symName == DisplayName(name, symName) && v.nameIn == name
      ensures v.value == value && v.defaultValue == value && v.bound == bound && v.active == active
    {
      var key := DisplayName(name, symName);
      if key in symbols {
        v := symbols[key];
        v.Reinit(name, value, bound, active);
      } else {
        v := new OptimizationVariable(name, value, bound, symName, active);
        symbols := symbols[key := v];
      }
    }
  }

  /** What the problem reads off a variable when it assembles the solver
      inputs: its keyword name, its current value, its bound and its flag. */
  datatype VarState = VarState(nameIn: string, value: real, bound: Bound, active: bool)

  /** The current state of every variable, in registration order. */
  function Snapshot(vs: seq<OptimizationVariable>): (r: seq<VarState>)
    reads vs
    ensures |r| == |vs|
    ensures forall i :: 0 <= i < |vs| ==>
              r[i] == VarState(vs[i].nameIn, vs[i].value, vs[i].bound, vs[i].active)
  {
    seq(|vs|, i reads vs requires 0 <= i < |vs| =>
      VarState(vs[i].nameIn, vs[i].value, vs[i].bound, vs[i].active))
  }

  function Names(ss: seq<VarState>): (r: seq<string>)
    ensures |r| == |ss|
    ensures forall i :: 0 <= i < |ss| ==> r[i] == ss[i].nameIn
  {
    seq(|ss|, i requires 0 <= i < |ss| => ss[i].nameIn)
  }

  function Flags(ss: seq<VarState>): (r: seq<bool>)
    ensures |r| == |ss|
    ensures forall i :: 0 <= i < |ss| ==> r[i] == ss[i].active
  {
    seq(|ss|, i requires 0 <= i < |ss| => ss[i].active)
  }

  function Values(ss: seq<VarState>): (r: seq<real>)
    ensures |r| == |ss|
    ensures forall i :: 0 <= i < |ss| ==> r[i] == ss[i].value
  {
    seq(|ss|, i requires 0 <= i < |ss| => ss[i].value)
  }

  /** `_index2var` computed from the variables' states: the names whose flag
      is set, in registration order. */
  function IndexOrder(ss: seq<VarState>): (r: seq<string>)
    ensures |r| <= |ss|
    ensures forall n :: n in r ==> n in Names(ss)
  {
    Select(Names(ss), Flags(ss))
  }

  /** `curr_var` computed from the variables' states: every name mapped to
      its value, a later name overwriting an earlier one. */
  function CurrentValues(ss: seq<VarState>): (r: Bindings)
    ensures forall n :: n in r <==> n in Names(ss)
  {
    Overwrite(map[], Names(ss), Values(ss))
  }

  /** The mask `[var.active for var in opt_var]`, read from the current flags. */
  function ActiveFlags(vs: seq<OptimizationVariable>): (r: seq<bool>)
    reads vs
    ensures |r| == |vs|
    ensures forall i :: 0 <= i < |vs| ==> r[i] == vs[i].active
  {
    Flags(Snapshot(vs))
  }

  /** `get_active_var`: the variables whose flag is currently set. */
  function ActiveVars(vs: seq<OptimizationVariable>): (r: seq<OptimizationVariable>)
    reads vs
    ensures forall v :: v in r ==> v in vs && v.active
    ensures forall i :: 0 <= i < |vs| && vs[i].active ==> vs[i] in r
  {
    var keep := ActiveFlags(vs);
    forall v | v in Select(vs, keep) ensures v in vs && v.active {
      SelectMember(vs, keep, v);
    }
    forall i | 0 <= i < |vs| && vs[i].active ensures vs[i] in Select(vs, keep) {
      SelectMember(vs, keep, vs[i]);
    }
    Select(vs, keep)
  }

  /** `get_passive_var`: the variables whose flag is currently clear. */
  function PassiveVars(vs: seq<OptimizationVariable>): (r: seq<OptimizationVariable>)
    reads vs
    ensures forall v :: v in r ==> v in vs && !v.active
    ensures forall i :: 0 <= i < |vs| && !vs[i].active ==> vs[i] in r
  {
    var keep := Negate(ActiveFlags(vs));
    forall v | v in Select(vs, keep) ensures v in vs && !v.active {
      SelectMember(vs, keep, v);
    }
    forall i | 0 <= i < |vs| && !vs[i].active ensures vs[i] in Select(vs, keep) {
      SelectMember(vs, keep, vs[i]);
    }
    Select(vs, keep)
  }

  /** `[v.name_in for v in vs]`. */
  function NamesOf(vs: seq<OptimizationVariable>): (r: seq<string>)
    reads vs
    ensures |r| == |vs|
    ensures forall i :: 0 <= i < |vs| ==> r[i] == vs[i].nameIn
  {
    Names(Snapshot(vs))
  }

  /** `_index2var`: the names of the active variables, in registration order.
      The mask picks the names directly; `ActiveNamesOfActiveVars` shows that
      this is `[v.name_in for v in get_active_var()]`. */
  function ActiveNames(vs: seq<OptimizationVariable>): (r: seq<string>)
    reads vs
    ensures |r| <= |vs|
    ensures forall n :: n in r ==> n in NamesOf(vs)
  {
    IndexOrder(Snapshot(vs))
  }

  ghost predicate DistinctNames(vs: seq<OptimizationVariable>)
    reads vs
  {
    forall i, j :: 0 <= i < j < |vs| ==> vs[i].nameIn != vs[j].nameIn
  }

  /** The attributes that `setattr(self, v.name_in, v)` leaves behind after
      the registrations `vs`, one after the other, as long as none of them
      was renamed since: a later variable of the same name replaces the
      earlier one. */
  function NameMap(vs: seq<OptimizationVariable>): (r: map<string, OptimizationVariable>)
    reads vs
    ensures forall n :: n in r <==> n in NamesOf(vs)
  {
    Overwrite(map[], NamesOf(vs), vs)
  }

  /** `curr_var = {v.name_in: v.value for v in opt_var}`: the current value of
      every variable, active or passive, a later name overwriting an earlier
      one. Its keys are exactly the names of the variables. */
  function ValueMap(vs: seq<OptimizationVariable>): (r: Bindings)
    reads vs
    ensures forall n :: n in r <==> n in NamesOf(vs)
  {
    CurrentValues(Snapshot(vs))
  }

  /** `[getattr(self, name).bound for name in names]`. */
  function BoundsOf(attrs: map<string, OptimizationVariable>, names: seq<string>): (r: seq<Bound>)
    requires forall n :: n in names ==> n in attrs
    reads attrs.Values
    ensures |r| == |names|
    ensures forall i :: 0 <= i < |names| ==> r[i] == attrs[names[i]].bound
  {
    seq(|names|, i reads attrs.Values requires 0 <= i < |names| => attrs[names[i]].bound)
  }

  /** The active and the passive variables are disjoint, and together they are
      the registered variables, each exactly once. */
  lemma VarPartition(vs: seq<OptimizationVariable>)
    ensures |ActiveVars(vs)| + |PassiveVars(vs)| == |vs|
    ensures multiset(ActiveVars(vs)) + multiset(PassiveVars(vs)) == multiset(vs)
    ensures forall v :: !(v in ActiveVars(vs) && v in PassiveVars(vs))
  {
    SelectPartition(vs, ActiveFlags(vs));
  }

  /** `get_active_var` keeps registration order: it is the list of variables
      read at the increasing positions whose flag is set, and those positions
      are exactly the active ones. */
  lemma ActiveVarsInOrder(vs: seq<OptimizationVariable>)
    ensures |ActiveVars(vs)| == |Positions(ActiveFlags(vs))|
    ensures StrictlyIncreasing(Positions(ActiveFlags(vs)))
    ensures forall k :: 0 <= k < |ActiveVars(vs)| ==>
              Positions(ActiveFlags(vs))[k] < |vs| &&
              ActiveVars(vs)[k] == vs[Positions(ActiveFlags(vs))[k]]
    ensures forall i :: 0 <= i < |vs| ==> (vs[i].active <==> i in Positions(ActiveFlags(vs)))
  {
    SelectAt(vs, ActiveFlags(vs));
    PositionsExact(ActiveFlags(vs));
  }

  /** `get_passive_var` keeps registration order in the same way. */
  lemma PassiveVarsInOrder(vs: seq<OptimizationVariable>)
    ensures |PassiveVars(vs)| == |Positions(Negate(ActiveFlags(vs)))|
    ensures StrictlyIncreasing(Positions(Negate(ActiveFlags(vs))))
    ensures forall k :: 0 <= k < |PassiveVars(vs)| ==>
              Positions(Negate(ActiveFlags(vs)))[k] < |vs| &&
              PassiveVars(vs)[k] == vs[Positions(Negate(ActiveFlags(vs)))[k]]
    ensures forall i :: 0 <= i < |vs| ==> (!vs[i].active <==> i in Positions(Negate(ActiveFlags(vs))))
  {
    SelectAt(vs, Negate(ActiveFlags(vs)));
    PositionsExact(Negate(ActiveFlags(vs)));
  }

  /** Registering one more variable appends it to the active list exactly when
      its flag is set, and leaves the list of earlier active variables as it was. */
  lemma ActiveVarsAppend(vs: seq<OptimizationVariable>, v: OptimizationVariable)
    ensures ActiveVars(vs + [v]) == ActiveVars(vs) + (if v.active then [v] else [])
    ensures PassiveVars(vs + [v]) == PassiveVars(vs) + (if v.active then [] else [v])
  {
    assert ActiveFlags(vs + [v]) == ActiveFlags(vs) + [v.active];
    assert Negate(ActiveFlags(vs + [v])) == Negate(ActiveFlags(vs)) + [!v.active];
    SelectAppend(vs, ActiveFlags(vs), v, v.active);
    SelectAppend(vs, Negate(ActiveFlags(vs)), v, !v.active);
  }

  /** The attribute lookup resolves every name to a variable of that name,
      and to the LAST one registered under it: an earlier variable is
      reachable by name only while no later one shares its name. */
  lemma NameMapLastWins(vs: seq<OptimizationVariable>)
    ensures forall n :: n in NameMap(vs) <==> n in NamesOf(vs)
    ensures forall n :: n in NameMap(vs) ==> NameMap(vs)[n] in vs && NameMap(vs)[n].nameIn == n
    ensures forall i :: 0 <= i < |vs| && (forall j :: i < j < |vs| ==> vs[j].nameIn != vs[i].nameIn) ==>
              NameMap(vs)[vs[i].nameIn] == vs[i]
  {
    var names := NamesOf(vs);
    forall n | n in NameMap(vs) ensures NameMap(vs)[n] in vs && NameMap(vs)[n].nameIn == n {
      OverwriteAtLastIndex(map[], names, vs, n);
    }
    forall i | 0 <= i < |vs| && (forall j :: i < j < |vs| ==> vs[j].nameIn != vs[i].nameIn)
      ensures NameMap(vs)[vs[i].nameIn] == vs[i]
    {
      OverwriteLast(map[], names, vs, i);
    }
  }

  /** Registering one more variable adds one more attribute assignment. */
  lemma NameMapSnoc(vs: seq<OptimizationVariable>, v: OptimizationVariable)
    ensures NameMap(vs + [v]) == NameMap(vs)[v.nameIn := v]
  {
    assert NamesOf(vs + [v]) == NamesOf(vs) + [v.nameIn];
    OverwriteSnoc(map[], NamesOf(vs), vs, v.nameIn, v);
  }

  /** With distinct names every variable is reachable under its own name. */
  lemma NameMapDistinct(vs: seq<OptimizationVariable>, i: nat)
    requires DistinctNames(vs)
    requires i < |vs|
    ensures NameMap(vs)[vs[i].nameIn] == vs[i]
  {
    NameMapLastWins(vs);
  }

  /** The two last-wins constructions agree: `curr_var[name]` is the current
      value of the variable that the attribute `name` refers to. */
  lemma ValueMapIsNameMapValue(vs: seq<OptimizationVariable>)
    ensures ValueMap(vs).Keys == NameMap(vs).Keys
    ensures forall n :: n in ValueMap(vs) ==> ValueMap(vs)[n] == NameMap(vs)[n].value
  {
    var names := NamesOf(vs);
    forall n | n in ValueMap(vs) ensures ValueMap(vs)[n] == NameMap(vs)[n].value {
      OverwriteAtLastIndex(map[], names, vs, n);
      OverwriteAtLastIndex(map[], names, Values(Snapshot(vs)), n);
    }
  }

  /** `_index2var` names every active variable and nothing but registered
      names, one entry per active variable. */
  lemma ActiveNamesExact(vs: seq<OptimizationVariable>)
    ensures |ActiveNames(vs)| == |ActiveVars(vs)|
    ensures forall i :: 0 <= i < |vs| && vs[i].active ==> vs[i].nameIn in ActiveNames(vs)
    ensures forall n :: n in ActiveNames(vs) ==> n in NamesOf(vs)
  {
    ActiveNamesOfActiveVars(vs);
    var names := NamesOf(vs);
    forall i | 0 <= i < |vs| && vs[i].active ensures vs[i].nameIn in ActiveNames(vs) {
      SelectMember(names, ActiveFlags(vs), names[i]);
    }
  }

  /** The mask applied to the names gives the names of the active variables,
      position by position. */
  lemma ActiveNamesOfActiveVars(vs: seq<OptimizationVariable>)
    ensures ActiveNames(vs) == NamesOf(ActiveVars(vs))
  {
    var flags := ActiveFlags(vs);
    SelectAt(NamesOf(vs), flags);
    SelectAt(vs, flags);
    assert forall v :: v in ActiveVars(vs) ==> v in vs;
  }

  /** The keys of `curr_var` are exactly the names of the variables. */
  lemma ValueMapKeys(vs: seq<OptimizationVariable>)
    ensures forall n :: n in ValueMap(vs) <==> n in NamesOf(vs)
  {
  }

  /** Every active name has a current value. */
  lemma IndexOrderHasValues(ss: seq<VarState>)
    ensures forall n :: n in IndexOrder(ss) ==> n in CurrentValues(ss)
  {
  }

  /** Every name of `_index2var` has a `curr_var` entry, so the lookup
      `curr_var[n]` that builds `x0` cannot fail. */
  lemma ActiveNamesHaveValues(vs: seq<OptimizationVariable>)
    ensures forall n :: n in ActiveNames(vs) ==> n in ValueMap(vs)
  {
    IndexOrderHasValues(Snapshot(vs));
  }

  /** One symbol registered twice: `opt_var` holds the same object twice. It
      contributes its name to the index order twice when active and not at
      all when passive, and `curr_var` has its one current value. */
  lemma RepeatedSymbolInputs(v: OptimizationVariable)
    ensures ActiveNames([v, v]) == if v.active then [v.nameIn, v.nameIn] else []
    ensures ValueMap([v, v]) == map[v.nameIn := v.value]
  {
    var st := VarState(v.nameIn, v.value, v.bound, v.active);
    assert Snapshot([v, v]) == [st, st];
    RepeatedStateInputs(st);
  }

  /** The same on the states: a state listed twice. */
  lemma RepeatedStateInputs(st: VarState)
    ensures IndexOrder([st, st]) == if st.active then [st.nameIn, st.nameIn] else []
    ensures CurrentValues([st, st]) == map[st.nameIn := st.value]
  {
    assert Names([st, st]) == [st.nameIn] + [st.nameIn];
    assert Flags([st, st]) == [st.active] + [st.active];
    assert Values([st, st]) == [st.value] + [st.value];
    SelectAppend([], [], st.nameIn, st.active);
    SelectAppend([st.nameIn], [st.active], st.nameIn, st.active);
    OverwriteSnoc(map[], [], [], st.nameIn, st.value);
    OverwriteSnoc(map[], [st.nameIn], [st.value], st.nameIn, st.value);
  }

  lemma RepeatedSymbolActive(v: OptimizationVariable)
    ensures ActiveVars([v, v]) == if v.active then [v, v] else []
  {
    ActiveVarsAppend([], v);
    ActiveVarsAppend([v], v);
    assert [v] == [] + [v] && [v, v] == [v] + [v];
  }
}
