# Objective_Optimization: the problem-model core in Dafny

`Objective_Optimization` is a thin modelling layer over a symbolic-algebra
package and a bounded nonlinear minimiser. A user registers decision
variables (each with a value, a default value, a bound and an active flag),
sets one objective (a symbolic expression or a plain function), adds
constraints, and calls `optimize`. `optimize` fixes the order of the active
variables, builds the starting vector and the bounds in that order, picks the
sign (maximising is minimising the negated objective), and hands the
minimiser an objective wrapper that writes the flat vector back into the
name-to-value bindings before it evaluates the objective.

This project models that bookkeeping and proves what it guarantees:

- `Common.dfy`: optional values, results, the errors the layer raises, bounds
  whose ends may be infinite, and name-to-value bindings.
- `Masks.dfy`: numpy boolean-mask indexing (`arr[mask]`) as `Select`, with the
  facts every filter relies on: membership, order, and partition by a mask
  and its negation.
- `Updates.dfy`: dictionary updates applied in order (`m[k] = x` for each
  pair), where a key written twice holds its last write. The attributes,
  `curr_var` and the write-back of a flat vector are all built this way.
- `Variables.dfy`: the `OptimizationVariable` class with its one-field
  setters and its re-initialisation, and the `SymbolCache` through which
  every variable is created: sympy returns the already existing symbol for a
  display name it has seen, and `__init__` then runs again on that object.
  It also holds the active/passive filters and `NameMap`, which is what the
  `setattr`/`getattr` attributes amount to: a later variable with the same
  name wins. `ActiveNames` is the index order, `ValueMap` is the `curr_var`
  dictionary and `BoundsOf` is the body of `_get_bounds`. The first two are
  computed from a `Snapshot` of the variables' current fields.
- `Terms.dfy`: the `Expression` class with its one-shot compilation cache, the
  function-backed term, `get_jac`, and the `Constraint` class with its own
  active flag and comparison type.
- `Bridge.dfy`: the sign, the signed objective and the starting vector, with
  their algebra against the write-back.
- `Problem.dfy`: the `ObjectiveOptimization` class. It holds the `add_*`
  methods, `_set_index2var`, `_set_curr_val`, the two solver wrappers and
  `optimize` up to the solver call.
- `Scenarios.dfy`: client scenarios, proved from the contracts: a bound round
  trip, a name registered twice, a symbol shared by two problems, the usual
  register-then-optimize order of calls and the stale compilation cache.

The symbolic engine and the user's callables are opaque. A symbolic expression
is a pair of functions: its value under some bindings, and its row of partial
derivatives with respect to an ordered list of names. A user function is a
function from bindings to a number. Values are `real`.

Quirks of the code are reproduced, not fixed:

- `add_expression_objective_function` and `expression_constraint` pass
  `com_jac` positionally into the unused second parameter of
  `expression.__init__`. The model gives `Expression`'s constructor the same
  unused `vars` parameter, so an expression term always derives its Jacobian.
- `add_constraint_function` passes `jac=None, sym_name=None` and no comparison
  type. Its constraint is always an active `">"` constraint without a
  Jacobian.
- Duplicate names are accepted. With the default display symbol a repeated
  name is the same sympy symbol: the second registration re-initialises the
  object registered first and appends it again, so `opt_var` holds it twice
  (`SymbolCache.NewVariable`, `RepeatedSymbolInputs`). Only two variables
  with distinct display symbols can share a name; then the later one shadows
  the earlier one in the attributes, in `curr_var` and in the bounds
  (`ShadowedNameInputs`).
- The symbol cache is shared by every problem. Registering a display symbol
  in a second problem re-initialises the variable that the first problem
  holds.
- `opt_type is "max"` is an identity test on strings; the model uses string
  equality.
- The compiled expression keeps the keyword set of its first call. A later
  evaluation with other keywords fails with `KeywordMismatch`. This is what
  happens on a second `optimize` after a variable was added.

The code raises no error for a duplicate name, and none for a solve that
fails to converge; the model follows the code, and registration never fails.
A missing objective fails only at `get_jac`: `optimize` without an objective
fails when it asks the missing objective for its Jacobian, and by then
`_index2var` and `curr_var` are already set. An index name that is no
attribute of the problem (a variable renamed through another problem) fails
at `_get_bounds`, after the Jacobian has been set. With no active variable,
the request is simply empty.

## Model

| member | source | states |
|---|---|---|
| `Variables.DisplayName` | __init__.py:143-146 | the display symbol is `sym_name`, or the name when `sym_name` is None |
| `Variables.OptimizationVariable.constructor` | __init__.py:143-153 | the new variable's value and default value both equal the given value; bound, flag and name are as given; the display symbol falls back to the name |
| `Variables.OptimizationVariable.Reinit` | __init__.py:148-153 | `__init__` run again on an existing symbol sets the name, the value, the default value (to the value), the bound and the flag anew |
| `Variables.SymbolCache.constructor` | __init__.py:143-146 | the symbol table starts empty and maps each display name to a symbol of that name |
| `Variables.SymbolCache.NewVariable` | __init__.py:143-153 | a display name already in the cache gives back the cached object, re-initialised with the new name, value, bound and flag; otherwise a fresh variable, which the cache now holds under its display name; the cache keeps mapping each display name to a symbol of that name |
| `Variables.OptimizationVariable.SetValue` | __init__.py:158-159 | changes `value` only; `defaultValue`, `bound` and `active` are unchanged |
| `Variables.OptimizationVariable.SetDefaultValue` | __init__.py:161-162 | changes `defaultValue` only |
| `Variables.OptimizationVariable.SetBound` | __init__.py:164-165 | the bound read back is exactly the bound set; nothing else changes |
| `Variables.OptimizationVariable.SetPassive` | __init__.py:167-168 | clears `active` and changes nothing else |
| `Variables.OptimizationVariable.SetActive` | __init__.py:170-171 | sets `active` and changes nothing else |
| `Masks.Select` | __init__.py:40 | mask indexing (also at lines 44, 71 and 74) keeps no more elements than it is given, and only elements of its input |
| `Variables.ActiveVars` | __init__.py:39-40 | holds exactly the registered variables whose flag is currently set |
| `Variables.PassiveVars` | __init__.py:42-44 | holds exactly the registered variables whose flag is currently clear |
| `Variables.VarPartition` | __init__.py:39-44 | active and passive lists are disjoint, and together they hold every registered variable exactly once |
| `Variables.ActiveVarsInOrder` | __init__.py:39-40 | the active list reads the variables at strictly increasing positions, which are exactly the active ones, so registration order is kept |
| `Variables.PassiveVarsInOrder` | __init__.py:42-44 | the same order guarantee for the passive list |
| `Variables.ActiveVarsAppend` | __init__.py:31-44 | in any one state, the active (passive) list of `vs + [v]` is that of `vs`, followed by `v` when its flag is set (clear) |
| `Variables.NamesOf` | __init__.py:80 | one name per variable, in order, each the variable's current `name_in` |
| `Variables.IndexOrder` | __init__.py:77-80 | the index order read off a snapshot of the variables is no longer than the snapshot and holds only names in it; `ActiveNamesOfActiveVars` and `ActiveNamesExact` give its exact contents through `ActiveNames` |
| `Variables.ActiveNames` | __init__.py:77-80 | the index order of the variables as they are now is no longer than `opt_var` and holds only their current names; its exact contents are in `ActiveNamesOfActiveVars` and `ActiveNamesExact` |
| `Variables.CurrentValues` | __init__.py:108 | the keys of `curr_var` built from a snapshot are exactly the names in it; `IndexOrderHasValues` adds that every index name is one of them |
| `Variables.ValueMap` | __init__.py:108 | the keys of `curr_var` built from the variables as they are now are exactly their current names; `ValueMapKeys` and `ValueMapIsNameMapValue` give its entries |
| `Variables.ActiveNamesOfActiveVars` | __init__.py:77-80 | the index order is `[v.name_in for v in get_active_var()]`, position by position |
| `Variables.ActiveNamesExact` | __init__.py:77-80 | the index order has one name per active variable, holds the name of every active variable and only names of registered variables |
| `Variables.ValueMapKeys` | __init__.py:108 | the keys of `curr_var` are exactly the current names of the variables |
| `Variables.IndexOrderHasValues` | __init__.py:107-109 | every name in the index order has an entry in `curr_var`, so `x0` can be read |
| `Variables.ActiveNamesHaveValues` | __init__.py:107-109 | every name of `_index2var` has a `curr_var` entry, so building `x0` cannot fail |
| `Variables.NameMap` | __init__.py:31-32 | the attribute names left by the registrations are exactly the registered names |
| `Variables.NameMapLastWins` | __init__.py:31-32 | each attribute is a registered variable of that name, and it is the last one registered under it |
| `Variables.NameMapSnoc` | __init__.py:31-32 | registering one more variable adds exactly one attribute assignment, for its name |
| `Variables.NameMapDistinct` | __init__.py:31-32 | with distinct names every variable is reachable under its own name |
| `Variables.ValueMapIsNameMapValue` | __init__.py:107-108 | `curr_var` has the registered names as keys, and each entry is the current value of the variable the attribute of that name refers to |
| `Variables.BoundsOf` | __init__.py:98-100 | one bound per name, in name order, each the bound of the attribute of that name |
| `Variables.RepeatedSymbolActive` | __init__.py:39-40 | one object registered twice is listed twice among the active variables when its flag is set, and not at all otherwise |
| `Variables.RepeatedSymbolInputs` | __init__.py:104-108 | one object registered twice contributes its name twice to the index order when active and not at all when passive, and `curr_var` holds its one current value |
| `Variables.RepeatedStateInputs` | __init__.py:104-108 | the same two facts stated on the fields read off the variable |
| `Masks.SelectMember` | __init__.py:40 | mask indexing keeps an element exactly when some position holding it has a true mask entry |
| `Masks.SelectAt` | __init__.py:40 | mask indexing reads the kept elements at the kept positions, in order |
| `Masks.PositionsExact` | __init__.py:40 | the kept positions increase strictly and are exactly the true entries of the mask |
| `Masks.SelectPartition` | __init__.py:39-44 | a mask and its negation split a list into two selections holding each element exactly once |
| `Masks.SelectAppend` | __init__.py:31-40 | mask indexing of an extended list extends the selection only at its end |
| `Terms.EvalJacobian` | __init__.py:94-96 | a derived Jacobian is the expression's gradient with respect to the names it was derived for; a supplied one is the user's Jacobian; both on the keyword bindings given |
| `Terms.Expression.constructor` | __init__.py:206-208 | the second positional argument is ignored and `comJac` keeps its default; the cache starts empty |
| `Terms.Expression.Call` | __init__.py:219-222 | the first call fills the cache with its keyword set and later calls never change it; a call succeeds, with the expression's value on its bindings, exactly when its keywords are the cached set |
| `Terms.MakeFunctionTerm` | __init__.py:174-179 | keeps the function and its Jacobian; an absent or empty display name falls back to the function's own name |
| `Terms.GetJac` | __init__.py:224-227 | an expression returns a Jacobian derived from its expression with respect to the given active names exactly when `comJac` is set; a function term returns the Jacobian it was given (lines 187-188) |
| `Terms.Evaluate` | __init__.py:190-191 | a function term forwards to its function; an expression term goes through its compilation cache and fails with `KeywordMismatch` exactly when the keywords differ from the cached set |
| `Terms.Constraint.FromExpression` | __init__.py:230-233 | keeps `conType` and `active`; its expression always has `comJac` set, whatever `comJac` was passed |
| `Terms.Constraint.FromFunction` | __init__.py:194-197 | keeps the comparison type, the flag, the function and its Jacobian |
| `Terms.Constraint.SetPassive` | __init__.py:199-200 | clears the constraint's flag |
| `Terms.Constraint.SetActive` | __init__.py:202-203 | sets the constraint's flag |
| `Terms.ActiveCons` | __init__.py:70-71 | holds exactly the constraints whose own flag is set |
| `Terms.PassiveCons` | __init__.py:73-74 | holds exactly the constraints whose own flag is clear |
| `Terms.ConPartition` | __init__.py:70-74 | active and passive constraints are disjoint and together hold every constraint exactly once |
| `Terms.ConsInOrder` | __init__.py:70-74 | both constraint lists keep the order of `con_fun` |
| `Terms.ConsAppend` | __init__.py:64-68 | appending a constraint extends the active or passive list at its end only |
| `Bridge.ObjSign` | __init__.py:114 | the sign is -1 exactly when `opt_type` is `"max"`, and +1 otherwise |
| `Bridge.SignedOrder` | __init__.py:82-88 | the signed objective orders points the reverse way for `"max"` and the same way otherwise |
| `Bridge.SignedOptimum` | __init__.py:114-115 | a minimiser of the signed objective maximises the objective for `"max"` and minimises it otherwise |
| `Bridge.StartPoint` | __init__.py:109 | one entry per active name, the `curr_var` entry of that name |
| `Updates.Overwrite` | __init__.py:90-92 | the write-back adds the written names to the keys and removes none |
| `Updates.LastIndex` | __init__.py:90-92 | the last position at which a written name is written: no later position writes it |
| `Updates.OverwriteSnoc` | __init__.py:90-92 | one more pair written is one more dictionary assignment |
| `Updates.OverwriteElsewhere` | __init__.py:90-92 | a name that is not written keeps its entry, or stays absent |
| `Updates.OverwriteAtLastIndex` | __init__.py:90-92 | a written name holds the value written at its last position |
| `Updates.OverwritePrefix` | __init__.py:90-92 | after the first n pairs are written, a name outside the whole name list keeps its entry (or stays absent), and a written name that no later written position repeats holds the value written with it |
| `Updates.OverwriteLast` | __init__.py:90-92 | a position that no later position overwrites leaves its value in the result |
| `Bridge.OverwriteStartPoint` | __init__.py:90-109 | writing back the starting vector leaves `curr_var` as it was |
| `Bridge.StartPointOfOverwrite` | __init__.py:90-92 | with distinct names, reading the vector back after the write-back gives the vector written |
| `Problem.ObjectiveOptimization.constructor` | __init__.py:14-18 | a new model has no variables, no objective and no constraints; its (empty) attributes are consistent with its (empty) registrations |
| `Problem.ObjectiveOptimization.AddOptimizationVariable` | __init__.py:21-32 | appends exactly one variable at the end of `opt_var`: the cached object of its display symbol, re-initialised, or a fresh one when the symbol is new; its value and default value are the given value; the attribute `name` now refers to it; the attributes stay the last-wins map of the registration names, and every variable can still be looked up under its current name; nothing else changes |
| `Problem.ObjectiveOptimization.Register` | __init__.py:31-32 | appends the variable and sets the attribute of its name, keeping the attributes the last-wins map of the registration names |
| `Problem.ObjectiveOptimization.AddOptimizationParameter` | __init__.py:36-37 | the same registration, passive unless told otherwise |
| `Problem.ConsistentNameMap` | __init__.py:31-32 | while every variable still carries its registration name, the attributes are the last-wins map of the variables by current name |
| `Problem.ObjectiveOptimization.AddExpressionObjectiveFunction` | __init__.py:57-58 | replaces the objective by a fresh expression that derives its Jacobian whatever `comJac` says; variables and constraints are untouched |
| `Problem.ObjectiveOptimization.AddObjectiveFunction` | __init__.py:60-61 | replaces the objective by the function term; the variables, the attributes and the registrations are unchanged |
| `Problem.ObjectiveOptimization.AddExpressionConstraintFunction` | __init__.py:64-65 | appends one fresh expression constraint, keeping its type and flag, and replaces nothing |
| `Problem.ObjectiveOptimization.AddConstraintFunction` | __init__.py:67-68 | appends one fresh active `">"` constraint without a Jacobian, whatever `jac` and `symName` say |
| `Problem.ObjectiveOptimization.SetIndex2Var` | __init__.py:77-80 | the index order is the names of the active variables in registration order |
| `Problem.ObjectiveOptimization.SetCurrVal` | __init__.py:90-92 | rewrites only the names of the index order, up to the shorter of the two lengths, each to the vector's entry; every other entry, passive variables included, is unchanged |
| `Problem.WriteEntries` | __init__.py:90-92 | the loop of `_set_curr_val` on a dictionary: the result is the given dictionary with the pairs of `zip(names, x)` assigned in order, stopping at the shorter list |
| `Problem.ObjectiveOptimization.ObjFunEval` | __init__.py:82-88 | after the write-back, the result is the sign times the objective evaluated on all of `curr_var`; it fails without an objective and on a stale compilation cache |
| `Problem.ObjectiveOptimization.ObjJacFun` | __init__.py:94-96 | after the write-back, the result is the Jacobian evaluated on all of `curr_var`, or a failure when there is none |
| `Problem.ObjectiveOptimization.GetBounds` | __init__.py:98-100 | succeeds exactly when every index name is an attribute, with one bound per index name, in order, each the bound of that attribute; fails with `AttributeMissing` otherwise |
| `Problem.LookupBounds` | __init__.py:98-100 | the lookup `GetBounds` delegates to, for any attribute map and name list: it succeeds exactly when every name is an attribute, then with one bound per name, in order, each the bound of that attribute, and it fails with `AttributeMissing` otherwise |
| `Problem.ObjectiveOptimization.Optimize` | __init__.py:104-115 | sets the index order to the active names and `curr_var` to every variable's value; without an objective it fails after that; otherwise it sets the Jacobian; when `_get_bounds` fails it fails there, and otherwise it sets the sign and requests the starting vector, the bounds in index order, and the Jacobian flag; the variables, the attributes and the registrations are unchanged |
| `Problem.ResolvedActiveNames` | __init__.py:98-100 | when every variable can be looked up under its current name, so can every index name, so `_get_bounds` succeeds |
| `Problem.ActiveNamesResolve` | __init__.py:107-109 | one index name per active variable, each a key of `curr_var` and an attribute |
| `Problem.ActiveNamesValues` | __init__.py:107-109 | the `curr_var` entry of each index name is the value of the variable its attribute refers to |
| `Problem.ActiveNamesDistinct` | __init__.py:98-100 | with distinct names the attribute of the i-th index name is the i-th active variable |
| `Problem.SolverInputsAligned` | __init__.py:98-112 | `x0` and the bounds have one entry per active variable, and position i of both reads the same variable; with distinct names that is the i-th active variable |
| `Problem.OptimizedInputsAligned` | __init__.py:98-112 | after `optimize` has set the index order and `curr_var`, on a problem whose variables still carry their registration names, `_get_bounds` succeeds, and `x0` and the bounds have one entry per active variable, position i of both reading the attribute of the i-th index name; with distinct names that is the i-th active variable |
| `Problem.ShadowedNameInputs` | __init__.py:98-109 | with an active and then a passive variable of one name (two distinct display symbols), the solver gets one active name but the passive variable's value and bound |
| `Problem.ShadowedStateInputs` | __init__.py:104-108 | the same index order and `curr_var`, stated on the fields read off the two variables; it follows from `OneActiveStates`, with the passive value overwriting the active one |
| `Problem.OneActiveStates` | __init__.py:104-108 | an active variable followed by a passive one of another name: the index order is the active name alone, and `curr_var` holds both values |

## Left out

- The call of the external minimiser (`opt.minimize`) and `scipy_res`: the minimiser works on floating point and its code is not part of this model. `Optimize` returns the request it would receive instead: the starting vector, the bounds and whether the Jacobian wrapper is passed.
- Constraints are never passed to the minimiser (`cons = None`), so nothing enforces them.
- Symbolic work: compiling an expression, differentiating it, substituting passive values for display (`get_opt_prob`, `cal_jac`), and the placeholder `sym.Function` of a function term. These are calls into the symbolic engine. An expression is opaque, seen only through its value and its gradient.
- The derived Jacobian is compiled with the display symbols of all registered variables as parameters, but it is called with `name_in` keywords. The model evaluates it through the opaque gradient on the active names, so a mismatch between a display symbol and its `name_in` is not modelled.
- A compiled expression whose free symbols are not among its keywords fails in the program. Expression evaluation is opaque here, so this failure is not modelled.
- The sympy `Symbol` parent of a variable beyond its display symbol and the symbol cache. The cache is a table from display name to variable, passed to the registrations as a parameter because it is global to the process; sympy's bound on the cache size (its least-recently-used eviction) and switching the cache off are not modelled. The model agrees with the program only when every registration in the process goes through one cache. Two `SymbolCache` objects can give one problem two distinct variables with the same display symbol, which the program never does.
- Symbol assumptions passed as keyword arguments to `optimization_variable` (`**kwargs`, which also key sympy's cache) are not modelled: the problem's methods never pass any.
- Presentation: `_repr_html_`, `get_active_var_names`, `get_active_var_bound_latex`, `__str__` and `init_notebook`.
- Attribute injection is modelled as a name-to-variable map (`attrs`) in which the later registration wins. A name that collides with one of the model's own attributes or methods is not modelled.
- Before the first `optimize`, `_index2var`, `curr_var`, `jac` and `obj_sign` do not exist in the program. The model starts them as empty, empty, none and +1.
- `opt_type` is a plain attribute in the program; the model makes it a constant fixed at construction.
- The `verbose` argument of `optimize` is unused in the program and in the model.
- The variable list passed to `function`/`function_constraint` only builds the display placeholder. The function constraint does not keep it.
- `add_opt_var` is an alias of `add_optimization_variable`, so `AddOptimizationVariable` covers it.
- Problem.ObjectiveOptimization.Optimize: its postconditions state the index order and `curr_var` as read off the variables when the call starts (`old(...)`), and the bounds through `GetBounds` on the final state. The call changes only the model object, not its variables. The alignment of `x0` and the bounds is proved once, for every variable list, in `SolverInputsAligned`, and for the state the call leaves in `OptimizedInputsAligned`. The fields are set together at the end of the call, each to the value the program has given it when it returns or fails; the order of the assignments within the call is not modelled.
- Problem.ObjectiveOptimization.AddOptimizationVariable: the effect on the active and passive lists is not repeated in its postcondition. When the appended object was not already in `opt_var`, `ActiveVarsAppend` gives that effect: each list is the old one, followed by the new variable on the side of its flag. When the cache returns an object already in `opt_var`, re-initialising it changes its earlier entries too, and the old lists are not kept; `RepeatedSymbolActive` and `RepeatedSymbolInputs` state that case. The constraint counterpart is in `ConsAppend`. When the cached object is re-initialised, the postcondition names its new fields and the invariants it keeps, but not the changed value of every other place that holds the object; `RepeatedSymbolInputs` and the scenarios state those.
- Problem.ObjectiveOptimization.AddOptimizationVariable: the attributes are related to the names the variables were registered under (`regNames`), not to their current names. A display symbol re-registered under another name, here or through another problem, renames the object everywhere; the earlier attribute then refers to a variable of another name, and `ConsistentNameMap` no longer applies.
- Variables.IndexOrder: its own postcondition gives only the length bound and where the names come from; the exact contents are proved through `ActiveNames` in `ActiveNamesOfActiveVars` and `ActiveNamesExact`, so that every caller does not carry them.
- Variables.ActiveNames: its own postcondition is as light as `IndexOrder`'s, for the same reason; the same two lemmas state its contents.
- Variables.CurrentValues: its own postcondition gives the keys only; the entries are in `ValueMapIsNameMapValue`, through `ValueMap`.
- Variables.ValueMap: its own postcondition gives the keys only; the entries are in `ValueMapIsNameMapValue`.
- Problem.ShadowedNameInputs: requires two distinct display symbols, because one display symbol is always one object in the program.
