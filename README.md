# has_scope: the scope-resolution engine, in Dafny

This project models `lib/has_scope.rb` of has_scope, the small Rails
controller mixin that turns request parameters into calls of named scopes
on a target (typically an ActiveRecord class). It covers the version of
the library in that file:

- `has_scope` declares scopes into a per-class, insertion-ordered store.
  It validates the option keys, rewrites the deprecated `:boolean => true`,
  wraps `:only`/`:except` into arrays, seeds `{as: scope, type: :default}`
  for a new scope and merges the options into its record.
- `apply_scope_to_action?` and `applicable?` decide whether a scope may run
  in the current action.
- `apply_scopes` folds over the store in declaration order, threading the
  target through the scopes. A parameter present under the scope's `:as`
  key wins over `:default`, and a `Proc` default is called with the
  controller.
- `apply_scope_by_type` applies one scope. A boolean scope records whether
  the value is in `TRUE_VALUES` and calls the scope with no argument only
  when it is. Any other scope raises when its value is of none of the
  classes `ALLOWED_TYPES` lists for its type; otherwise it records the
  value in `current_scopes` under the `:as` key and calls the scope with it.

Files and modules:

- `values.dfy`, module `Values`: Ruby values (`Value`), truthiness, Ruby `==` for the values the engine compares, `Kernel#Array`, and the way the parameter hash finds a key.
- `failures.dfy`, module `Failures`: the exceptions the engine raises, as values.
- `request.dfy`, module `Request`: the controller instance as the engine sees it: the action, the parameters, and what each callable returns.
- `declaration.dfy`, module `Declaration`: `has_scope`. The class `ScopeDeclarations` is the store, updated in place. It is proved against the functions `NormalizeOptions`, `Merge` and `DeclareAll`.
- `eligibility.dfy`, module `Eligibility`: `applicable?` and `apply_scope_to_action?`.
- `application.dfy`, module `Application`: `TRUE_VALUES`, `ALLOWED_TYPES`, `apply_scope_by_type` and `apply_scopes`. The class `Controller` owns `current_scopes` and has the two methods, proved against the functions `Typed` and `Run`.
- `properties.dfy`, module `Properties`: properties of a whole run of `apply_scopes`.
- `scenarios.dfy`, module `Scenarios`: the declarations of the library's functional tests as this version stores them, and requests from those tests, stated as lemmas. The full test controller fails while it is declared: its `root_type` declaration passes `:allow_blank`, which this version refuses (`Scenarios.AllowBlankRejected`), so no request reaches it. Each request here therefore runs a store holding only the scopes it names. A controller holding only the test declarations this version accepts would raise on every request without a `planted_before` parameter: that scope's `Proc` default returns a `Date`, which is neither a String nor Numeric (`Scenarios.DateDefaultRaises`). The module ends with a client that declares a scope and applies it through the two classes.

How the model represents Ruby:

- The target is the trace of calls made on it. Each `Call` holds the scope name and its arguments.
- An `:if`/`:unless` callable is a Symbol, Proc or String. So is a Proc default. Its result is looked up in the context's `outcomes` map. A callable missing from the map is one that raised.
- Options that are not callables pass `applicable?` whatever they are. This includes a literal `:if => false`.
- Actions are compared as symbols. A string in `:only` or `:except` therefore never matches.
- `TRUE_VALUES.include?` uses Ruby's `==`. So `1.0` is a true value as well as `"true"`, `true`, `"1"` and `1` (`IsTrueValue`).
- An unknown `:type` makes `ALLOWED_TYPES[type]` nil, and the call on nil raises. The model gives it as `UnknownType`.

Where the library's tests disagree with this code, the model follows the
code. The tests exercise a later version of the library:

- A boolean scope given `'false'` records `false` in `current_scopes`. The test at test/has_scope_test.rb:77-83 expects nothing to be recorded (`Scenarios.BooleanFalseIsRecorded`).
- A string given to a `:hash` scope raises. The test at test/has_scope_test.rb:238-243 expects a silent skip (`Scenarios.WrongTypeRaises`).
- A blank parameter is passed to the scope. The test at test/has_scope_test.rb:151-157 expects the scope to be skipped (`Scenarios.BlankParameterIsPassed`).
- `:allow_blank`, `:using` and `:in` are refused by `has_scope`, because they are not valid option keys in this version (`Scenarios.AllowBlankRejected`).

## Model

| member | source | states |
|---|---|---|
| Values.ToArray | lib/has_scope.rb:56-57 | `Array(x)`: nil gives the empty list, an array itself, a hash the list of its `[key, value]` pairs in order, any other value the one-element list |
| Values.RubyEquals | lib/has_scope.rb:100 | equal values are `==`; two different values are `==` only when both are numbers (an Integer and a Float denoting the same number) |
| Values.ParamName | lib/has_scope.rb:84 | a Symbol key and a String key of the same name find the same parameter; any other `:as` value finds none |
| Declaration.WithoutBoolean | lib/has_scope.rb:50-51 | `:boolean` is removed and every other option kept. A truthy `:boolean` sets `:type` to `:boolean` unless a truthy `:type` was given, and otherwise `:type` is left as given |
| Declaration.NormalizeOptions | lib/has_scope.rb:47-57 | fails exactly when a key other than `:boolean` is outside the seven valid keys. A truthy `:boolean` yields a truthy type, which is `:boolean` unless a truthy `:type` was given. `:only`/`:except` are always arrays (empty when not given), and every other option passes through |
| Declaration.MergeIdempotent | lib/has_scope.rb:59-62 | merging the same options twice equals merging them once, so a name repeated in one call is harmless |
| Declaration.LaterDeclarationWins | lib/has_scope.rb:59-62 | across two declarations, an option the later one gives wins and an option only the earlier one gives survives. `:only`/`:except` always come from the later one |
| Declaration.FirstDeclarationDefaults | lib/has_scope.rb:60 | without `:as`/`:type`, a new scope reads the parameter named after it and has type `:default` |
| Declaration.Merge | lib/has_scope.rb:61 | `merge!` always replaces `:only`/`:except`, and every other option the call gives replaces the stored one |
| Declaration.Declare | lib/has_scope.rb:59-62 | one iteration appends the name to the order only when it is new, adds exactly that name to the keys, and stores its previous record (or the seed) merged with the options |
| Declaration.DeclareAll | lib/has_scope.rb:59-62 | a whole `has_scope` call keeps the old order as a prefix of the new one |
| Declaration.Listing | lib/has_scope.rb:80 | on a well-formed store, iteration lists every declared scope exactly once, with its record, in the order the names were first declared |
| Declaration.DeclareSpec | lib/has_scope.rb:59-62 | one loop iteration keeps the store well formed and keeps existing positions. Only a new name is appended; its record is the previous record (or the seed) merged with the options, and every other record is untouched |
| Declaration.DeclareAllKeepsOrder | lib/has_scope.rb:59-62 | a whole `has_scope` call keeps the store well formed (names distinct, one record per name). The old order is a prefix of the new one, so a re-declared scope keeps its position and only new names are appended |
| Declaration.DeclareAllRecords | lib/has_scope.rb:59-62 | after a whole `has_scope` call, the keys are the old keys plus the names. Every named record is its previous record (or the seed) merged with the options, even for a name given twice, and every other record is unchanged |
| Declaration.ScopeDeclarations.constructor | lib/has_scope.rb:16 | a class starts with an empty store |
| Declaration.ScopeDeclarations.Entries | lib/has_scope.rb:80 | iteration yields one entry per declared scope |
| Declaration.ScopeDeclarations.HasScope | lib/has_scope.rb:46-63 | on invalid options, returns the failure and leaves the store unchanged. Otherwise the new store is `DeclareAll` of the old one, and it stays well formed |
| Eligibility.Applicable | lib/has_scope.rb:124-135 | `applicable?` passes exactly when the option is absent or not a callable, or the callable returns exactly `expected`. It raises exactly when an evaluated callable raises, with that callable |
| Eligibility.ActionAllowed | lib/has_scope.rb:115-119 | with no `:only` and no `:except` every action is allowed; with `:only` empty the action must be outside `:except`; with `:only` non-empty it must be in `:only` |
| Eligibility.Eligible | lib/has_scope.rb:112-120 | when no guard raises, a scope is eligible exactly when both guards pass and the action gate allows the action; any error is a raised callable |
| Eligibility.EligibleExactly | lib/has_scope.rb:112-135 | eligible exactly when the `:if` guard passes with `true` and the `:unless` guard with `false` (absent or non-callable passes), and then the action is in a non-empty `:only`, or with `:only` empty not in `:except` |
| Eligibility.EligibleErrors | lib/has_scope.rb:113-131 | eligibility raises exactly when an evaluated guard raises, and then with that guard. `:unless` is not evaluated after `:if` failed |
| Eligibility.NonBooleanOutcomeFailsBothGates | lib/has_scope.rb:124-135 | a callable returning nil (or anything other than `true`/`false`) fails both `:if` and `:unless` |
| Eligibility.OnlyOverridesExcept | lib/has_scope.rb:115-119 | with a non-empty `:only`, `:except` does not affect eligibility |
| Eligibility.OutsideOnlyNeverEligible | lib/has_scope.rb:115-119 | outside a non-empty `:only` a scope is never eligible |
| Application.Includes | lib/has_scope.rb:100 | `include?` holds exactly when some element is `==` to the value |
| Application.IsTrueValue | lib/has_scope.rb:2 | the true values are exactly `"true"`, `true`, `"1"`, `1` and (by Ruby's numeric `==`) `1.0` |
| Application.Typed | lib/has_scope.rb:98-108 | a boolean scope never fails: it records whether the value is true and is called with no argument exactly then. Any other type fails exactly when the type is unknown or the value is of none of its allowed classes; otherwise it records the value itself and is called with exactly that value. Entries are always keyed by the given key |
| Application.Resolve | lib/has_scope.rb:84-89 | there is no value exactly when the parameter is absent and there is no default; the lookup raises exactly when the parameter is absent and the default is a Proc that raises, with that Proc |
| Application.Step | lib/has_scope.rb:80-92 | a scope is skipped exactly when it is ineligible, or eligible with no value. It raises exactly when eligibility raises, the value raises, or `apply_scope_by_type` raises on the value |
| Application.Run | lib/has_scope.rb:79-95 | a run only appends calls to the target it starts from, and never removes an audit key |
| Application.Controller.CurrentScopes | lib/has_scope.rb:138-140 | `current_scopes` returns the controller's audit `@current_scopes` itself |
| Application.Controller.constructor | lib/has_scope.rb:138-140 | `current_scopes` starts empty |
| Application.Controller.ApplyScopeByType | lib/has_scope.rb:98-108 | returns the error and leaves `current_scopes` unchanged, or returns the target after the call and adds the entry under the `:as` key |
| Application.Controller.ApplyScopes | lib/has_scope.rb:79-95 | the final target and `current_scopes` are those of `Run` over the store in declaration order. On an error, the audit keeps what was recorded before it |
| Properties.SkippedScopeChangesNothing | lib/has_scope.rb:80-92 | an ineligible scope, or one with neither parameter nor default, leaves target and audit unchanged |
| Properties.PresentParameterWins | lib/has_scope.rb:84-85 | a present parameter, even an empty string, is the value and the default is ignored |
| Properties.AbsentParameterUsesDefault | lib/has_scope.rb:86-89 | without the parameter: no default means the scope is not applied. A literal default is used as is, and a Proc default gives its call's result or its error |
| Properties.StepEffect | lib/has_scope.rb:79-108 | a fired scope was eligible and had a value. It records under its `:as` key; a boolean records truth and is called with no argument when true, anything else records the value and is called with exactly it |
| Properties.RunAppend | lib/has_scope.rb:79-95 | `apply_scopes` is a left fold in declaration order. Running `s1 + s2` is running `s1`, then (unless it raised) `s2` from the target and audit `s1` left |
| Properties.RunFrom | lib/has_scope.rb:79-95 | a run appends the same calls to any starting target, and writes the same entries over any starting audit |
| Properties.ApplyTwice | lib/has_scope.rb:79-108 | calling `apply_scopes` again on the same controller repeats the same calls and leaves `current_scopes` as the first call left it |
| Properties.RunOnlyTouchesDeclaredScopes | lib/has_scope.rb:79-108 | a run only appends to the target. Every call names a declared scope and has at most one argument, and every new audit key is some scope's `:as` key |
| Properties.IneligibleNeverCalled | lib/has_scope.rb:79-81 | a scope that is not eligible is never called, whatever the parameters hold |
| Properties.OnlyRestrictsActions | lib/has_scope.rb:112-120 | a scope whose non-empty `:only` leaves out the current action is never called |
| Scenarios.DeclaredPlain | lib/has_scope.rb:54-61 | a first declaration with valid keys and no `:boolean` stores the seed overwritten by each given option, with `:only`/`:except` passed through `Array()` |
| Scenarios.ColorDeclared | test/has_scope_test.rb:8 | `:unless => :show_all_colors?` is stored with `as: :color`, `type: :default` and empty `:only`/`:except` |
| Scenarios.OnlyTallDeclared | test/has_scope_test.rb:9 | `:only => :index` is stored as `[:index]`, together with the boolean type and the `:if` guard |
| Scenarios.ShadownRangeDeclared | test/has_scope_test.rb:10 | the default 10 and the three excepted actions are stored |
| Scenarios.RootTypeDeclared | test/has_scope_test.rb:11 | `:as => :root` replaces the seeded key (this version refuses the test's `:allow_blank`) |
| Scenarios.PlantedBeforeDeclared | test/has_scope_test.rb:12 | a Proc default is stored as given |
| Scenarios.CalculateHeightDeclared | test/has_scope_test.rb:14 | a Proc default with `:only => :new` is stored |
| Scenarios.PaginateDeclared | test/has_scope_test.rb:15 | `:type => :hash` replaces the seeded type |
| Scenarios.CategoriesDeclared | test/has_scope_test.rb:17 | `:type => :array` replaces the seeded type |
| Scenarios.ColorStore | lib/has_scope.rb:59-62 | declaring `:color` in an empty class gives a one-entry store, and iteration lists that entry |
| Scenarios.AllowBlankRejected | lib/has_scope.rb:54 | `:allow_blank` is refused as an invalid key |
| Scenarios.BooleanShorthand | lib/has_scope.rb:50-51 | `:boolean => true` declares a boolean scope, and `:only => :index` becomes `[:index]` |
| Scenarios.BooleanTrue | test/has_scope_test.rb:69-75 | `'true'` calls `only_tall` with no argument and records `true` |
| Scenarios.BooleanFalseIsRecorded | lib/has_scope.rb:99-101 | `'false'` does not call the scope but records `false` |
| Scenarios.BlankParameterIsPassed | lib/has_scope.rb:84-85 | an empty string is passed to the scope and recorded |
| Scenarios.BooleanGated | test/has_scope_test.rb:109-124 | in `show` (outside `:only`), or with `:if` returning false, nothing happens |
| Scenarios.UnlessGate | test/has_scope_test.rb:126-133 | with `:unless` returning true, `color` is not called and nothing is recorded |
| Scenarios.ColorWithArgument | test/has_scope_test.rb:143-149 | with `:unless` returning false, `color` is called with the given string (`'blue'` in the test) and that string is recorded |
| Scenarios.MultipleScopes | test/has_scope_test.rb:167-174 | two scopes fire in declaration order and both are recorded |
| Scenarios.ExceptSkipsIndex | test/has_scope_test.rb:135-141 | in `index`, which `:except` lists, `shadown_range` is not called and nothing is recorded, even with its parameter given |
| Scenarios.DefaultValue | test/has_scope_test.rb:245-259 | in `edit`, `shadown_range` is called with and records the default 10 when its parameter is absent, and the given `'20'` when present |
| Scenarios.DateDefaultRaises | lib/has_scope.rb:86-103 | in a store of `only_tall` then `planted_before`, a request without `planted_before` applies and records `only_tall`, then raises a type mismatch because the `Proc` default returns a Date |
| Scenarios.WrongTypeRaises | lib/has_scope.rb:102-103 | a string for a `:hash` scope raises a type mismatch |
| Scenarios.DifferentKey | test/has_scope_test.rb:261-267 | `:as => :root` reads and records under `root` but calls `root_type` |
| Scenarios.ProcDefault | test/has_scope_test.rb:269-276 | a Proc default is called and its result is used |
| Scenarios.ProcDefaultOnlyNew | test/has_scope_test.rb:278-285 | the same under `:only => :new` in the `new` action |
| Scenarios.ArrayScope | test/has_scope_test.rb:221-228 | an `:array` scope is called with the array itself |

## Left out

- Rails plumbing is not modelled: the `included` hook, `class_eval`, `helper_method`, `class_inheritable_accessor` and `ApplicationController.send :include` (lib/has_scope.rb:10-18, 143). So the copy of the store a subclass inherits is not modelled; one class's store is.
- The `eval` of a String guard, the `send` of a Symbol guard and the call of a Proc are not executed. Their results come from the context's `outcomes` map, with one result per callable in a request, so a callable giving different results on two calls within one request is not modelled.
- The deprecation warning (lib/has_scope.rb:52) and the text of the raised messages are left out. The errors are the `Failure` values.
- Dynamic dispatch (`target.send`) and class reflection are not modelled. The target is a trace of calls, and `is_a?` is a check on the kind of `Value`.
- Only Integer and Float are modelled as `Numeric`. Other Numeric classes (Rational, BigDecimal) and Float NaN are not. Ruby `==` between an Integer and a Float is modelled only for the scalar comparisons the engine makes.
- `ALLOWED_TYPES` is modelled as the constant in the file. Adding entries to it at run time is not modelled.
- Scope names are modelled as the names of the symbols passed to `has_scope`. Strings passed as scope names are not distinguished from symbols.
- `symbolize_keys!` is taken as already done: option keys are their names.
- Declaration.Merge: its own contract states only that given options replace stored ones; that options not given are kept is stated by `Declaration.LaterDeclarationWins`, to keep the store proofs within the solver's limits.
- Declaration.DeclareAll: its own contract states only the order prefix; the keys and records after the call are stated by `Declaration.DeclareAllRecords`, for the same reason.
- `apply_scopes(target, params)` with explicit params (test/has_scope_test.rb:338-354) is not modelled, because this version reads the controller's `params` only.
- `lib/has_scope/railtie.rb` (deprecator registration) and `test/test_helper.rb` (routes and test setup) are not part of this model.
- Features of later versions that the tests exercise are not part of this model, because this code does not have them: `:allow_blank`, `:using`, `:in`, override blocks, blank stripping, custom types and silent skip of mistyped values.
