/** apply_scopes and apply_scope_by_type: folding the declared scopes over a
    target and recording the audit of current_scopes
    (lib/has_scope.rb:1-8, 79-108, 138-140). */
module Application {
  import opened Values
  import opened Failures
  import opened Request
  import opened Declaration
  import opened Eligibility

  /** TRUE_VALUES. */
  const TrueValues: seq<Value> := [Str("true"), Bool(true), Str("1"), Int(1)]

  /** The classes ALLOWED_TYPES names, and Object#is_a? for them. */
  datatype RubyClass = ArrayClass | HashClass | StringClass | NumericClass

  predicate IsA(v: Value, c: RubyClass) {
    match c
    case ArrayClass => v.Arr?
    case HashClass => v.Hash?
    case StringClass => v.Str?
    case NumericClass => v.Int? || v.Float?
  }

  /** ALLOWED_TYPES. */
  const AllowedTypes: map<Value, seq<RubyClass>> := map[
    Sym("array") := [ArrayClass],
    Sym("hash") := [HashClass],
    Sym("default") := [StringClass, NumericClass]]

  /** A call made on the target: the scope's name and its arguments. */
  datatype Call = Call(scope: string, args: seq<Value>)

  /** The target, as the calls applied to it so far. */
  type Trace = seq<Call>

  /** Array#include? with Ruby's `==`. */
  function Includes(xs: seq<Value>, v: Value): (r: bool)
    ensures r <==> exists i :: 0 <= i < |xs| && RubyEquals(xs[i], v)
  {
    if xs == [] then false
    else if RubyEquals(xs[0], v) then true
    else
      var r := Includes(xs[1..], v);
      assert forall i :: 1 <= i < |xs| ==> xs[i] == xs[1..][i - 1];
      r
  }

  /** TRUE_VALUES.include?(v). */
  function IsTrueValue(v: Value): (r: bool)
    ensures r <==> v in {Str("true"), Bool(true), Str("1"), Int(1), Float(1.0)}
  {
    var r := Includes(TrueValues, v);
    assert RubyEquals(TrueValues[0], v) <==> v == Str("true");
    assert RubyEquals(TrueValues[1], v) <==> v == Bool(true);
    assert RubyEquals(TrueValues[2], v) <==> v == Str("1");
    assert RubyEquals(TrueValues[3], v) <==> v == Int(1) || v == Float(1.0);
    r
  }

  /** What applying one scope does: the audit entry it records, and the
      arguments it calls the scope with (None: the target is returned
      unchanged). */
  datatype Effect = Effect(key: Value, recorded: Value, args: Option<seq<Value>>)

  /** apply_scope_by_type, as the effect it has or the error it raises. */
  function Typed(kind: Value, key: Value, value: Value): (r: Result<Effect>)
    ensures r.Ok? ==> r.value.key == key
    ensures kind == Sym("boolean") ==>
      && r.Ok?
      && r.value.recorded == Bool(IsTrueValue(value))
      && r.value.args == (if IsTrueValue(value) then Some([]) else None)
    ensures kind != Sym("boolean") ==>
      (r.Err? <==> kind !in AllowedTypes || forall c :: c in AllowedTypes[kind] ==> !IsA(value, c))
    ensures kind != Sym("boolean") && r.Ok? ==> r.value.recorded == value && r.value.args == Some([value])
    ensures kind != Sym("boolean") && kind !in AllowedTypes ==> r == Err(UnknownType(kind))
  {
    if kind == Sym("boolean") then
      var isTrue := IsTrueValue(value);
      Ok(Effect(key, Bool(isTrue), if isTrue then Some([]) else None))
    else if kind !in AllowedTypes then Err(UnknownType(kind))
    else if forall c :: c in AllowedTypes[kind] ==> !IsA(value, c) then Err(TypeMismatch(kind, key, value))
    else Ok(Effect(key, value, Some([value])))
  }

  /** The value apply_scopes hands on for a scope: the parameter under the
      scope's :as key when present, else its :default (a Proc called with
      the controller), else none. */
  function Resolve(cfg: Config, ctx: Context): (r: Result<Option<Value>>)
    ensures var present := ParamName(cfg.key).Some? && ParamName(cfg.key).value in ctx.params;
      && (r == Ok(None) <==> !present && cfg.defaultValue.None?)
      && (r.Err? <==> !present && cfg.defaultValue.Some? && cfg.defaultValue.value.Proc?
                      && cfg.defaultValue.value !in ctx.outcomes)
      && (r.Err? ==> r.failure == Raised(cfg.defaultValue.value))
  {
    var name := ParamName(cfg.key);
    if name.Some? && name.value in ctx.params then Ok(Some(ctx.params[name.value]))
    else if cfg.defaultValue.Some? then
      var d := cfg.defaultValue.value;
      if d.Proc? then
        var v := Invoke(d, ctx);
        if v.Err? then Err(v.failure) else Ok(Some(v.value))
      else Ok(Some(d))
    else Ok(None)
  }

  /** One iteration of apply_scopes: the effect of the scope, none when it
      is skipped, or the error it raises. */
  function Step(scope: string, cfg: Config, ctx: Context): (r: Result<Option<Effect>>)
    ensures r == Ok(None) <==>
      || Eligible(cfg, ctx) == Ok(false)
      || (Eligible(cfg, ctx) == Ok(true) && Resolve(cfg, ctx) == Ok(None))
    ensures r.Err? <==>
      || Eligible(cfg, ctx).Err?
      || (Eligible(cfg, ctx) == Ok(true) && Resolve(cfg, ctx).Err?)
      || (&& Eligible(cfg, ctx) == Ok(true) && Resolve(cfg, ctx).Ok? && Resolve(cfg, ctx).value.Some?
          && Typed(cfg.kind, cfg.key, Resolve(cfg, ctx).value.value).Err?)
  {
    var eligible := Eligible(cfg, ctx);
    if eligible.Err? then Err(eligible.failure)
    else if !eligible.value then Ok(None)
    else
      var value := Resolve(cfg, ctx);
      if value.Err? then Err(value.failure)
      else if value.value.None? then Ok(None)
      else
        var e := Typed(cfg.kind, cfg.key, value.value.value);
        if e.Err? then Err(e.failure) else Ok(Some(e.value))
  }

  /** The target after an effect: `target.send(scope, *args)`. */
  function Perform(target: Trace, scope: string, e: Effect): Trace {
    if e.args.Some? then target + [Call(scope, e.args.value)] else target
  }

  /** The state apply_scopes leaves: the target reached, the audit, and the
      error that stopped it, if any. */
  datatype State = State(target: Trace, current: map<Value, Value>, failure: Option<Failure>)

  /** apply_scopes over the entries of a store, in order. */
  function Run(store: seq<(string, Config)>, ctx: Context, target: Trace, current: map<Value, Value>): (r: State)
    ensures |target| <= |r.target| && r.target[..|target|] == target
    ensures current.Keys <= r.current.Keys
    decreases |store|
  {
    if store == [] then State(target, current, None)
    else
      var step := Step(store[0].0, store[0].1, ctx);
      if step.Err? then State(target, current, Some(step.failure))
      else if step.value.None? then Run(store[1..], ctx, target, current)
      else
        var e := step.value.value;
        Run(store[1..], ctx, Perform(target, store[0].0, e), current[e.key := e.recorded])
  }

  /** One controller instance handling one request. */
  class Controller {
    const decls: ScopeDeclarations
    const action: string
    const params: map<string, Value>
    const outcomes: map<Value, Value>
    /** @current_scopes */
    var current: map<Value, Value>

    function Ctx(): Context {
      Context(action, params, outcomes)
    }

    constructor (decls: ScopeDeclarations, action: string, params: map<string, Value>, outcomes: map<Value, Value>)
      ensures this.decls == decls && this.action == action
      ensures this.params == params && this.outcomes == outcomes
      ensures current == map[]
    {
      this.decls := decls;
      this.action := action;
      this.params := params;
      this.outcomes := outcomes;
      current := map[];
    }

    /** current_scopes. */
    function CurrentScopes(): (r: map<Value, Value>)
      reads this
      ensures r == current
    {
      current
    }

    /** apply_scope_by_type(kind, key, scope, value, target). */
    method ApplyScopeByType(kind: Value, key: Value, scope: string, value: Value, target: Trace)
      returns (r: Result<Trace>)
      modifies this
      ensures Typed(kind, key, value).Err? ==>
        r == Err(Typed(kind, key, value).failure) && current == old(current)
      ensures Typed(kind, key, value).Ok? ==>
        var e := Typed(kind, key, value).value;
        r == Ok(Perform(target, scope, e)) && current == old(current)[key := e.recorded]
    {
      if kind == Sym("boolean") {
        var isTrue := IsTrueValue(value);
        current := current[key := Bool(isTrue)];
        r := Ok(if isTrue then target + [Call(scope, [])] else target);
      } else if kind !in AllowedTypes {
        r := Err(UnknownType(kind));
      } else if forall c :: c in AllowedTypes[kind] ==> !IsA(value, c) {
        r := Err(TypeMismatch(kind, key, value));
      } else {
        current := current[key := value];
        r := Ok(target + [Call(scope, [value])]);
      }
    }

    /** apply_scopes(target): the final target, or the error raised; the
        audit keeps what was recorded before an error. */
    method ApplyScopes(target: Trace) returns (r: Result<Trace>)
      requires decls.Valid()
      modifies this
      ensures var run := Run(decls.Entries(), Ctx(), target, old(current));
        && current == run.current
        && r == (if run.failure.Some? then Err(run.failure.value) else Ok(run.target))
    {
      var store := decls.Entries();
      var ctx := Ctx();
      var t := target;
      var i := 0;
      while i < |store|
        invariant 0 <= i <= |store|
        invariant Run(store[i..], ctx, t, current) == Run(store, ctx, target, old(current))
      {
        assert store[i..][1..] == store[i + 1..];
        var scope := store[i].0;
        var cfg := store[i].1;
        var eligible := Eligible(cfg, ctx);
        if eligible.Err? {
          return Err(eligible.failure);
        }
        if eligible.value {
          var key := cfg.key;
          var value := Nil;
          var callScope := false;
          var name := ParamName(key);
          if name.Some? && name.value in params {
            value, callScope := params[name.value], true;
          } else if cfg.defaultValue.Some? {
            value, callScope := cfg.defaultValue.value, true;
            if value.Proc? {
              var called := Invoke(value, ctx);
              if called.Err? {
                return Err(called.failure);
              }
              value := called.value;
            }
          }
          if callScope {
            var next := ApplyScopeByType(cfg.kind, key, scope, value, t);
            if next.Err? {
              return Err(next.failure);
            }
            t := next.value;
          }
        }
        i := i + 1;
      }
      return Ok(t);
    }
  }
}
