/** Properties of apply_scopes over a whole store of scopes. */
module Properties {
  import opened Values
  import opened Failures
  import opened Request
  import opened Declaration
  import opened Eligibility
  import opened Application

  /** A scope that is ineligible, or has neither its parameter nor a
      default, leaves the target and the audit as they were. */
  lemma {:induction false} SkippedScopeChangesNothing(
    scope: string, cfg: Config, rest: seq<(string, Config)>, ctx: Context, target: Trace, current: map<Value, Value>)
    requires || Eligible(cfg, ctx) == Ok(false)
             || (Eligible(cfg, ctx) == Ok(true) && Resolve(cfg, ctx) == Ok(None))
    ensures Run([(scope, cfg)] + rest, ctx, target, current) == Run(rest, ctx, target, current)
  {
    assert ([(scope, cfg)] + rest)[1..] == rest;
  }

  /** A store of one scope: its step decides the whole run. */
  lemma RunOne(scope: string, cfg: Config, ctx: Context, target: Trace, current: map<Value, Value>)
    ensures var step := Step(scope, cfg, ctx);
      Run([(scope, cfg)], ctx, target, current) ==
        if step.Err? then State(target, current, Some(step.failure))
        else if step.value.None? then State(target, current, None)
        else State(Perform(target, scope, step.value.value),
                   current[step.value.value.key := step.value.value.recorded], None)
  {
    assert [(scope, cfg)][1..] == [];
  }

  /** A scope's parameter, even an empty string, is used in preference to
      its :default. */
  lemma PresentParameterWins(cfg: Config, ctx: Context)
    requires ParamName(cfg.key).Some? && ParamName(cfg.key).value in ctx.params
    ensures Resolve(cfg, ctx) == Ok(Some(ctx.params[ParamName(cfg.key).value]))
  {
  }

  /** Without its parameter, a scope with a :default uses the default as
      it is, or, when it is a Proc, what calling it returns; a scope with
      neither is not applied. */
  lemma AbsentParameterUsesDefault(cfg: Config, ctx: Context)
    requires ParamName(cfg.key).None? || ParamName(cfg.key).value !in ctx.params
    ensures cfg.defaultValue.None? ==> Resolve(cfg, ctx) == Ok(None)
    ensures cfg.defaultValue.Some? && !cfg.defaultValue.value.Proc? ==>
      Resolve(cfg, ctx) == Ok(Some(cfg.defaultValue.value))
    ensures cfg.defaultValue.Some? && cfg.defaultValue.value.Proc? ==>
      Resolve(cfg, ctx) == (if cfg.defaultValue.value in ctx.outcomes
                            then Ok(Some(ctx.outcomes[cfg.defaultValue.value]))
                            else Err(Raised(cfg.defaultValue.value)))
  {
  }

  /** A fired scope records under its :as key, never under its name
      (unless the two coincide), and calls the scope by name with no
      argument (a true boolean) or with exactly the resolved value. */
  lemma StepEffect(scope: string, cfg: Config, ctx: Context)
    requires Step(scope, cfg, ctx).Ok? && Step(scope, cfg, ctx).value.Some?
    ensures var e := Step(scope, cfg, ctx).value.value;
      && Eligible(cfg, ctx) == Ok(true)
      && Resolve(cfg, ctx).Ok? && Resolve(cfg, ctx).value.Some?
      && e.key == cfg.key
      && var v := Resolve(cfg, ctx).value.value;
         if cfg.kind == Sym("boolean")
         then e.recorded == Bool(IsTrueValue(v)) && (e.args.Some? <==> IsTrueValue(v)) && (e.args.Some? ==> e.args.value == [])
         else e.recorded == v && e.args == Some([v])
  {
  }

  /** apply_scopes is a fold in declaration order: running a store split
      in two is running the first part and, unless it raised, the second
      part from the target and audit the first part left. */
  lemma {:induction false} RunAppend(
    s1: seq<(string, Config)>, s2: seq<(string, Config)>, ctx: Context, target: Trace, current: map<Value, Value>)
    ensures var m := Run(s1, ctx, target, current);
      Run(s1 + s2, ctx, target, current) == if m.failure.Some? then m else Run(s2, ctx, m.target, m.current)
    decreases |s1|
  {
    if s1 == [] {
      assert s1 + s2 == s2;
    } else {
      assert (s1 + s2)[0] == s1[0];
      assert (s1 + s2)[1..] == s1[1..] + s2;
      var step := Step(s1[0].0, s1[0].1, ctx);
      if step.Ok? {
        if step.value.None? {
          RunAppend(s1[1..], s2, ctx, target, current);
        } else {
          var e := step.value.value;
          RunAppend(s1[1..], s2, ctx, Perform(target, s1[0].0, e), current[e.key := e.recorded]);
        }
      }
    }
  }

  lemma UpdateThenUnion(c: map<Value, Value>, k: Value, v: Value, m: map<Value, Value>)
    ensures c[k := v] + m == c + (map[k := v] + m)
  {
  }

  lemma PerformThenAppend(target: Trace, scope: string, e: Effect, rest: Trace)
    ensures Perform(target, scope, e) + rest == target + (Perform([], scope, e) + rest)
  {
    if e.args.None? {
      assert target + [] == target;
    }
  }

  /** The target and the audit a run starts from do not influence what it
      does: it appends the same calls to any target and writes the same
      entries over any audit. */
  lemma {:induction false} RunFrom(store: seq<(string, Config)>, ctx: Context, target: Trace, current: map<Value, Value>)
    ensures var base := Run(store, ctx, [], map[]);
      Run(store, ctx, target, current) == State(target + base.target, current + base.current, base.failure)
    decreases |store|
  {
    var base := Run(store, ctx, [], map[]);
    if store == [] {
      assert target + [] == target;
      assert current + map[] == current;
    } else {
      var step := Step(store[0].0, store[0].1, ctx);
      if step.Err? {
        assert target + [] == target;
        assert current + map[] == current;
      } else if step.value.None? {
        RunFrom(store[1..], ctx, target, current);
      } else {
        var e := step.value.value;
        var rest := Run(store[1..], ctx, [], map[]);
        RunFrom(store[1..], ctx, Perform(target, store[0].0, e), current[e.key := e.recorded]);
        RunFrom(store[1..], ctx, Perform([], store[0].0, e), map[e.key := e.recorded]);
        assert base == State(Perform([], store[0].0, e) + rest.target, map[e.key := e.recorded] + rest.current, rest.failure) by {
          assert map[][e.key := e.recorded] == map[e.key := e.recorded];
        }
        PerformThenAppend(target, store[0].0, e, rest.target);
        UpdateThenUnion(current, e.key, e.recorded, rest.current);
      }
    }
  }

  /** Calling apply_scopes again on the same controller, with the same
      parameters, repeats the same calls and leaves current_scopes as the
      first call left it. */
  lemma ApplyTwice(store: seq<(string, Config)>, ctx: Context, t: Trace, c: map<Value, Value>, t2: Trace)
    requires Run(store, ctx, t, c).failure.None?
    ensures var first := Run(store, ctx, t, c);
      && |t| <= |first.target|
      && Run(store, ctx, t2, first.current) == State(t2 + first.target[|t|..], first.current, None)
  {
    var base := Run(store, ctx, [], map[]);
    RunFrom(store, ctx, t, c);
    var first := Run(store, ctx, t, c);
    RunFrom(store, ctx, t2, first.current);
    assert first.target[|t|..] == base.target;
    assert (c + base.current) + base.current == c + base.current;
  }

  /** Every call a run makes names a declared scope and carries at most one
      argument, and every audit key it writes is some scope's :as key. */
  lemma {:induction false} RunOnlyTouchesDeclaredScopes(
    store: seq<(string, Config)>, ctx: Context, target: Trace, current: map<Value, Value>)
    ensures var r := Run(store, ctx, target, current);
      && |target| <= |r.target| && r.target[..|target|] == target
      && (forall k :: |target| <= k < |r.target| ==>
            (exists i :: 0 <= i < |store| && store[i].0 == r.target[k].scope) && |r.target[k].args| <= 1)
      && (forall key :: key in r.current ==>
            (key in current && r.current[key] == current[key]) || exists i :: 0 <= i < |store| && store[i].1.key == key)
    decreases |store|
  {
    if store != [] {
      var step := Step(store[0].0, store[0].1, ctx);
      if step.Ok? {
        if step.value.None? {
          RunOnlyTouchesDeclaredScopes(store[1..], ctx, target, current);
          assert forall i :: 0 <= i < |store[1..]| ==> store[1..][i] == store[i + 1];
        } else {
          var e := step.value.value;
          StepEffect(store[0].0, store[0].1, ctx);
          var t1 := Perform(target, store[0].0, e);
          RunOnlyTouchesDeclaredScopes(store[1..], ctx, t1, current[e.key := e.recorded]);
          assert forall i :: 0 <= i < |store[1..]| ==> store[1..][i] == store[i + 1];
          var r := Run(store, ctx, target, current);
          assert r.target[..|t1|] == t1;
          assert r.target[..|target|] == t1[..|target|];
        }
      }
    }
  }

  /** A scope that is not eligible in this request is never called,
      whatever the parameters hold; in particular a scope whose non-empty
      :only leaves out the current action. */
  lemma {:induction false} IneligibleNeverCalled(
    store: seq<(string, Config)>, ctx: Context, target: Trace, current: map<Value, Value>, scope: string)
    requires forall i :: 0 <= i < |store| && store[i].0 == scope ==> Eligible(store[i].1, ctx) != Ok(true)
    ensures var r := Run(store, ctx, target, current);
      && |target| <= |r.target|
      && forall k :: |target| <= k < |r.target| ==> r.target[k].scope != scope
    decreases |store|
  {
    if store != [] {
      var step := Step(store[0].0, store[0].1, ctx);
      assert forall i :: 0 <= i < |store[1..]| ==> store[1..][i] == store[i + 1];
      if step.Ok? {
        if step.value.None? {
          IneligibleNeverCalled(store[1..], ctx, target, current, scope);
        } else {
          var e := step.value.value;
          StepEffect(store[0].0, store[0].1, ctx);
          var t1 := Perform(target, store[0].0, e);
          IneligibleNeverCalled(store[1..], ctx, t1, current[e.key := e.recorded], scope);
          RunOnlyTouchesDeclaredScopes(store[1..], ctx, t1, current[e.key := e.recorded]);
          var r := Run(store, ctx, target, current);
          forall k | |target| <= k < |t1| ensures r.target[k].scope != scope {
            assert r.target[k] == r.target[..|t1|][k];
          }
        }
      }
    }
  }

  /** Spelled out for :only: outside the listed actions the scope's
      operation is never invoked. */
  lemma OnlyRestrictsActions(
    store: seq<(string, Config)>, ctx: Context, target: Trace, current: map<Value, Value>, scope: string)
    requires forall i :: 0 <= i < |store| && store[i].0 == scope ==>
      |store[i].1.only| > 0 && Sym(ctx.action) !in store[i].1.only
    ensures var r := Run(store, ctx, target, current);
      forall k :: |target| <= k < |r.target| ==> r.target[k].scope != scope
  {
    forall i | 0 <= i < |store| && store[i].0 == scope
      ensures Eligible(store[i].1, ctx) != Ok(true)
    {
      OutsideOnlyNeverEligible(store[i].1, ctx);
    }
    IneligibleNeverCalled(store, ctx, target, current, scope);
  }
}
