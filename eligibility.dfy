/** apply_scope_to_action? and applicable?: whether a scope may run in the
    current action (lib/has_scope.rb:112-135). */
module Eligibility {
  import opened Values
  import opened Failures
  import opened Request
  import opened Declaration

  /** applicable?(option, expected): a Symbol, Proc or String is evaluated
      and must return exactly `expected`; no option, or any other value,
      passes. */
  function Applicable(guard: Option<Value>, expected: bool, ctx: Context): (r: Result<bool>)
    ensures r == Ok(true) <==> GuardPasses(guard, expected, ctx)
    ensures r.Err? <==> guard.Some? && IsCallable(guard.value) && guard.value !in ctx.outcomes
    ensures r.Err? ==> r.failure == Raised(guard.value)
  {
    if guard.Some? && IsCallable(guard.value) then
      var v := Invoke(guard.value, ctx);
      if v.Err? then Err(v.failure) else Ok(v.value == Bool(expected))
    else Ok(true)
  }

  /** The action gate: a non-empty :only wins over :except. Actions are
      compared as symbols. */
  predicate ActionAllowed(only: seq<Value>, except: seq<Value>, action: string)
    ensures |only| == 0 && |except| == 0 ==> ActionAllowed(only, except, action)
    ensures |only| == 0 ==> (ActionAllowed(only, except, action) <==> Sym(action) !in except)
    ensures |only| > 0 ==> (ActionAllowed(only, except, action) <==> Sym(action) in only)
  {
    if |only| == 0 then |except| == 0 || Sym(action) !in except
    else Sym(action) in only
  }

  /** apply_scope_to_action?: :if first, then :unless (not evaluated when
      :if already failed), then the action gate. */
  function Eligible(cfg: Config, ctx: Context): (r: Result<bool>)
    ensures r.Ok? ==>
      (r.value <==> && GuardPasses(cfg.ifGuard, true, ctx)
                    && GuardPasses(cfg.unlessGuard, false, ctx)
                    && ActionAllowed(cfg.only, cfg.except, ctx.action))
    ensures r.Err? ==> r.failure.Raised?
  {
    var byIf := Applicable(cfg.ifGuard, true, ctx);
    if byIf.Err? then byIf
    else if !byIf.value then Ok(false)
    else
      var byUnless := Applicable(cfg.unlessGuard, false, ctx);
      if byUnless.Err? then byUnless
      else if !byUnless.value then Ok(false)
      else Ok(ActionAllowed(cfg.only, cfg.except, ctx.action))
  }

  /** A guard lets the scope through: it is absent, not a callable, or a
      callable that returns `expected` without raising. */
  predicate GuardPasses(guard: Option<Value>, expected: bool, ctx: Context) {
    || guard.None?
    || !IsCallable(guard.value)
    || (guard.value in ctx.outcomes && ctx.outcomes[guard.value] == Bool(expected))
  }

  /** A scope is eligible exactly when both guards pass and the action is
      in a non-empty :only, or, with :only empty, not in :except. */
  lemma EligibleExactly(cfg: Config, ctx: Context)
    ensures Eligible(cfg, ctx) == Ok(true) <==>
      && GuardPasses(cfg.ifGuard, true, ctx)
      && GuardPasses(cfg.unlessGuard, false, ctx)
      && (if |cfg.only| > 0 then Sym(ctx.action) in cfg.only else Sym(ctx.action) !in cfg.except)
  {
  }

  /** Eligibility fails with an error only when a guard that is evaluated
      raises; the :unless guard is not evaluated after :if has failed. */
  lemma EligibleErrors(cfg: Config, ctx: Context)
    ensures Eligible(cfg, ctx).Err? <==>
      || (cfg.ifGuard.Some? && IsCallable(cfg.ifGuard.value) && cfg.ifGuard.value !in ctx.outcomes)
      || (GuardPasses(cfg.ifGuard, true, ctx)
          && cfg.unlessGuard.Some? && IsCallable(cfg.unlessGuard.value) && cfg.unlessGuard.value !in ctx.outcomes)
    ensures Eligible(cfg, ctx).Err? ==>
      Eligible(cfg, ctx).failure == Raised(
        if cfg.ifGuard.Some? && IsCallable(cfg.ifGuard.value) && cfg.ifGuard.value !in ctx.outcomes
        then cfg.ifGuard.value else cfg.unlessGuard.value)
  {
  }

  /** A callable returning nil (or anything that is not exactly true or
      false) fails both :if and :unless. */
  lemma NonBooleanOutcomeFailsBothGates(g: Value, ctx: Context)
    requires IsCallable(g) && g in ctx.outcomes && !ctx.outcomes[g].Bool?
    ensures Applicable(Some(g), true, ctx) == Ok(false)
    ensures Applicable(Some(g), false, ctx) == Ok(false)
  {
  }

  /** A non-empty :only decides alone: :except is not consulted. */
  lemma OnlyOverridesExcept(cfg: Config, ctx: Context, except: seq<Value>)
    requires |cfg.only| > 0
    ensures Eligible(cfg, ctx) == Eligible(cfg.(except := except), ctx)
  {
  }

  /** In an action outside a non-empty :only, the scope is never eligible,
      whatever its guards return. */
  lemma OutsideOnlyNeverEligible(cfg: Config, ctx: Context)
    requires |cfg.only| > 0 && Sym(ctx.action) !in cfg.only
    ensures Eligible(cfg, ctx) != Ok(true)
  {
  }
}
