/** What one request-handling controller instance supplies to the engine. */
module Request {
  import opened Values
  import opened Failures

  /** `action` is action_name; `params` the request's parameters;
      `outcomes` gives, for each callable the controller can evaluate
      without raising, the value it returns: a Symbol names a controller
      method sent with no argument, a Proc is called with the controller,
      a String is evaluated in the controller. */
  datatype Context = Context(
    action: string,
    params: map<string, Value>,
    outcomes: map<Value, Value>)

  /** The option values applicable? treats as callables. */
  predicate IsCallable(g: Value) {
    g.Str? || g.Proc? || g.Sym?
  }

  /** Evaluating a callable in the controller: its result, or the
      failure it raised. */
  function Invoke(c: Value, ctx: Context): Result<Value> {
    if c in ctx.outcomes then Ok(ctx.outcomes[c]) else Err(Raised(c))
  }
}
