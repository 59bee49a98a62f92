/** Ruby values as the scope engine meets them: request parameters, option
    values given to has_scope, and what the controller's callables return. */
module Values {

  datatype Option<+T> = None | Some(value: T)

  /** One Ruby object, by the class that matters to the engine.
      Proc(id) is a Proc object, called only through the request context;
      Obj(cls, id) is an instance of any other class (a Date, say). */
  datatype Value =
    | Str(s: string)
    | Int(i: int)
    | Float(f: real)
    | Bool(b: bool)
    | Nil
    | Sym(name: string)
    | Arr(items: seq<Value>)
    | Hash(entries: seq<(Value, Value)>)
    | Proc(id: nat)
    | Obj(cls: string, id: nat)

  /** Ruby truthiness: everything except nil and false. */
  predicate Truthy(v: Value) {
    !(v.Nil? || v == Bool(false))
  }

  /** Ruby's `a == b` on the values the engine compares: structural
      equality, except that an Integer and a Float are equal when they
      denote the same number (`1 == 1.0`). */
  predicate RubyEquals(a: Value, b: Value)
    ensures a == b ==> RubyEquals(a, b)
    ensures RubyEquals(a, b) && a != b ==> (a.Int? || a.Float?) && (b.Int? || b.Float?)
  {
    || a == b
    || (a.Int? && b.Float? && a.i as real == b.f)
    || (a.Float? && b.Int? && a.f == b.i as real)
  }

  /** Kernel#Array: nil becomes [], an array stays itself, a hash becomes
      its list of [key, value] pairs, anything else is wrapped. */
  function ToArray(v: Value): (r: seq<Value>)
    ensures v.Nil? ==> r == []
    ensures v.Arr? ==> r == v.items
    ensures v.Hash? ==>
      (|r| == |v.entries| && forall i :: 0 <= i < |r| ==> r[i] == Arr([v.entries[i].0, v.entries[i].1]))
    ensures !v.Nil? && !v.Arr? && !v.Hash? ==> r == [v]
  {
    match v
    case Nil => []
    case Arr(items) => items
    case Hash(entries) =>
      seq(|entries|, i requires 0 <= i < |entries| => Arr([entries[i].0, entries[i].1]))
    case _ => [v]
  }

  /** The key a `:as` value names in the request's parameter hash, which
      is indifferent to string and symbol keys. Any other object finds no
      parameter at all. */
  function ParamName(key: Value): (r: Option<string>)
    ensures r.Some? <==> key.Sym? || key.Str?
    ensures key.Sym? ==> r == Some(key.name)
    ensures key.Str? ==> r == Some(key.s)
  {
    match key
    case Sym(n) => Some(n)
    case Str(s) => Some(s)
    case _ => None
  }
}
