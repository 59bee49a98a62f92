/** has_scope: declaring scopes into a controller class's ordered store of
    scope configurations (lib/has_scope.rb, ClassMethods#has_scope). */
module Declaration {
  import opened Values
  import opened Failures

  /** The option keys has_scope accepts once :boolean has been removed. */
  const ValidKeys: set<string> := {"type", "only", "except", "if", "unless", "default", "as"}

  /** The options of one has_scope call after validation: None stands for
      a key that was not given. :only and :except are always given, as
      arrays. */
  datatype Options = Options(
    key: Option<Value>,
    kind: Option<Value>,
    only: seq<Value>,
    except: seq<Value>,
    ifGuard: Option<Value>,
    unlessGuard: Option<Value>,
    defaultValue: Option<Value>)

  /** The stored record of one scope: `key` is :as, `kind` is :type. */
  datatype Config = Config(
    key: Value,
    kind: Value,
    only: seq<Value>,
    except: seq<Value>,
    ifGuard: Option<Value>,
    unlessGuard: Option<Value>,
    defaultValue: Option<Value>)

  function Lookup(m: map<string, Value>, k: string): Option<Value> {
    if k in m then Some(m[k]) else None
  }

  /** The options hash once :boolean has been deleted and, when it was
      truthy, turned into `:type => :boolean` unless a truthy :type was
      given. */
  function WithoutBoolean(opts: map<string, Value>): (r: map<string, Value>)
    ensures "boolean" !in r
    ensures forall k :: k in opts && k != "boolean" && k != "type" ==> k in r && r[k] == opts[k]
    ensures forall k :: k in r && k != "type" ==> k in opts
    ensures "type" in r <==> "type" in opts || ("boolean" in opts && Truthy(opts["boolean"]))
    ensures "type" in opts && Truthy(opts["type"]) ==> r["type"] == opts["type"]
    ensures !("boolean" in opts && Truthy(opts["boolean"])) && "type" in opts ==> r["type"] == opts["type"]
    ensures "boolean" in opts && Truthy(opts["boolean"]) && !("type" in opts && Truthy(opts["type"])) ==>
      r["type"] == Sym("boolean")
  {
    var rest := opts - {"boolean"};
    if "boolean" in opts && Truthy(opts["boolean"]) && !("type" in rest && Truthy(rest["type"]))
    then rest["type" := Sym("boolean")]
    else rest
  }

  /** Validation and normalisation of has_scope's options. */
  function NormalizeOptions(opts: map<string, Value>): (r: Result<Options>)
    ensures r.Err? <==> exists k :: k in opts && k != "boolean" && k !in ValidKeys
    ensures r.Err? ==> r.failure.InvalidOptions? && r.failure.keys != {}
    ensures r.Ok? && "boolean" in opts && Truthy(opts["boolean"]) ==> r.value.kind.Some? && Truthy(r.value.kind.value)
    ensures r.Ok? ==>
      ("boolean" in opts && Truthy(opts["boolean"]) && !("type" in opts && Truthy(opts["type"])) ==>
         r.value.kind == Some(Sym("boolean")))
    ensures r.Ok? ==>
      (("type" in opts && Truthy(opts["type"])) || !("boolean" in opts && Truthy(opts["boolean"])) ==>
         r.value.kind == Lookup(opts, "type"))
    ensures r.Ok? ==> r.value.only == (if "only" in opts then ToArray(opts["only"]) else [])
    ensures r.Ok? ==> r.value.except == (if "except" in opts then ToArray(opts["except"]) else [])
    ensures r.Ok? ==> r.value.key == Lookup(opts, "as") && r.value.defaultValue == Lookup(opts, "default")
    ensures r.Ok? ==> r.value.ifGuard == Lookup(opts, "if") && r.value.unlessGuard == Lookup(opts, "unless")
  {
    var o := WithoutBoolean(opts);
    var unknown := set k | k in o && k !in ValidKeys;
    if unknown != {} then
      var k :| k in unknown;
      assert k in opts && k != "boolean";
      Err(InvalidOptions(unknown))
    else
      Ok(Options(
        Lookup(o, "as"),
        Lookup(o, "type"),
        if "only" in o then ToArray(o["only"]) else [],
        if "except" in o then ToArray(o["except"]) else [],
        Lookup(o, "if"),
        Lookup(o, "unless"),
        Lookup(o, "default")))
  }

  /** The record seeded for a scope that has none yet. */
  function Seed(name: string): Config {
    Config(Sym(name), Sym("default"), [], [], None, None, None)
  }

  function Pick(given: Option<Value>, kept: Value): Value {
    if given.Some? then given.value else kept
  }

  function PickOption(given: Option<Value>, kept: Option<Value>): Option<Value> {
    if given.Some? then given else kept
  }

  /** Hash#merge! of the options into a stored record. */
  function Merge(c: Config, o: Options): (r: Config)
    ensures r.only == o.only && r.except == o.except
    ensures o.key.Some? ==> r.key == o.key.value
    ensures o.kind.Some? ==> r.kind == o.kind.value
    ensures o.ifGuard.Some? ==> r.ifGuard == o.ifGuard
    ensures o.unlessGuard.Some? ==> r.unlessGuard == o.unlessGuard
    ensures o.defaultValue.Some? ==> r.defaultValue == o.defaultValue
  {
    Config(
      Pick(o.key, c.key),
      Pick(o.kind, c.kind),
      o.only,
      o.except,
      PickOption(o.ifGuard, c.ifGuard),
      PickOption(o.unlessGuard, c.unlessGuard),
      PickOption(o.defaultValue, c.defaultValue))
  }

  /** The class's store: an insertion-ordered hash from scope name to record. */
  datatype Store = Store(order: seq<string>, configs: map<string, Config>)

  ghost predicate WellFormed(st: Store) {
    && (forall i, j :: 0 <= i < j < |st.order| ==> st.order[i] != st.order[j])
    && (forall n :: n in st.configs <==> n in st.order)
  }

  /** The store's entries in iteration order: every declared scope exactly
      once, with its record, in the order the names were first declared. */
  function Listing(st: Store): (r: seq<(string, Config)>)
    requires WellFormed(st)
    ensures forall n :: n in st.configs <==> exists i :: 0 <= i < |r| && r[i].0 == n
    ensures forall i, j :: 0 <= i < j < |r| ==> r[i].0 != r[j].0
    ensures forall i :: 0 <= i < |r| ==> r[i].0 in st.configs && r[i].1 == st.configs[r[i].0]
    ensures |r| == |st.order| && forall i :: 0 <= i < |r| ==> r[i].0 == st.order[i]
  {
    var r := seq(|st.order|, i requires 0 <= i < |st.order| => (st.order[i], st.configs[st.order[i]]));
    assert forall n :: n in st.order ==> exists i :: 0 <= i < |st.order| && st.order[i] == n && r[i].0 == n;
    r
  }

  /** What a scope name's record is before a declaration merges into it. */
  function Base(st: Store, name: string): Config {
    if name in st.configs then st.configs[name] else Seed(name)
  }

  /** One iteration of has_scope's loop over its scope names. */
  function Declare(st: Store, name: string, o: Options): (r: Store)
    ensures r.order == (if name in st.configs then st.order else st.order + [name])
    ensures name in r.configs && r.configs[name] == Merge(Base(st, name), o)
    ensures r.configs.Keys == st.configs.Keys + {name}
  {
    if name in st.configs then Store(st.order, st.configs[name := Merge(st.configs[name], o)])
    else Store(st.order + [name], st.configs[name := Merge(Seed(name), o)])
  }

  /** has_scope's loop over all its scope names, in order. */
  function DeclareAll(st: Store, names: seq<string>, o: Options): (r: Store)
    ensures |st.order| <= |r.order| && r.order[..|st.order|] == st.order
    decreases |names|
  {
    if names == [] then st
    else Declare(DeclareAll(st, names[..|names| - 1], o), names[|names| - 1], o)
  }

  /** Merging the same options twice is merging them once, so a name
      repeated in one has_scope call is harmless. */
  lemma MergeIdempotent(c: Config, o: Options)
    ensures Merge(Merge(c, o), o) == Merge(c, o)
  {
  }

  /** Of two declarations of the same scope, an option the later one gives
      wins, an option only the earlier one gives survives, and :only and
      :except are always those of the later one. */
  lemma LaterDeclarationWins(c: Config, o1: Options, o2: Options)
    ensures var m := Merge(Merge(c, o1), o2);
      && m.key == (if o2.key.Some? then o2.key.value else if o1.key.Some? then o1.key.value else c.key)
      && m.kind == (if o2.kind.Some? then o2.kind.value else if o1.kind.Some? then o1.kind.value else c.kind)
      && m.only == o2.only && m.except == o2.except
      && m.ifGuard == (if o2.ifGuard.Some? then o2.ifGuard else if o1.ifGuard.Some? then o1.ifGuard else c.ifGuard)
      && m.unlessGuard == (if o2.unlessGuard.Some? then o2.unlessGuard else if o1.unlessGuard.Some? then o1.unlessGuard else c.unlessGuard)
      && m.defaultValue == (if o2.defaultValue.Some? then o2.defaultValue else if o1.defaultValue.Some? then o1.defaultValue else c.defaultValue)
  {
  }

  /** A first declaration without :as or :type reads the parameter named
      after the scope and has type :default. */
  lemma FirstDeclarationDefaults(name: string, o: Options)
    requires o.key.None? && o.kind.None?
    ensures Merge(Seed(name), o).key == Sym(name)
    ensures Merge(Seed(name), o).kind == Sym("default")
  {
  }

  /** The order of `st` is a prefix of the order of `r`. */
  ghost predicate Extends(st: Store, r: Store) {
    |st.order| <= |r.order| && r.order[..|st.order|] == st.order
  }

  /** The records of `r` are those of `st` after merging `o` into the
      record of every name in `names`, and only those. */
  ghost predicate DeclaredAs(st: Store, r: Store, names: seq<string>, o: Options) {
    && (forall n :: n in r.configs <==> n in st.configs || n in names)
    && (forall n :: n in names ==> r.configs[n] == Merge(Base(st, n), o))
    && (forall n :: n in st.configs && n !in names ==> r.configs[n] == st.configs[n])
  }

  /** One iteration of has_scope's loop on a well-formed store. */
  lemma DeclareSpec(st: Store, name: string, o: Options)
    requires WellFormed(st)
    ensures WellFormed(Declare(st, name, o))
    ensures Extends(st, Declare(st, name, o))
    ensures DeclaredAs(st, Declare(st, name, o), [name], o)
  {
    var r := Declare(st, name, o);
    if name !in st.configs {
      assert r.order[..|st.order|] == st.order;
      forall i, j | 0 <= i < j < |r.order| ensures r.order[i] != r.order[j] {
        if j == |st.order| {
          assert st.order[i] in st.configs;
        }
      }
    }
  }

  /** has_scope's loop splits into the names before the last one and the
      last one. */
  lemma DeclareAllLast(st: Store, names: seq<string>, o: Options)
    requires names != []
    ensures DeclareAll(st, names, o) == Declare(DeclareAll(st, names[..|names| - 1], o), names[|names| - 1], o)
  {
  }

  /** has_scope keeps a well-formed store well formed, keeps the position
      of every scope already declared and only appends new names. */
  lemma {:induction false} DeclareAllKeepsOrder(st: Store, names: seq<string>, o: Options)
    requires WellFormed(st)
    ensures WellFormed(DeclareAll(st, names, o))
    ensures Extends(st, DeclareAll(st, names, o))
    decreases |names|
  {
    if names != [] {
      var m := DeclareAll(st, names[..|names| - 1], o);
      DeclareAllKeepsOrder(st, names[..|names| - 1], o);
      DeclareSpec(m, names[|names| - 1], o);
      DeclareAllLast(st, names, o);
      var r := DeclareAll(st, names, o);
      assert r.order[..|st.order|] == r.order[..|m.order|][..|st.order|];
    }
  }

  /** After has_scope, every named scope's record is its previous record
      (or the seed) merged with the options, and every other record is
      untouched. */
  lemma {:induction false} DeclareAllRecords(st: Store, names: seq<string>, o: Options)
    requires WellFormed(st)
    ensures DeclaredAs(st, DeclareAll(st, names, o), names, o)
    decreases |names|
  {
    if names != [] {
      var init := names[..|names| - 1];
      var last := names[|names| - 1];
      DeclareAllRecords(st, init, o);
      DeclareAllKeepsOrder(st, init, o);
      var m := DeclareAll(st, init, o);
      DeclareSpec(m, last, o);
      DeclareAllLast(st, names, o);
      var r := DeclareAll(st, names, o);
      assert names == init + [last];
      forall n ensures n in r.configs <==> n in st.configs || n in names {
        assert n in names <==> n in init || n == last;
      }
      forall n | n in names ensures r.configs[n] == Merge(Base(st, n), o) {
        if n == last {
          if last in init {
            MergeIdempotent(Base(st, last), o);
          }
        } else {
          assert n in init;
        }
      }
      forall n | n in st.configs && n !in names ensures r.configs[n] == st.configs[n] {
        assert n !in init && n != last;
      }
    }
  }

  /** The two in-place updates of one iteration, `||=` of the seed and
      `merge!` of the options, are one Declare. */
  lemma DeclareInPlace(st: Store, name: string, o: Options)
    ensures var seeded := if name in st.configs then st.configs else st.configs[name := Seed(name)];
      var order := if name in st.configs then st.order else st.order + [name];
      Store(order, seeded[name := Merge(seeded[name], o)]) == Declare(st, name, o)
  {
  }

  /** The store of one controller class, updated in place by has_scope. */
  class ScopeDeclarations {
    var order: seq<string>
    var configs: map<string, Config>

    ghost predicate Valid()
      reads this
    {
      WellFormed(Store(order, configs))
    }

    /** `scopes_configuration.each`: the records in declaration order. */
    function Entries(): (r: seq<(string, Config)>)
      reads this
      requires Valid()
      ensures |r| == |order|
    {
      Listing(Store(order, configs))
    }

    constructor ()
      ensures Valid() && order == [] && configs == map[]
    {
      order := [];
      configs := map[];
    }

    /** has_scope(*names, options). */
    method HasScope(names: seq<string>, options: map<string, Value>) returns (r: Outcome)
      requires Valid()
      modifies this
      ensures Valid()
      ensures NormalizeOptions(options).Err? ==>
        r == Failed(NormalizeOptions(options).failure) && order == old(order) && configs == old(configs)
      ensures NormalizeOptions(options).Ok? ==>
        r == Done && Store(order, configs) == DeclareAll(old(Store(order, configs)), names, NormalizeOptions(options).value)
    {
      var normalized := NormalizeOptions(options);
      if normalized.Err? {
        return Failed(normalized.failure);
      }
      var o := normalized.value;
      ghost var st0 := Store(order, configs);
      for i := 0 to |names|
        invariant Store(order, configs) == DeclareAll(st0, names[..i], o)
      {
        assert names[..i + 1][..i] == names[..i];
        var name := names[i];
        DeclareInPlace(Store(order, configs), name, o);
        if name !in configs {
          order := order + [name];
          configs := configs[name := Seed(name)];
        }
        configs := configs[name := Merge(configs[name], o)];
      }
      assert names[..|names|] == names;
      DeclareAllKeepsOrder(st0, names, o);
      r := Done;
    }
  }
}
