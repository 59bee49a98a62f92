/** The declarations of the library's functional tests
    (test/has_scope_test.rb:8-17) as this version of has_scope stores them,
    and requests from those tests. The full test controller fails while it
    is declared: its root_type declaration passes :allow_blank, which this
    version refuses (AllowBlankRejected), so no request reaches it. Each
    request here therefore runs a store holding only the scopes it names.
    A controller holding only the test declarations this version accepts
    would raise on every request without a planted_before parameter
    (DateDefaultRaises). */
module Scenarios {
  import opened Values
  import opened Failures
  import opened Request
  import opened Declaration
  import opened Application
  import opened Properties

  /** The record a first has_scope call with these options stores. */
  function Declared(name: string, options: map<string, Value>): Config
    requires NormalizeOptions(options).Ok?
  {
    Merge(Seed(name), NormalizeOptions(options).value)
  }

  const Color := Config(Sym("color"), Sym("default"), [], [], None, Some(Sym("show_all_colors?")), None)
  const OnlyTall := Config(Sym("only_tall"), Sym("boolean"), [Sym("index")], [], Some(Sym("restrict_to_only_tall_trees?")), None, None)
  const ShadownRange := Config(Sym("shadown_range"), Sym("default"), [], [Sym("index"), Sym("show"), Sym("new")], None, None, Some(Int(10)))
  const RootType := Config(Sym("root"), Sym("default"), [], [], None, None, None)
  const PlantedBefore := Config(Sym("planted_before"), Sym("default"), [], [], None, None, Some(Proc(1)))
  const CalculateHeight := Config(Sym("calculate_height"), Sym("default"), [Sym("new")], [], None, None, Some(Proc(2)))
  const Paginate := Config(Sym("paginate"), Sym("hash"), [], [], None, None, None)
  const Categories := Config(Sym("categories"), Sym("array"), [], [], None, None, None)

  /** A has_scope call whose keys are all valid and which does not use
      :boolean stores the seed merged with its options, as given. */
  lemma DeclaredPlain(name: string, options: map<string, Value>)
    requires "boolean" !in options
    requires forall k :: k in options ==> k in ValidKeys
    ensures NormalizeOptions(options).Ok?
    ensures Declared(name, options) == Config(
      Pick(Lookup(options, "as"), Sym(name)),
      Pick(Lookup(options, "type"), Sym("default")),
      if "only" in options then ToArray(options["only"]) else [],
      if "except" in options then ToArray(options["except"]) else [],
      Lookup(options, "if"), Lookup(options, "unless"), Lookup(options, "default"))
  {
  }

  /** `has_scope :color` as declared by the test controller. */
  lemma ColorDeclared()
    ensures NormalizeOptions(map["unless" := Sym("show_all_colors?")]).Ok?
    ensures Declared("color", map["unless" := Sym("show_all_colors?")]) == Color
  {
    DeclaredPlain("color", map["unless" := Sym("show_all_colors?")]);
  }

  /** `has_scope :only_tall` as declared by the test controller. */
  lemma OnlyTallDeclared()
    ensures NormalizeOptions(map["type" := Sym("boolean"), "only" := Sym("index"), "if" := Sym("restrict_to_only_tall_trees?")]).Ok?
    ensures Declared("only_tall", map["type" := Sym("boolean"), "only" := Sym("index"), "if" := Sym("restrict_to_only_tall_trees?")]) == OnlyTall
  {
    DeclaredPlain("only_tall", map["type" := Sym("boolean"), "only" := Sym("index"), "if" := Sym("restrict_to_only_tall_trees?")]);
  }

  /** `has_scope :shadown_range` as declared by the test controller. */
  lemma ShadownRangeDeclared()
    ensures NormalizeOptions(map["default" := Int(10), "except" := Arr([Sym("index"), Sym("show"), Sym("new")])]).Ok?
    ensures Declared("shadown_range", map["default" := Int(10), "except" := Arr([Sym("index"), Sym("show"), Sym("new")])]) == ShadownRange
  {
    DeclaredPlain("shadown_range", map["default" := Int(10), "except" := Arr([Sym("index"), Sym("show"), Sym("new")])]);
  }

  /** `has_scope :root_type` as declared by the test controller. */
  lemma RootTypeDeclared()
    ensures NormalizeOptions(map["as" := Sym("root")]).Ok?
    ensures Declared("root_type", map["as" := Sym("root")]) == RootType
  {
    DeclaredPlain("root_type", map["as" := Sym("root")]);
  }

  /** `has_scope :planted_before` as declared by the test controller. */
  lemma PlantedBeforeDeclared()
    ensures NormalizeOptions(map["default" := Proc(1)]).Ok?
    ensures Declared("planted_before", map["default" := Proc(1)]) == PlantedBefore
  {
    DeclaredPlain("planted_before", map["default" := Proc(1)]);
  }

  /** `has_scope :calculate_height` as declared by the test controller. */
  lemma CalculateHeightDeclared()
    ensures NormalizeOptions(map["default" := Proc(2), "only" := Sym("new")]).Ok?
    ensures Declared("calculate_height", map["default" := Proc(2), "only" := Sym("new")]) == CalculateHeight
  {
    DeclaredPlain("calculate_height", map["default" := Proc(2), "only" := Sym("new")]);
  }

  /** `has_scope :paginate` as declared by the test controller. */
  lemma PaginateDeclared()
    ensures NormalizeOptions(map["type" := Sym("hash")]).Ok?
    ensures Declared("paginate", map["type" := Sym("hash")]) == Paginate
  {
    DeclaredPlain("paginate", map["type" := Sym("hash")]);
  }

  /** `has_scope :categories` as declared by the test controller. */
  lemma CategoriesDeclared()
    ensures NormalizeOptions(map["type" := Sym("array")]).Ok?
    ensures Declared("categories", map["type" := Sym("array")]) == Categories
  {
    DeclaredPlain("categories", map["type" := Sym("array")]);
  }

  /** The outcomes of the controller's predicate methods. */
  function Predicates(showAll: bool, onlyTall: bool): map<Value, Value> {
    map[Sym("show_all_colors?") := Bool(showAll), Sym("restrict_to_only_tall_trees?") := Bool(onlyTall)]
  }

  /** A declaration with an option of later versions (:allow_blank) is
      refused by this version. */
  lemma AllowBlankRejected()
    ensures NormalizeOptions(map["as" := Sym("root"), "allow_blank" := Bool(true)]) == Err(InvalidOptions({"allow_blank"}))
  {
    var opts := map["as" := Sym("root"), "allow_blank" := Bool(true)];
    assert WithoutBoolean(opts) == opts;
    var unknown := set k | k in opts && k !in ValidKeys;
    assert "allow_blank" in unknown;
    assert unknown == {"allow_blank"};
  }

  /** The deprecated `:boolean => true` declares a boolean scope. */
  lemma BooleanShorthand()
    ensures Declared("featured", map["boolean" := Bool(true), "only" := Sym("index")]).kind == Sym("boolean")
    ensures Declared("featured", map["boolean" := Bool(true), "only" := Sym("index")]).only == [Sym("index")]
  {
  }

  /** A boolean parameter "true" calls the scope with no argument and
      records true. */
  lemma BooleanTrue()
    ensures Run([("only_tall", OnlyTall)], Context("index", map["only_tall" := Str("true")], Predicates(false, true)), [], map[])
         == State([Call("only_tall", [])], map[Sym("only_tall") := Bool(true)], None)
  {
    RunOne("only_tall", OnlyTall, Context("index", map["only_tall" := Str("true")], Predicates(false, true)), [], map[]);
  }

  /** A boolean parameter "false" does not call the scope, and this
      version records false. */
  lemma BooleanFalseIsRecorded()
    ensures Run([("only_tall", OnlyTall)], Context("index", map["only_tall" := Str("false")], Predicates(false, true)), [], map[])
         == State([], map[Sym("only_tall") := Bool(false)], None)
  {
    RunOne("only_tall", OnlyTall, Context("index", map["only_tall" := Str("false")], Predicates(false, true)), [], map[]);
  }

  /** A blank parameter is still a present parameter: this version calls
      the scope with the empty string. */
  lemma BlankParameterIsPassed()
    ensures Run([("color", Color)], Context("index", map["color" := Str("")], Predicates(false, true)), [], map[])
         == State([Call("color", [Str("")])], map[Sym("color") := Str("")], None)
  {
    assert IsA(Str(""), AllowedTypes[Sym("default")][0]);
    RunOne("color", Color, Context("index", map["color" := Str("")], Predicates(false, true)), [], map[]);
  }

  /** Outside :only, or when :if returns false, the scope is skipped. */
  lemma BooleanGated()
    ensures Run([("only_tall", OnlyTall)], Context("show", map["only_tall" := Str("true")], Predicates(false, true)), [], map[])
         == State([], map[], None)
    ensures Run([("only_tall", OnlyTall)], Context("index", map["only_tall" := Str("true")], Predicates(false, false)), [], map[])
         == State([], map[], None)
  {
    RunOne("only_tall", OnlyTall, Context("show", map["only_tall" := Str("true")], Predicates(false, true)), [], map[]);
    RunOne("only_tall", OnlyTall, Context("index", map["only_tall" := Str("true")], Predicates(false, false)), [], map[]);
  }

  /** :unless returning true skips the scope. */
  lemma UnlessGate()
    ensures Run([("color", Color)], Context("index", map["color" := Str("blue")], Predicates(true, true)), [], map[])
         == State([], map[], None)
  {
    RunOne("color", Color, Context("index", map["color" := Str("blue")], Predicates(true, true)), [], map[]);
  }

  /** With :unless returning false, any string given for color is passed
      to the scope and recorded ('blue' in the test). */
  lemma ColorWithArgument(v: string)
    ensures Run([("color", Color)], Context("index", map["color" := Str(v)], Predicates(false, true)), [], map[])
         == State([Call("color", [Str(v)])], map[Sym("color") := Str(v)], None)
  {
    assert IsA(Str(v), AllowedTypes[Sym("default")][0]);
    RunOne("color", Color, Context("index", map["color" := Str(v)], Predicates(false, true)), [], map[]);
  }

  /** :except keeps the scope out of the listed actions, even with its
      parameter given. */
  lemma ExceptSkipsIndex()
    ensures Run([("shadown_range", ShadownRange)], Context("index", map["shadown_range" := Int(20)], map[]), [], map[])
         == State([], map[], None)
  {
    RunOne("shadown_range", ShadownRange, Context("index", map["shadown_range" := Int(20)], map[]), [], map[]);
  }

  /** Outside :except, the default is passed when the parameter is
      absent, and a given parameter overrides it. */
  lemma DefaultValue()
    ensures Run([("shadown_range", ShadownRange)], Context("edit", map["id" := Str("42")], map[]), [], map[])
         == State([Call("shadown_range", [Int(10)])], map[Sym("shadown_range") := Int(10)], None)
    ensures Run([("shadown_range", ShadownRange)], Context("edit", map["id" := Str("42"), "shadown_range" := Str("20")], map[]), [], map[])
         == State([Call("shadown_range", [Str("20")])], map[Sym("shadown_range") := Str("20")], None)
  {
    assert IsA(Int(10), AllowedTypes[Sym("default")][1]);
    assert IsA(Str("20"), AllowedTypes[Sym("default")][0]);
    RunOne("shadown_range", ShadownRange, Context("edit", map["id" := Str("42")], map[]), [], map[]);
    RunOne("shadown_range", ShadownRange, Context("edit", map["id" := Str("42"), "shadown_range" := Str("20")], map[]), [], map[]);
  }

  /** Two scopes are applied in declaration order, and both are recorded. */
  lemma MultipleScopes()
    ensures Run([("color", Color), ("only_tall", OnlyTall)],
                Context("index", map["color" := Str("blue"), "only_tall" := Str("true")], Predicates(false, true)), [], map[])
         == State([Call("color", [Str("blue")]), Call("only_tall", [])],
                  map[Sym("color") := Str("blue"), Sym("only_tall") := Bool(true)], None)
  {
    var ctx := Context("index", map["color" := Str("blue"), "only_tall" := Str("true")], Predicates(false, true));
    assert IsA(Str("blue"), AllowedTypes[Sym("default")][0]);
    assert Step("color", Color, ctx) == Ok(Some(Effect(Sym("color"), Str("blue"), Some([Str("blue")]))));
    assert Step("only_tall", OnlyTall, ctx) == Ok(Some(Effect(Sym("only_tall"), Bool(true), Some([]))));
    RunOne("color", Color, ctx, [], map[]);
    RunOne("only_tall", OnlyTall, ctx, [Call("color", [Str("blue")])], map[Sym("color") := Str("blue")]);
    RunAppend([("color", Color)], [("only_tall", OnlyTall)], ctx, [], map[]);
    assert [("color", Color)] + [("only_tall", OnlyTall)] == [("color", Color), ("only_tall", OnlyTall)];
  }

  /** In a store holding planted_before, whose default Proc returns a
      Date (neither a String nor Numeric), a request without that
      parameter raises when the fold reaches the scope, after the scopes
      declared before it have been applied and recorded. */
  lemma DateDefaultRaises()
    ensures Run([("only_tall", OnlyTall), ("planted_before", PlantedBefore)],
                Context("index", map["only_tall" := Str("true")], Predicates(false, true)[Proc(1) := Obj("Date", 0)]), [], map[])
         == State([Call("only_tall", [])], map[Sym("only_tall") := Bool(true)],
                  Some(TypeMismatch(Sym("default"), Sym("planted_before"), Obj("Date", 0))))
  {
    var ctx := Context("index", map["only_tall" := Str("true")], Predicates(false, true)[Proc(1) := Obj("Date", 0)]);
    assert Step("only_tall", OnlyTall, ctx) == Ok(Some(Effect(Sym("only_tall"), Bool(true), Some([]))));
    assert Step("planted_before", PlantedBefore, ctx) == Err(TypeMismatch(Sym("default"), Sym("planted_before"), Obj("Date", 0)));
    RunOne("only_tall", OnlyTall, ctx, [], map[]);
    RunOne("planted_before", PlantedBefore, ctx, [Call("only_tall", [])], map[Sym("only_tall") := Bool(true)]);
    RunAppend([("only_tall", OnlyTall)], [("planted_before", PlantedBefore)], ctx, [], map[]);
    assert [("only_tall", OnlyTall)] + [("planted_before", PlantedBefore)] == [("only_tall", OnlyTall), ("planted_before", PlantedBefore)];
  }

  /** A string given to a :hash scope raises in this version. */
  lemma WrongTypeRaises()
    ensures Run([("paginate", Paginate)], Context("index", map["paginate" := Str("1")], map[]), [], map[])
         == State([], map[], Some(TypeMismatch(Sym("hash"), Sym("paginate"), Str("1"))))
  {
    RunOne("paginate", Paginate, Context("index", map["paginate" := Str("1")], map[]), [], map[]);
  }

  /** :as names the parameter and the audit key; the scope keeps its name. */
  lemma DifferentKey()
    ensures Run([("root_type", RootType)], Context("show", map["id" := Str("42"), "root" := Str("outside")], map[]), [], map[])
         == State([Call("root_type", [Str("outside")])], map[Sym("root") := Str("outside")], None)
  {
    assert IsA(Str("outside"), AllowedTypes[Sym("default")][0]);
    RunOne("root_type", RootType, Context("show", map["id" := Str("42"), "root" := Str("outside")], map[]), [], map[]);
  }

  /** A Proc default is called with the controller, and its result is the
      value. */
  lemma ProcDefault()
    ensures Run([("planted_before", PlantedBefore)], Context("index", map[], map[Proc(1) := Str("today")]), [], map[])
         == State([Call("planted_before", [Str("today")])], map[Sym("planted_before") := Str("today")], None)
  {
    assert IsA(Str("today"), AllowedTypes[Sym("default")][0]);
    RunOne("planted_before", PlantedBefore, Context("index", map[], map[Proc(1) := Str("today")]), [], map[]);
  }

  /** The same for a Proc reading the session, under :only. */
  lemma ProcDefaultOnlyNew()
    ensures Run([("calculate_height", CalculateHeight)], Context("new", map[], map[Proc(2) := Int(100)]), [], map[])
         == State([Call("calculate_height", [Int(100)])], map[Sym("calculate_height") := Int(100)], None)
  {
    assert IsA(Int(100), AllowedTypes[Sym("default")][1]);
    RunOne("calculate_height", CalculateHeight, Context("new", map[], map[Proc(2) := Int(100)]), [], map[]);
  }

  /** An :array scope is called with the array itself. */
  lemma ArrayScope()
    ensures Run([("categories", Categories)],
                Context("index", map["categories" := Arr([Str("book"), Str("kitchen"), Str("sport")])], map[]), [], map[])
         == State([Call("categories", [Arr([Str("book"), Str("kitchen"), Str("sport")])])],
                  map[Sym("categories") := Arr([Str("book"), Str("kitchen"), Str("sport")])], None)
  {
    assert IsA(Arr([Str("book"), Str("kitchen"), Str("sport")]), AllowedTypes[Sym("array")][0]);
    RunOne("categories", Categories,
           Context("index", map["categories" := Arr([Str("book"), Str("kitchen"), Str("sport")])], map[]), [], map[]);
  }

  /** The store after `has_scope :color, :unless => :show_all_colors?` in
      a class with no scopes, and its listing. */
  lemma ColorStore()
    ensures NormalizeOptions(map["unless" := Sym("show_all_colors?")]).Ok?
    ensures DeclareAll(Store([], map[]), ["color"], NormalizeOptions(map["unless" := Sym("show_all_colors?")]).value)
         == Store(["color"], map["color" := Color])
    ensures Listing(Store(["color"], map["color" := Color])) == [("color", Color)]
  {
    ColorDeclared();
    assert ["color"][..0] == [];
  }

  /** A client of the two classes: a scope declared with has_scope and
      applied by a controller handling the index action. */
  method ColorRequest() {
    var declarations := new ScopeDeclarations();
    var declared := declarations.HasScope(["color"], map["unless" := Sym("show_all_colors?")]);
    ColorStore();
    assert declared == Done;
    assert declarations.Entries() == [("color", Color)];
    var controller := new Controller(declarations, "index", map["color" := Str("blue")], Predicates(false, true));
    var target := controller.ApplyScopes([]);
    ColorWithArgument("blue");
    assert target == Ok([Call("color", [Str("blue")])]);
    assert controller.CurrentScopes() == map[Sym("color") := Str("blue")];
  }
}
