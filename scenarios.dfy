/** End-to-end uses of the resolver on small component trees, each stating its results and the
    contents of the generated components it is about. */
module Scenarios {
  import opened CodegenTypes
  import opened Components
  import opened RequirementFields

  /** A root component owns a module it can instantiate: the first access adds one field named
      after the module and initializes it with `new`. */
  method SelfConstructedModule() returns (e: Expr, fields: seq<FieldSpec>, inits: seq<Stmt>)
    ensures e == LocalFieldRef("moduleX")
    ensures fields == [FieldSpec("ModuleX", "moduleX", Private)]
    ensures inits == [AssignField("moduleX", NewInstance("ModuleX"))]
  {
    var moduleX := ComponentRequirement(Module, "ModuleX", "moduleX");
    var root := new ComponentImplementation("Root", null, None);
    var resolver := new ComponentRequirementFields(BindingGraph({moduleX}, None, map[]), root);
    var r := resolver.GetExpression(moduleX, "Root");
    e := r.value;
    fields, inits := root.fields, root.initializations;
  }

  /** A builder-backed requirement of the root: read from the builder during the root's own
      initialization (no field yet); a later access from a child component creates the field on
      the root, initialized from the builder, and the child reads it through the root. */
  method BuilderFieldFromChild()
    returns (duringInit: Expr, fieldsBefore: seq<FieldSpec>, fromChild: Expr,
             rootFields: seq<FieldSpec>, rootInits: seq<Stmt>, childFields: seq<FieldSpec>,
             childInits: seq<Stmt>)
    ensures duringInit == BuilderFieldRef("config") && fieldsBefore == []
    ensures fromChild == OwnerQualifiedFieldRef("Root", "cfg")
    ensures rootFields == [FieldSpec("Config", "cfg", Private)]
    ensures rootInits == [AssignField("cfg", BuilderFieldRef("config"))]
    ensures childFields == [] && childInits == []
  {
    var cfg := ComponentRequirement(Dependency, "Config", "cfg");
    var builder := CreatorImplementation(map[cfg := "config"]);
    var root := new ComponentImplementation("Root", null, Some(builder));
    var rootResolver := new ComponentRequirementFields(BindingGraph({cfg}, None, map[]), root);
    assert rootResolver.Owner(cfg) == Some(rootResolver);
    var r := rootResolver.GetExpressionDuringInitialization(cfg, "Root");
    duringInit, fieldsBefore := r.value, root.fields;
    var child := new ComponentImplementation("Child", null, None);
    var childResolver := rootResolver.ForChildComponent(BindingGraph({}, None, map[]), child);
    assert childResolver.Owner(cfg) == Some(rootResolver);
    assert child !in childResolver.Footprint(cfg);
    r := childResolver.GetExpression(cfg, "Child");
    fromChild := r.value;
    rootFields, rootInits, childFields := root.fields, root.initializations, child.fields;
    childInits := child.initializations;
  }

  /** A factory-method parameter: the field is initialized through a null check, and a second
      lookup returns the same strategy and adds nothing. */
  method FactoryParameter()
    returns (first: Expr, second: Expr, sameStrategy: bool, fields: seq<FieldSpec>, inits: seq<Stmt>)
    ensures first == LocalFieldRef("dep") && second == first && sameStrategy
    ensures fields == [FieldSpec("Dep", "dep", Private)]
    ensures inits == [AssignField("dep", CheckNotNull("depParam"))]
  {
    var dep := ComponentRequirement(Dependency, "Dep", "dep");
    var root := new ComponentImplementation("Root", null, None);
    var graph := BindingGraph({dep}, Some("create"), map[dep := "depParam"]);
    var resolver := new ComponentRequirementFields(graph, root);
    var f1 := resolver.GetField(dep);
    var e1 := f1.value.GetExpression("Root");
    var f2 := resolver.GetField(dep);
    var e2 := f2.value.GetExpression("Root");
    first, second, sameStrategy := e1, e2, f1.value == f2.value;
    fields, inits := root.fields, root.initializations;
  }

  /** A builder of the base implementation takes precedence over the component's own builder, and
      over a factory parameter for the same requirement. */
  method BaseImplementationCreatorPreferred()
    returns (duringInit: Expr, fields: seq<FieldSpec>, inits: seq<Stmt>)
    ensures duringInit == BuilderFieldRef("baseField")
    ensures fields == [FieldSpec("Value", "value", Private)]
    ensures inits == [AssignField("value", BuilderFieldRef("baseField"))]
  {
    var value := ComponentRequirement(BoundInstance, "Value", "value");
    var base := new ComponentImplementation("Base", null, Some(CreatorImplementation(map[value := "baseField"])));
    var component := new ComponentImplementation("Impl", base, Some(CreatorImplementation(map[value := "ownField"])));
    var graph := BindingGraph({value}, Some("create"), map[value := "valueParam"]);
    var resolver := new ComponentRequirementFields(graph, component);
    var r := resolver.GetExpressionDuringInitialization(value, "Impl");
    duringInit := r.value;
    var s := resolver.GetExpression(value, "Impl");
    fields, inits := component.fields, component.initializations;
  }

  /** A requirement that no resolver from the child up to the root owns: neither component
      gains a field. */
  method UnownedRequirement() returns (r: Outcome<Expr>, rootFields: seq<FieldSpec>, childFields: seq<FieldSpec>)
    ensures r == Fail(NoFieldFound(ComponentRequirement(Module, "Other", "other")))
    ensures rootFields == [] && childFields == []
  {
    var other := ComponentRequirement(Module, "Other", "other");
    var m := ComponentRequirement(Module, "M", "m");
    var root := new ComponentImplementation("Root", null, None);
    var rootResolver := new ComponentRequirementFields(BindingGraph({m}, None, map[]), root);
    var child := new ComponentImplementation("Child", null, None);
    var childResolver := rootResolver.ForChildComponent(BindingGraph({}, None, map[]), child);
    assert childResolver.Owner(other) == None;
    r := childResolver.GetExpression(other, "Child");
    rootFields, childFields := root.fields, child.fields;
  }

  /** A dependency owned by the root that no strategy fits (no creator, no factory method, not a
      module): the root's component stays empty. */
  method UncreatableRequirement() returns (r: Outcome<Expr>, fields: seq<FieldSpec>)
    ensures r == Fail(CannotCreate(ComponentRequirement(Dependency, "Dep", "dep"), "Root"))
    ensures fields == []
  {
    var dep := ComponentRequirement(Dependency, "Dep", "dep");
    var root := new ComponentImplementation("Root", null, None);
    var rootResolver := new ComponentRequirementFields(BindingGraph({dep}, None, map[]), root);
    var child := new ComponentImplementation("Child", null, None);
    var childResolver := rootResolver.ForChildComponent(BindingGraph({}, None, map[]), child);
    assert childResolver.Owner(dep) == Some(rootResolver);
    r := childResolver.GetExpression(dep, "Child");
    fields := root.fields;
  }

  /** A module owned by a component whose creator has no builder field for it: the null check on
      the builder field fails, even though the module could be instantiated. */
  method MissingBuilderField() returns (r: Outcome<Expr>, fields: seq<FieldSpec>)
    ensures r == Fail(NullBuilderField(ComponentRequirement(Module, "M", "m")))
    ensures fields == []
  {
    var m := ComponentRequirement(Module, "M", "m");
    var root := new ComponentImplementation("Root", null, Some(CreatorImplementation(map[])));
    var resolver := new ComponentRequirementFields(BindingGraph({m}, None, map[]), root);
    assert resolver.Owner(m) == Some(resolver);
    r := resolver.GetExpression(m, "Root");
    fields := root.fields;
  }

  /** Two modules of the root requested in turn, then the first again: the second request leaves
      the first strategy in place, so the third reuses its field and adds nothing. */
  method InterleavedRequests()
    returns (first: Expr, second: Expr, third: Expr, fields: seq<FieldSpec>, inits: seq<Stmt>)
    ensures first == LocalFieldRef("a") && second == LocalFieldRef("b") && third == first
    ensures fields == [FieldSpec("A", "a", Private), FieldSpec("B", "b", Private)]
    ensures inits == [AssignField("a", NewInstance("A")), AssignField("b", NewInstance("B"))]
  {
    var a := ComponentRequirement(Module, "A", "a");
    var resolver, root;
    resolver, root, first, second := RequestTwoModules();
    ghost var fa := resolver.cache[a];
    assert resolver.Owner(a) == Some(resolver) && resolver.Memo(a).Some?;
    assert resolver.Footprint(a) == {resolver, root, fa};
    ghost var fieldsBefore, initsBefore := root.fields, root.initializations;
    var r := resolver.GetExpression(a, "Root");
    third := r.value;
    assert root.fields == fieldsBefore && root.initializations == initsBefore;
    fields, inits := root.fields, root.initializations;
  }

  /** The first two requests of `InterleavedRequests`, on a fresh root resolver. */
  method RequestTwoModules()
    returns (resolver: ComponentRequirementFields, root: ComponentImplementation, first: Expr, second: Expr)
    ensures fresh(resolver) && fresh(root)
    ensures resolver.parent == null && resolver.Rooted() && resolver.ChainValid()
    ensures resolver.componentImplementation == root && root.name == "Root"
    ensures resolver.graph == BindingGraph({ComponentRequirement(Module, "A", "a"),
                                            ComponentRequirement(Module, "B", "b")}, None, map[])
    ensures ComponentRequirement(Module, "A", "a") in resolver.cache
    ensures resolver.cache[ComponentRequirement(Module, "A", "a")].field == Some(LocalField("Root", "a"))
    ensures first == LocalFieldRef("a") && second == LocalFieldRef("b")
    ensures root.fields == [FieldSpec("A", "a", Private), FieldSpec("B", "b", Private)]
    ensures root.initializations == [AssignField("a", NewInstance("A")), AssignField("b", NewInstance("B"))]
  {
    var a := ComponentRequirement(Module, "A", "a");
    var b := ComponentRequirement(Module, "B", "b");
    root := new ComponentImplementation("Root", null, None);
    resolver := new ComponentRequirementFields(BindingGraph({a, b}, None, map[]), root);
    assert resolver.Owner(a) == Some(resolver) && resolver.Owner(b) == Some(resolver);
    assert resolver.Chain() == {resolver};
    var r := resolver.GetExpression(a, "Root");
    first := r.value;
    ghost var fa := resolver.cache[a];
    assert fa.field == Some(LocalField("Root", "a")) && resolver.Footprint(b) == {resolver, root};
    r := resolver.GetExpression(b, "Root");
    second := r.value;
    assert resolver.OwnerCache(b) == resolver.cache && a != b;
    assert resolver.cache[a] == fa;
  }
}
