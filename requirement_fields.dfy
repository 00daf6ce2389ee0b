/** How generated code reaches a component requirement: the strategy chosen for it, the field that
    strategy adds to its owning component on first use, and the per-component resolver that caches
    one strategy per owned requirement and delegates everything else to its parent. */
module RequirementFields {
  import opened CodegenTypes
  import opened Components

  /** The three ways a requirement can be reached. */
  datatype Variant =
    | BuilderField(builderField: FieldName)           // passed in through the component builder
    | ComponentInstantiableField                      // constructed by the component itself
    | ComponentParameterField(factoryParameter: ParameterName) // a factory-method argument

  /** The creator implementation strategy selection uses: the base implementation's creator when
      there is one, else the component's own. */
  function CreatorImplementationOf(c: ComponentImplementation): (o: Option<CreatorImplementation>)
    ensures c.baseImplementation != null && c.baseImplementation.creatorImplementation.Some? ==>
              o == c.baseImplementation.creatorImplementation
    ensures (c.baseImplementation == null || c.baseImplementation.creatorImplementation.None?) ==>
              o == c.creatorImplementation
    // present exactly when either of the two is present
    ensures o.Some? <==> (c.baseImplementation != null && c.baseImplementation.creatorImplementation.Some?) ||
                         c.creatorImplementation.Some?
  {
    if c.baseImplementation != null && c.baseImplementation.creatorImplementation.Some?
    then c.baseImplementation.creatorImplementation
    else c.creatorImplementation
  }

  /** Strategy selection for a requirement owned by the component `c` whose graph is `graph`. */
  function Create(requirement: ComponentRequirement, graph: BindingGraph, c: ComponentImplementation)
    : (r: Outcome<Variant>)
    // the base implementation's creator wins over the component's own
    ensures c.baseImplementation != null && c.baseImplementation.creatorImplementation.Some? ==>
              (r.Ok? && r.value.BuilderField? <==>
                 requirement in c.baseImplementation.creatorImplementation.value.builderFields)
    ensures c.baseImplementation != null && c.baseImplementation.creatorImplementation.Some? &&
            requirement in c.baseImplementation.creatorImplementation.value.builderFields ==>
              r == Ok(BuilderField(c.baseImplementation.creatorImplementation.value.builderFields[requirement]))
    // with any creator present, the builder field is the only possible strategy
    ensures r.Ok? && r.value.BuilderField? <==>
              CreatorImplementationOf(c).Some? && requirement in CreatorImplementationOf(c).value.builderFields
    ensures r.Ok? && r.value.BuilderField? ==>
              r.value.builderField == CreatorImplementationOf(c).value.builderFields[requirement]
    ensures CreatorImplementationOf(c).Some? && requirement !in CreatorImplementationOf(c).value.builderFields ==>
              r == Fail(NullBuilderField(requirement))
    // then a factory-method parameter
    ensures r.Ok? && r.value.ComponentParameterField? <==>
              CreatorImplementationOf(c).None? && graph.factoryMethod.Some? &&
              requirement in graph.factoryMethodParameters
    ensures r.Ok? && r.value.ComponentParameterField? ==>
              r.value.factoryParameter == graph.factoryMethodParameters[requirement]
    // then a module the component can instantiate
    ensures r.Ok? && r.value.ComponentInstantiableField? <==>
              CreatorImplementationOf(c).None? &&
              !(graph.factoryMethod.Some? && requirement in graph.factoryMethodParameters) &&
              requirement.kind.IsModule()
    // anything else cannot be created
    ensures r.Fail? && CreatorImplementationOf(c).None? ==> r.error == CannotCreate(requirement, c.name)
  {
    var creator := CreatorImplementationOf(c);
    if creator.Some? then
      if requirement in creator.value.builderFields
      then Ok(BuilderField(creator.value.builderFields[requirement]))
      else Fail(NullBuilderField(requirement))
    else if graph.factoryMethod.Some? && requirement in graph.factoryMethodParameters then
      Ok(ComponentParameterField(graph.factoryMethodParameters[requirement]))
    else if requirement.kind.IsModule() then
      Ok(ComponentInstantiableField)
    else
      Fail(CannotCreate(requirement, c.name))
  }

  /** The statement each variant uses to initialize the new component field `componentField`. */
  function FieldInitialization(variant: Variant, componentField: FieldSpec): (s: Stmt)
    ensures s.field == componentField.name
    ensures variant.BuilderField? ==> s.value == BuilderFieldRef(variant.builderField)
    ensures variant.ComponentInstantiableField? ==> s.value == NewInstance(componentField.typeName)
    ensures variant.ComponentParameterField? ==> s.value == CheckNotNull(variant.factoryParameter)
  {
    match variant
    case BuilderField(b) => AssignField(componentField.name, BuilderFieldRef(b))
    case ComponentInstantiableField => AssignField(componentField.name, NewInstance(componentField.typeName))
    case ComponentParameterField(p) => AssignField(componentField.name, CheckNotNull(p))
  }

  /** The access strategy for one requirement of one component. Its field is created on first
      use and then reused. */
  class RequirementField {
    const requirement: ComponentRequirement
    const componentImplementation: ComponentImplementation
    const variant: Variant
    /** The memoized field, unset until the first access. */
    var field: Option<MemberSelect>

    /** A memoized field always belongs to the owning component. */
    ghost predicate Valid()
      reads this
    {
      field.Some? ==> field.value.owner == componentImplementation.name
    }

    constructor (requirement: ComponentRequirement, componentImplementation: ComponentImplementation,
                 variant: Variant)
      ensures this.requirement == requirement && this.variant == variant
      ensures this.componentImplementation == componentImplementation
      ensures field == None && Valid()
    {
      this.requirement := requirement;
      this.componentImplementation := componentImplementation;
      this.variant := variant;
      field := None;
    }

    /** `e` is the access expression for `requestingClass` after one access: the memo was set by
        this access (one field and one initialization appended to the component) or was already
        set (the component is as it was). `field0`, `fields0` and `inits0` describe the state
        before the access. */
    ghost predicate Accessed(field0: Option<MemberSelect>, fields0: seq<FieldSpec>, inits0: seq<Stmt>,
                             requestingClass: ClassName, e: Expr)
      reads this, componentImplementation
    {
      field.Some? && field.value.owner == componentImplementation.name &&
      e == ExpressionFor(field.value, requestingClass) &&
      if field0.Some? then
        field == field0 &&
        componentImplementation.fields == fields0 && componentImplementation.initializations == inits0
      else
        var spec := FieldSpec(requirement.typeName, field.value.field, Private);
        spec.name !in FieldNames(fields0) &&
        requirement.variableName <= spec.name &&
        (requirement.variableName !in FieldNames(fields0) ==> spec.name == requirement.variableName) &&
        componentImplementation.fields == fields0 + [spec] &&
        componentImplementation.initializations == inits0 + [FieldInitialization(variant, spec)]
    }

    /** Adds the private field and its initialization to the owning component. */
    method CreateField() returns (m: MemberSelect)
      modifies componentImplementation
      ensures m.owner == componentImplementation.name
      ensures var spec := FieldSpec(requirement.typeName, m.field, Private);
              spec.name !in FieldNames(old(componentImplementation.fields)) &&
              requirement.variableName <= spec.name &&
              (requirement.variableName !in FieldNames(old(componentImplementation.fields)) ==>
                 spec.name == requirement.variableName) &&
              componentImplementation.fields == old(componentImplementation.fields) + [spec] &&
              componentImplementation.initializations ==
                old(componentImplementation.initializations) + [FieldInitialization(variant, spec)]
    {
      var fieldName := componentImplementation.GetUniqueFieldName(requirement.variableName);
      var spec := FieldSpec(requirement.typeName, fieldName, Private);
      componentImplementation.AddField(spec);
      componentImplementation.AddInitialization(FieldInitialization(variant, spec));
      m := LocalField(componentImplementation.name, fieldName);
    }

    method GetExpression(requestingClass: ClassName) returns (e: Expr)
      requires Valid()
      modifies this, componentImplementation
      ensures Valid()
      ensures Accessed(old(field), old(componentImplementation.fields),
                       old(componentImplementation.initializations), requestingClass, e)
    {
      if field.None? {
        var m := CreateField();
        field := Some(m);
      }
      e := ExpressionFor(field.value, requestingClass);
    }

    /** During the owning component's own initialization a builder-backed requirement is read
        straight from the builder, without creating the field; everything else is `GetExpression`. */
    method GetExpressionDuringInitialization(requestingClass: ClassName) returns (e: Expr)
      requires Valid()
      modifies this, componentImplementation
      ensures Valid()
      ensures if variant.BuilderField? && componentImplementation.name == requestingClass
              then e == BuilderFieldRef(variant.builderField) && field == old(field) &&
                   unchanged(componentImplementation)
              else Accessed(old(field), old(componentImplementation.fields),
                            old(componentImplementation.initializations), requestingClass, e)
    {
      if variant.BuilderField? && componentImplementation.name == requestingClass {
        e := BuilderFieldRef(variant.builderField);
      } else {
        e := GetExpression(requestingClass);
      }
    }
  }

  /** The resolver of one component: its graph, its generated class, its parent's resolver, and
      the cache of strategies for the requirements it owns. */
  class ComponentRequirementFields {
    const parent: ComponentRequirementFields?
    const graph: BindingGraph
    const componentImplementation: ComponentImplementation
    /** Distance to the root resolver; it makes the parent chain finite. */
    ghost const depth: nat
    var cache: map<ComponentRequirement, RequirementField>

    /** The parent chain ends at a root. */
    ghost predicate Rooted()
      decreases depth
    {
      parent == null || (parent.depth < depth && parent.Rooted())
    }

    /** This resolver and all its ancestors. */
    ghost function Chain(): set<ComponentRequirementFields>
      requires Rooted()
      decreases depth
    {
      {this} + if parent == null then {} else parent.Chain()
    }

    /** Every resolver of the chain exists in the current heap. */
    lemma {:induction false} ChainAllocated()
      requires Rooted()
      decreases depth
      ensures forall x :: x in Chain() ==> allocated(x)
    {
      if parent != null {
        parent.ChainAllocated();
      }
    }

    /** The chain is closed under taking ancestors, and depth strictly decreases along it, so no
        resolver is its own ancestor. */
    lemma {:induction false} ChainShape(x: ComponentRequirementFields)
      requires Rooted() && x in Chain()
      decreases depth
      ensures x.Rooted() && x.Chain() <= Chain() && x.depth <= depth
      ensures x != this ==> x.depth < depth
    {
      if x != this {
        parent.ChainShape(x);
      }
    }

    /** No resolver of the chain is deeper than this one. */
    lemma {:induction false} DepthBound()
      requires Rooted()
      decreases depth
      ensures forall y :: y in Chain() ==> y.depth <= depth
    {
      if parent != null {
        parent.DepthBound();
      }
    }

    /** The nearest resolver, from this one up, whose graph owns `requirement`. */
    ghost function Owner(requirement: ComponentRequirement): (o: Option<ComponentRequirementFields>)
      requires Rooted()
      decreases depth
      ensures o.Some? ==> o.value in Chain() && o.value.Rooted() &&
                          requirement in o.value.graph.componentRequirements
      ensures o.None? <==> forall x :: x in Chain() ==> requirement !in x.graph.componentRequirements
      // the nearest one: this resolver when it owns the requirement, and none strictly below the owner
      ensures requirement in graph.componentRequirements ==> o == Some(this)
      ensures o.Some? ==> forall x :: x in Chain() && x !in o.value.Chain() ==>
                            requirement !in x.graph.componentRequirements
    {
      if requirement in graph.componentRequirements then Some(this)
      else if parent == null then None
      else parent.Owner(requirement)
    }

    /** What a lookup of `requirement` produces, whatever the caches hold. */
    ghost function Resolve(requirement: ComponentRequirement): (r: Outcome<Variant>)
      requires Rooted()
      ensures r == Fail(NoFieldFound(requirement)) <==> Owner(requirement).None?
    {
      match Owner(requirement)
      case None => Fail(NoFieldFound(requirement))
      case Some(o) => Create(requirement, o.graph, o.componentImplementation)
    }

    /** Asking a descendant resolves exactly as asking an ancestor `a` does, when no resolver
        between the two owns the requirement. */
    lemma {:induction false} DelegatesToAncestor(a: ComponentRequirementFields, requirement: ComponentRequirement)
      requires Rooted() && a.Rooted() && a in Chain()
      requires forall x :: x in Chain() && x !in a.Chain() ==> requirement !in x.graph.componentRequirements
      decreases depth
      ensures Owner(requirement) == a.Owner(requirement)
      ensures Resolve(requirement) == a.Resolve(requirement)
    {
      if a != this {
        ChainShape(a);
        a.DepthBound();
        parent.DelegatesToAncestor(a, requirement);
      }
    }

    /** The owning resolver, the only object a lookup of `requirement` may change. */
    ghost function OwnerSet(requirement: ComponentRequirement): set<object>
      requires Rooted()
    {
      match Owner(requirement)
      case None => {}
      case Some(o) => {o}
    }

    /** What an access of `requirement` may change: the owner's cache, the owner's component and
        the strategy already cached for it. */
    ghost function Footprint(requirement: ComponentRequirement): set<object>
      requires Rooted()
      reads Chain()
    {
      match Owner(requirement)
      case None => {}
      case Some(o) =>
        {o, o.componentImplementation} +
        if requirement in o.cache then {o.cache[requirement]} else {}
    }

    /** The memoized field of the strategy cached for `requirement`, if any. */
    ghost function Memo(requirement: ComponentRequirement): Option<MemberSelect>
      requires Rooted()
      reads Chain(), Footprint(requirement)
    {
      match Owner(requirement)
      case None => None
      case Some(o) => if requirement in o.cache then o.cache[requirement].field else None
    }

    /** The owner's cache (empty when there is no owner). */
    ghost function OwnerCache(requirement: ComponentRequirement): map<ComponentRequirement, RequirementField>
      requires Rooted()
      reads Chain()
    {
      match Owner(requirement)
      case None => map[]
      case Some(o) => o.cache
    }

    /** The fields of the owner's component (empty when there is no owner). */
    ghost function OwnerFields(requirement: ComponentRequirement): seq<FieldSpec>
      requires Rooted()
      reads Chain(), Footprint(requirement)
    {
      match Owner(requirement)
      case None => []
      case Some(o) => o.componentImplementation.fields
    }

    /** The initializations of the owner's component (empty when there is no owner). */
    ghost function OwnerInitializations(requirement: ComponentRequirement): seq<Stmt>
      requires Rooted()
      reads Chain(), Footprint(requirement)
    {
      match Owner(requirement)
      case None => []
      case Some(o) => o.componentImplementation.initializations
    }

    /** Every cached strategy belongs to an owned requirement, to this component, and is the one
        strategy selection picks. */
    ghost predicate CacheValid()
      reads this, cache.Values
    {
      forall r :: r in cache ==>
        r in graph.componentRequirements &&
        cache[r].Valid() &&
        cache[r].requirement == r &&
        cache[r].componentImplementation == componentImplementation &&
        Create(r, graph, componentImplementation) == Ok(cache[r].variant)
    }

    /** Every strategy cached anywhere along the chain. */
    ghost function Strategies(): set<RequirementField>
      requires Rooted()
      reads Chain()
    {
      set x, r | x in Chain() && r in x.cache :: x.cache[r]
    }

    ghost predicate ChainValid()
      requires Rooted()
      reads Chain(), Strategies()
    {
      forall x :: x in Chain() ==> x.CacheValid()
    }

    constructor (graph: BindingGraph, componentImplementation: ComponentImplementation)
      ensures parent == null && this.graph == graph
      ensures this.componentImplementation == componentImplementation
      ensures cache == map[]
      ensures Rooted() && ChainValid()
    {
      parent := null;
      this.graph := graph;
      this.componentImplementation := componentImplementation;
      depth := 0;
      cache := map[];
    }

    constructor Child(parent: ComponentRequirementFields, graph: BindingGraph,
                      componentImplementation: ComponentImplementation)
      requires parent.Rooted()
      ensures this.parent == parent && this.graph == graph
      ensures this.componentImplementation == componentImplementation
      ensures cache == map[]
      ensures Rooted()
    {
      this.parent := parent;
      this.graph := graph;
      this.componentImplementation := componentImplementation;
      depth := parent.depth + 1;
      cache := map[];
    }

    /** A resolver for a child component of this one; this resolver is its parent. */
    method ForChildComponent(graph: BindingGraph, componentImplementation: ComponentImplementation)
      returns (child: ComponentRequirementFields)
      requires Rooted()
      ensures fresh(child)
      ensures child.parent == this && child.graph == graph
      ensures child.componentImplementation == componentImplementation
      ensures child.cache == map[]
      ensures child.Rooted() && child.Chain() == {child} + Chain()
      ensures ChainValid() ==> child.ChainValid()
    {
      child := new ComponentRequirementFields.Child(this, graph, componentImplementation);
    }

    /** The strategy for `requirement`, created and cached by its owning resolver on first lookup. */
    method GetField(requirement: ComponentRequirement) returns (r: Outcome<RequirementField>)
      requires Rooted() && ChainValid()
      modifies OwnerSet(requirement)
      decreases depth
      ensures ChainValid()
      ensures r.Fail? <==> Resolve(requirement).Fail?
      ensures r.Fail? ==> r.error == Resolve(requirement).error
      ensures r.Ok? ==>
                requirement in OwnerCache(requirement) && OwnerCache(requirement)[requirement] == r.value &&
                r.value.variant == Resolve(requirement).value
      ensures Owner(requirement) != Some(this) ==> cache == old(cache)
      ensures if requirement in old(OwnerCache(requirement)) || r.Fail?
              then OwnerCache(requirement) == old(OwnerCache(requirement))
              else fresh(r.value) && r.value.field.None? &&
                   OwnerCache(requirement) == old(OwnerCache(requirement))[requirement := r.value]
    {
      ChainAllocated();
      if requirement in graph.componentRequirements {
        if requirement in cache {
          r := Ok(cache[requirement]);
        } else {
          var created := Create(requirement, graph, componentImplementation);
          match created
          case Ok(v) =>
            var f := new RequirementField(requirement, componentImplementation, v);
            cache := cache[requirement := f];
            r := Ok(f);
            assert CacheValid();
            forall x | x in Chain() ensures x.CacheValid() {
              if x != this {
                assert old(x.CacheValid());
                assert x.cache == old(x.cache);
              }
            }
          case Fail(e) =>
            r := Fail(e);
        }
      } else if parent != null {
        r := parent.GetField(requirement);
      } else {
        r := Fail(NoFieldFound(requirement));
      }
    }

    /** The expression for `requirement` outside the initialize methods; creates the owner's
        field on first use. */
    method GetExpression(requirement: ComponentRequirement, requestingClass: ClassName)
      returns (r: Outcome<Expr>)
      requires Rooted() && ChainValid()
      modifies Footprint(requirement)
      ensures ChainValid()
      ensures r.Fail? <==> Resolve(requirement).Fail?
      ensures r.Fail? ==> r.error == Resolve(requirement).error
      ensures r.Fail? ==>
                OwnerCache(requirement) == old(OwnerCache(requirement)) &&
                OwnerFields(requirement) == old(OwnerFields(requirement)) &&
                OwnerInitializations(requirement) == old(OwnerInitializations(requirement))
      // the owner's cache only gains this requirement's strategy, created fresh when absent
      ensures r.Ok? ==>
                requirement in OwnerCache(requirement) &&
                OwnerCache(requirement) ==
                  old(OwnerCache(requirement))[requirement := OwnerCache(requirement)[requirement]] &&
                (requirement !in old(OwnerCache(requirement)) ==> fresh(OwnerCache(requirement)[requirement]))
      ensures r.Ok? ==>
                (requirement in old(OwnerCache(requirement)) ==>
                   OwnerCache(requirement)[requirement] == old(OwnerCache(requirement))[requirement]) &&
                OwnerCache(requirement)[requirement].Accessed(old(Memo(requirement)),
                  old(OwnerFields(requirement)), old(OwnerInitializations(requirement)),
                  requestingClass, r.value)
    {
      ChainAllocated();
      var f := GetField(requirement);
      label Looked:
      match f
      case Fail(e) =>
        r := Fail(e);
      case Ok(field) =>
        var o := Owner(requirement).value;
        assert o.CacheValid();
        assert field.Valid() && field.componentImplementation == o.componentImplementation;
        var e := field.GetExpression(requestingClass);
        r := Ok(e);
        forall x | x in Chain() ensures x.CacheValid() {
          assert x.cache == old@Looked(x.cache);
        }
    }

    /** The expression for `requirement` inside the initialize methods, where the builder of the
        requesting component is in scope. */
    method GetExpressionDuringInitialization(requirement: ComponentRequirement, requestingClass: ClassName)
      returns (r: Outcome<Expr>)
      requires Rooted() && ChainValid()
      modifies Footprint(requirement)
      ensures ChainValid()
      ensures r.Fail? <==> Resolve(requirement).Fail?
      ensures r.Fail? ==> r.error == Resolve(requirement).error
      ensures r.Fail? ==>
                OwnerCache(requirement) == old(OwnerCache(requirement)) &&
                OwnerFields(requirement) == old(OwnerFields(requirement)) &&
                OwnerInitializations(requirement) == old(OwnerInitializations(requirement))
      // the owner's cache only gains this requirement's strategy, created fresh when absent
      ensures r.Ok? ==>
                requirement in OwnerCache(requirement) &&
                OwnerCache(requirement) ==
                  old(OwnerCache(requirement))[requirement := OwnerCache(requirement)[requirement]] &&
                (requirement !in old(OwnerCache(requirement)) ==> fresh(OwnerCache(requirement)[requirement]))
      ensures r.Ok? ==>
                (requirement in old(OwnerCache(requirement)) ==>
                   OwnerCache(requirement)[requirement] == old(OwnerCache(requirement))[requirement]) &&
                var f := OwnerCache(requirement)[requirement];
                if f.variant.BuilderField? && f.componentImplementation.name == requestingClass
                then r.value == BuilderFieldRef(f.variant.builderField) &&
                     f.field == old(Memo(requirement)) &&
                     OwnerFields(requirement) == old(OwnerFields(requirement)) &&
                     OwnerInitializations(requirement) == old(OwnerInitializations(requirement))
                else f.Accessed(old(Memo(requirement)),
                       old(OwnerFields(requirement)), old(OwnerInitializations(requirement)),
                       requestingClass, r.value)
    {
      ChainAllocated();
      var f := GetField(requirement);
      label Looked:
      match f
      case Fail(e) =>
        r := Fail(e);
      case Ok(field) =>
        var o := Owner(requirement).value;
        assert o.CacheValid();
        assert field.Valid() && field.componentImplementation == o.componentImplementation;
        var e := field.GetExpressionDuringInitialization(requestingClass);
        r := Ok(e);
        forall x | x in Chain() ensures x.CacheValid() {
          assert x.cache == old@Looked(x.cache);
        }
    }
  }
}
