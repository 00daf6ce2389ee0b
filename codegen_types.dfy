/** Values the component-requirement resolver consumes and produces: requirements, graph views,
    creator implementations, and abstract stand-ins for the generated code (field declarations,
    expressions, statements) that the code generator would later render as Java text. */
module CodegenTypes {

  type ClassName = string
  type TypeName = string
  type FieldName = string
  type ParameterName = string

  datatype Option<T> = None | Some(value: T)

  /** The kind of a component requirement: a component dependency, a module, or an instance bound
      through the component's creator. */
  datatype RequirementKind = Dependency | Module | BoundInstance
  {
    predicate IsModule() { this == Module }
  }

  /** A value or module instance that a component needs in order to be built. Equality is
      structural, as for the value class it stands for. */
  datatype ComponentRequirement = ComponentRequirement(
    kind: RequirementKind,
    typeName: TypeName,
    variableName: string)

  /** The part of a component's binding graph the resolver queries: the requirements the component
      owns, and its factory method (if any) with the parameter that supplies each requirement. */
  datatype BindingGraph = BindingGraph(
    componentRequirements: set<ComponentRequirement>,
    factoryMethod: Option<string>,
    factoryMethodParameters: map<ComponentRequirement, ParameterName>)

  /** A generated component builder or factory: the builder field that holds each requirement.
      A requirement missing from the map is a `get` that returns null. */
  datatype CreatorImplementation = CreatorImplementation(
    builderFields: map<ComponentRequirement, FieldName>)

  datatype Modifier = Private

  /** A field declaration added to a generated component. */
  datatype FieldSpec = FieldSpec(typeName: TypeName, name: FieldName, modifier: Modifier)

  /** Generated expressions, abstractly. */
  datatype Expr =
    | BuilderFieldRef(builderField: FieldName)                   // builder.<builderField>
    | LocalFieldRef(field: FieldName)                            // <field>, inside its owner
    | OwnerQualifiedFieldRef(owner: ClassName, field: FieldName) // <Owner>.this.<field>
    | NewInstance(typeName: TypeName)                            // new <Type>()
    | CheckNotNull(parameter: ParameterName)                     // Preconditions.checkNotNull(<parameter>)

  /** A generated initialization statement: `this.<field> = <value>;`. */
  datatype Stmt = AssignField(field: FieldName, value: Expr)

  /** A reference to a field declared on the component class `owner`. */
  datatype MemberSelect = LocalField(owner: ClassName, field: FieldName)

  /** The expression by which `requestingClass` reads the field `m`: directly when it is the owner
      itself, and qualified by the owner otherwise (a nested subcomponent reaching its ancestor). */
  function ExpressionFor(m: MemberSelect, requestingClass: ClassName): (e: Expr)
    ensures e == LocalFieldRef(m.field) <==> requestingClass == m.owner
    ensures requestingClass != m.owner ==> e == OwnerQualifiedFieldRef(m.owner, m.field)
  {
    if requestingClass == m.owner then LocalFieldRef(m.field) else OwnerQualifiedFieldRef(m.owner, m.field)
  }

  /** Failures of resolution. The first two are Dagger's IllegalStateException and
      AssertionError; the third is the null check on a builder field that is not there. */
  datatype Failure =
    | NoFieldFound(requirement: ComponentRequirement)
    | CannotCreate(requirement: ComponentRequirement, component: ClassName)
    | NullBuilderField(requirement: ComponentRequirement)

  datatype Outcome<T> = Ok(value: T) | Fail(error: Failure)
}
