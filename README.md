# Component requirement fields, modelled in Dafny

Dagger's code generator emits one class per component, and components nest. A component needs
*component requirements*: modules and dependency instances handed to it from outside or built by
the component itself. `ComponentRequirementFields` answers how generated code reaches such a
requirement. Each component has one resolver. A resolver answers for the requirements its own
binding graph owns and asks its parent resolver about everything else. For each owned requirement
it caches one access strategy. That strategy adds a private field and its initialization statement
to the owning component the first time the requirement is read. The exception is a builder-backed
requirement read by its own component during initialization: that read takes `builder.<field>`
directly and adds nothing. The strategy reuses the field afterwards.

The model has four modules:

- `CodegenTypes` (`codegen_types.dfy`) holds the values. These are requirements, the graph view
  (owned requirements, factory method and its parameters), creator implementations (builder field
  per requirement), and abstract datatypes for the generated field declarations, expressions and
  statements.
- `Components` (`component_implementation.dfy`) holds the class `ComponentImplementation`. It is
  the generated component class: a name, an optional base implementation, an optional creator, and
  the `fields` and `initializations` sequences that grow as requirements are materialized.
- `RequirementFields` (`requirement_fields.dfy`) is the core. `Create` is strategy selection.
  `FieldInitialization` gives each variant's initialization statement. The class `RequirementField`
  is the memoizing strategy (the abstract base plus its three variants, told apart by a `Variant`
  datatype). The class `ComponentRequirementFields` is the resolver: a const parent link, graph and
  component, and a mutable `cache` map. The parent chain is finite: a ghost `depth` shrinks along
  it (`Rooted`). `Owner` is the nearest resolver up the chain that owns a requirement. `Resolve` is
  the outcome a lookup must have, whatever the caches hold. The cache invariant (`CacheValid`,
  `ChainValid`) says that every cached strategy belongs to an owned requirement and to this
  component, and that it is the strategy `Create` selects.
- `Scenarios` (`scenarios.dfy`) holds client methods. They build small component trees and state
  the results and the contents of the components each scenario is about.

The Java exceptions are `Fail` values of an `Outcome` datatype:
- `IllegalStateException` (no owner) is `NoFieldFound`;
- `AssertionError` (no strategy fits) is `CannotCreate`;
- the null check on a missing builder field is `NullBuilderField`.

The builder branch is taken as soon as a creator implementation exists. If that creator has no
field for the requirement, the null check fails even when a factory parameter or module
instantiation would fit (`Create`, `Scenarios.MissingBuilderField`).

## Model

| member | source | states |
|---|---|---|
| `CodegenTypes.ExpressionFor` | java/dagger/internal/codegen/ComponentRequirementFields.java:139 | Reading the memoized member from its owning class is a plain field reference, exactly when the requesting class is the owner. From any other class it is qualified by the owner. |
| `Components.ComponentImplementation.GetUniqueFieldName` | java/dagger/internal/codegen/ComponentRequirementFields.java:150-151 | The name returned is used by no field of the component. It extends the suggested variable name, and it is the suggestion itself whenever that is still free. |
| `Components.ComponentImplementation.AddField` | java/dagger/internal/codegen/ComponentRequirementFields.java:154 | The field is appended to the component's fields. Initializations are unchanged. |
| `Components.ComponentImplementation.AddInitialization` | java/dagger/internal/codegen/ComponentRequirementFields.java:155 | The statement is appended to the component's initializations. Fields are unchanged. |
| `RequirementFields.CreatorImplementationOf` | java/dagger/internal/codegen/ComponentRequirementFields.java:105-108 | The creator used is the base implementation's creator when the base implementation has one, and otherwise the component's own. It is present exactly when one of the two is present. |
| `RequirementFields.Create` | java/dagger/internal/codegen/ComponentRequirementFields.java:104-123 | Priority order is creator, then factory parameter, then module, each stated as an if-and-only-if. The base implementation's creator wins over the component's own. With a creator present the result is its builder field, or the null-check failure when it has none (even if a factory parameter matches). The parameter variant carries the factory parameter mapped to the requirement. Anything else is `CannotCreate` naming the component. |
| `RequirementFields.FieldInitialization` | java/dagger/internal/codegen/ComponentRequirementFields.java:189-231 | Each variant's statement assigns the new field. The value is `builder.<builderField>` for a builder field, `new <type>()` for an instantiable module, and `checkNotNull(<factoryParameter>)` for a factory parameter. |
| `RequirementFields.RequirementField.constructor` | java/dagger/internal/codegen/ComponentRequirementFields.java:130-135 | A new strategy holds its requirement, owning component and variant, and its memo is unset. |
| `RequirementFields.RequirementField.CreateField` | java/dagger/internal/codegen/ComponentRequirementFields.java:147-157 | It appends one private field typed with the requirement's type and named by the unique-name service. It appends one initialization, `FieldInitialization` of that field. It returns the member reference (owner's name, field name). |
| `RequirementFields.RequirementField.GetExpression` | java/dagger/internal/codegen/ComponentRequirementFields.java:137-140 | The first call does what `CreateField` does and sets the memo. Every later call, from any requesting class, keeps the memo and leaves the component unchanged. The result is always `ExpressionFor` of the memoized member. |
| `RequirementFields.RequirementField.GetExpressionDuringInitialization` | java/dagger/internal/codegen/ComponentRequirementFields.java:142-187 | For a builder field asked from its own component, the result is `builder.<builderField>` and nothing is materialized. In every other case, including the other two variants, it behaves exactly like `GetExpression`. |
| `RequirementFields.ComponentRequirementFields.constructor` | java/dagger/internal/codegen/ComponentRequirementFields.java:61-63 | A root resolver has no parent and an empty cache. |
| `RequirementFields.ComponentRequirementFields.Child` | java/dagger/internal/codegen/ComponentRequirementFields.java:51-58 | A resolver with a given parent, graph and component, and an empty cache. |
| `RequirementFields.ComponentRequirementFields.ForChildComponent` | java/dagger/internal/codegen/ComponentRequirementFields.java:66-69 | It returns a new resolver whose parent is this one and whose ancestors are this resolver's chain. The parent is not changed. When this resolver's chain satisfies the cache invariant, so does the child's. |
| `RequirementFields.ComponentRequirementFields.ChainShape` | java/dagger/internal/codegen/ComponentRequirementFields.java:45 | Every ancestor is itself rooted and has a chain contained in this one. Depth strictly decreases going up, so no resolver is its own ancestor. |
| `RequirementFields.ComponentRequirementFields.DepthBound` | java/dagger/internal/codegen/ComponentRequirementFields.java:45 | No resolver in the chain is deeper than this one. |
| `RequirementFields.ComponentRequirementFields.Owner` | java/dagger/internal/codegen/ComponentRequirementFields.java:92-101 | An owner, when found, is in the chain and its graph owns the requirement. It is the nearest one: this resolver when its own graph owns the requirement, and no resolver below the owner owns it. There is no owner exactly when no resolver in the chain owns it. |
| `RequirementFields.ComponentRequirementFields.Resolve` | java/dagger/internal/codegen/ComponentRequirementFields.java:92-123 | The lookup fails with `NoFieldFound` exactly when no resolver up to the root owns the requirement. Otherwise it is strategy selection in the owner. |
| `RequirementFields.ComponentRequirementFields.DelegatesToAncestor` | java/dagger/internal/codegen/ComponentRequirementFields.java:96-98 | A descendant resolves a requirement to the same owner and outcome as an ancestor, when no resolver between them owns it. |
| `RequirementFields.ComponentRequirementFields.GetField` | java/dagger/internal/codegen/ComponentRequirementFields.java:92-101 | Only the owner's cache can change, so a delegating resolver's cache is unchanged. A present entry is returned as is (the same object on every call). An absent one is created fresh and unmaterialized and added as the one new entry, unless `Create` fails, in which case the cache is unchanged. Success and failure, and the error, are those of `Resolve`. The returned strategy is the one the owner's cache holds. The cache invariant is kept. |
| `RequirementFields.ComponentRequirementFields.GetExpression` | java/dagger/internal/codegen/ComponentRequirementFields.java:76-78 | It fails exactly as `Resolve` does, and a failure leaves the owner's cache and component unchanged. On success the owner's cache gains at most this requirement's entry: every other entry is unchanged, a present entry is kept, and an absent one is a fresh strategy. That strategy was accessed as `RequirementField.GetExpression` states, on the owner's component. |
| `RequirementFields.ComponentRequirementFields.GetExpressionDuringInitialization` | java/dagger/internal/codegen/ComponentRequirementFields.java:87-90 | The same, cache clauses included, with the builder shortcut. A builder field requested by the owning class reads `builder.<field>` and leaves the owner's component unchanged. |
| `Scenarios.SelfConstructedModule` | java/dagger/internal/codegen/ComponentRequirementFields.java:199-209 | A root-owned module gets one field `moduleX`, initialized with `new ModuleX()`, and is read directly. |
| `Scenarios.BuilderFieldFromChild` | java/dagger/internal/codegen/ComponentRequirementFields.java:179-192 | The root reads `builder.config` during its initialization and no field is added. A later access from a child adds field `cfg` to the root (not to the child), initialized from `builder.config`. The child reads it as `Root.this.cfg`, and the child gains no field and no initialization. |
| `Scenarios.FactoryParameter` | java/dagger/internal/codegen/ComponentRequirementFields.java:92-95 | A factory-parameter field is initialized through `checkNotNull(depParam)`. A second lookup returns the same strategy and a second access adds nothing. |
| `Scenarios.BaseImplementationCreatorPreferred` | java/dagger/internal/codegen/ComponentRequirementFields.java:105-111 | The base implementation's builder field is used over the component's own builder and over a matching factory parameter. The component gains exactly one field, `value`, initialized from `builder.baseField`. |
| `Scenarios.UnownedRequirement` | java/dagger/internal/codegen/ComponentRequirementFields.java:96-100 | A requirement owned by nobody from the child up to the root fails with `NoFieldFound`, and neither component gains a field. |
| `Scenarios.UncreatableRequirement` | java/dagger/internal/codegen/ComponentRequirementFields.java:117-122 | An owned dependency with no creator and no factory parameter fails with `CannotCreate`, naming the owner, and adds no field. |
| `Scenarios.MissingBuilderField` | java/dagger/internal/codegen/ComponentRequirementFields.java:109-111 | With a creator that lacks a field for an instantiable module, the lookup fails its null check and adds no field. |
| `Scenarios.InterleavedRequests` | java/dagger/internal/codegen/ComponentRequirementFields.java:92-140 | Two modules of the root are requested in turn, then the first again. The component holds exactly the two fields and their two initializations, and the third read is the first read again: the second request did not disturb the first strategy's memo. |

## Left out

- JavaPoet rendering is not modelled: `CodeBlock` format strings and the construction of `FieldSpec`, `ParameterSpec` and `TypeName`. Expressions, statements and field declarations are abstract datatypes.
- How the binding graph computes `componentRequirements()`, `factoryMethod()` and `factoryMethodParameters()` is not modelled. They are given values.
- `ComponentImplementation` is not part of this model beyond the operations used here. `GetUniqueFieldName` is a stand-in that appends `_` until the name is free. The real name set also reserves every name it hands out, and that is not modelled. The `COMPONENT_REQUIREMENT_FIELD` kind passed to `addField` is dropped, because every field added here has that kind.
- `MemberSelect.localField(...).getExpressionFor` is not part of this model. `ExpressionFor` stands in for it with its two cases: a direct reference from the owner, an owner-qualified one from elsewhere.
- `ComponentRequirement` is reduced to kind, type and variable name. Its key and nullability policy play no part in this core.
- `Suppliers.memoize` becomes an `Option` field. Its thread safety is not modelled, because generation is single-threaded. `HashMap.computeIfAbsent` becomes a Dafny `map`.
- Exceptions are returned as `Fail` values. Their message text is not modelled.
- The `checkNotNull` calls on the requirement and the component cannot fail here: Dafny's non-null types exclude null. The same holds for the call on the factory parameter, because a map value is never null. Only the builder-field null check has a failure path.
- The generated program's run-time null check is present only as the `CheckNotNull` expression in the initialization statement.
