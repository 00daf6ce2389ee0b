/** The generated component class that requirement fields are added to. Only the operations the
    resolver uses are modelled: its name, its base implementation and creator, the fields and
    initialization statements it accumulates, and collision-free field names. */
module Components {
  import opened CodegenTypes

  /** The names of a list of field declarations, in order. */
  function FieldNames(fields: seq<FieldSpec>): seq<FieldName>
  {
    seq(|fields|, i requires 0 <= i < |fields| => fields[i].name)
  }

  /** The length of the longest name in `names` (0 when there is none). */
  function MaxLength(names: seq<string>): nat
  {
    if names == [] then 0
    else if |names[0]| > MaxLength(names[1..]) then |names[0]|
    else MaxLength(names[1..])
  }

  /** A name longer than every name in the list is not one of them. */
  lemma {:induction false} LongerThanEveryName(names: seq<string>, s: string)
    requires |s| > MaxLength(names)
    ensures s !in names
  {
    if names != [] {
      LongerThanEveryName(names[1..], s);
      assert names == [names[0]] + names[1..];
    }
  }

  class ComponentImplementation {
    const name: ClassName
    /** The base implementation this component refines, if any. */
    const baseImplementation: ComponentImplementation?
    const creatorImplementation: Option<CreatorImplementation>
    var fields: seq<FieldSpec>
    var initializations: seq<Stmt>

    constructor (name: ClassName, baseImplementation: ComponentImplementation?,
                 creatorImplementation: Option<CreatorImplementation>)
      ensures this.name == name && this.baseImplementation == baseImplementation
      ensures this.creatorImplementation == creatorImplementation
      ensures fields == [] && initializations == []
    {
      this.name := name;
      this.baseImplementation := baseImplementation;
      this.creatorImplementation := creatorImplementation;
      fields := [];
      initializations := [];
    }

    /** A field name derived from `suggested` that no field of this component uses yet; the
        suggestion itself whenever it is still free. */
    method GetUniqueFieldName(suggested: string) returns (n: FieldName)
      ensures n !in FieldNames(fields)
      ensures suggested <= n
      ensures suggested !in FieldNames(fields) ==> n == suggested
    {
      var names := FieldNames(fields);
      n := suggested;
      while n in names
        invariant suggested <= n
        invariant suggested !in names ==> n == suggested
        decreases MaxLength(names) + 1 - |n|
      {
        if |n| > MaxLength(names) {
          LongerThanEveryName(names, n);
        }
        n := n + "_";
      }
    }

    method AddField(field: FieldSpec)
      modifies this
      ensures fields == old(fields) + [field]
      ensures initializations == old(initializations)
    {
      fields := fields + [field];
    }

    method AddInitialization(statement: Stmt)
      modifies this
      ensures initializations == old(initializations) + [statement]
      ensures fields == old(fields)
    {
      initializations := initializations + [statement];
    }
  }
}
