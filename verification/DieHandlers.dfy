/** The handlers of dwarf_cu_to_module.cc that compute qualified names. */
module DieHandlers {
  import opened MachineWords
  import opened FunctionEntries
  import opened QualifiedNames
  import opened CompilationUnit

  class GenericDieHandler {
    const offset: u64
    const context: string
    var declaration: bool
    var specification: Option<Specification>
    var nameAttribute: string
    var demangledName: string

    constructor (offset: u64, context: string)
      ensures this.offset == offset && this.context == context
      ensures !declaration && specification == None && nameAttribute == "" && demangledName == ""
    {
      this.offset, this.context := offset, context;
      declaration, specification, nameAttribute, demangledName := false, None, "", "";
    }

    /** DW_AT_declaration. */
    method ProcessDeclaration(data: u64)
      modifies this`declaration
      ensures declaration == (data != 0)
    {
      declaration := data != 0;
    }

    /** DW_AT_specification: an entry not seen, or not to be followed, leaves things as they are. */
    method ProcessSpecification(data: u64, refs: References, specs: Specifications)
      modifies this`specification
      ensures specification == if (refs.handleInterCu || refs.cuOffset <= data) && data in specs
                               then Some(specs[data]) else old(specification)
    {
      if !refs.handleInterCu && data < refs.cuOffset {
        return;
      }
      if data in specs {
        specification := Some(specs[data]);
      }
    }

    /** DW_AT_name and DW_AT_MIPS_linkage_name; the latter counts only if it could be demangled. */
    method ProcessNames(name: string, demangled: Option<string>)
      modifies this`nameAttribute, this`demangledName
      ensures nameAttribute == name
      ensures demangledName == if demangled.Some? then demangled.value else old(demangledName)
    {
      nameAttribute := name;
      if demangled.Some? {
        demangledName := demangled.value;
      }
    }

    /** ComputeQualifiedName: the entry's name, and a record of it if it is a declaration. */
    method ComputeQualifiedName(
      language: Language, specs: Specifications) returns (name: string, specs': Specifications)
      ensures var names := Names(Attributes(nameAttribute, demangledName, declaration, None), context, specification);
              name == Joined(language, names) && specs' == if declaration then specs[offset := names] else specs
    {
      var qualifiedName: Option<string> := None;
      if demangledName != "" {
        qualifiedName := Some(demangledName);
      } else if specification.Some? && specification.value.qualifiedName != "" {
        qualifiedName := Some(specification.value.qualifiedName);
      }
      var unqualifiedName, enclosingName := "", "";
      if qualifiedName.None? {
        if nameAttribute == "" && specification.Some? {
          unqualifiedName := specification.value.unqualifiedName;
        } else {
          unqualifiedName := nameAttribute;
        }
        if specification.Some? {
          enclosingName := specification.value.enclosingName;
        } else {
          enclosingName := context;
        }
      }
      specs' := specs;
      if declaration {
        var spec := if qualifiedName.Some? then Specification(qualifiedName.value, "", "")
                    else Specification("", enclosingName, unqualifiedName);
        specs' := specs'[offset := spec];
      }
      if qualifiedName.Some? {
        return qualifiedName.value, specs';
      }
      return MakeQualifiedName(language, enclosingName, unqualifiedName), specs';
    }
  }

  /** What the handlers of one compilation unit share. */
  class CuContext {
    const language: Language
    const refs: References
    var specifications: Specifications
    const unit: CompilationUnit

    constructor (language: Language, refs: References, specifications: Specifications, unit: CompilationUnit)
      ensures this.language == language && this.refs == refs && this.unit == unit
      ensures this.specifications == specifications
    {
      this.language, this.refs, this.specifications, this.unit := language, refs, specifications, unit;
    }

    /** One entry through its handler: its attributes, the end of its attributes, and its children. */
    method VisitDie(die: Die, context: string)
      requires unit.ProperInput()
      modifies this, unit`functions
      ensures unit.ProperInput()
      ensures var r := Visit(language, refs, die, context, old(specifications));
              specifications == r.specs && unit.functions == old(unit.functions) + r.functions
      decreases die
    {
      hide Joined, VisitAll, Contribution;
      var handler := new GenericDieHandler(die.offset, context);
      var a := die.attributes;
      handler.ProcessNames(a.name, if a.linkageName == "" then None else Some(a.linkageName));
      handler.ProcessDeclaration(if a.declaration then 1 else 0);
      if a.specification.Some? {
        handler.ProcessSpecification(a.specification.value, refs, specifications);
      }
      var name;
      name, specifications := handler.ComputeQualifiedName(language, specifications);
      match die {
        case Scope(_, _, children) => VisitChildren(children, name);
        case Func(_, _, range) => unit.FinishFunction(name, range);
      }
    }

    method VisitChildren(children: seq<Die>, context: string)
      requires unit.ProperInput()
      modifies this, unit`functions
      ensures unit.ProperInput()
      ensures var r := VisitAll(language, refs, children, context, old(specifications));
              specifications == r.specs && unit.functions == old(unit.functions) + r.functions
      decreases children
    {
      ghost var all := VisitAll(language, refs, children, context, specifications);
      for i := 0 to |children|
        invariant unit.ProperInput()
        invariant var rest := VisitAll(language, refs, children[i..], context, specifications);
                  all.specs == rest.specs && old(unit.functions) + all.functions == unit.functions + rest.functions
      {
        assert children[i..][1..] == children[i + 1..];
        VisitDie(children[i], context);
      }
    }
  }
}
