/** The names of functions in dwarf_cu_to_module.cc: from the scopes around an entry, or from the
    declaration that it cites (DWARF 4, section 2.13.2). */
module QualifiedNames {
  import opened MachineWords
  import opened FunctionEntries
  import LineSweep

  datatype Language = CPlusPlus | Java | Assembler

  /** What the handlers gather of an entry's attributes. The linkage name is the demangled one. */
  datatype Attributes = Attributes(
    name: string, linkageName: string, declaration: bool, specification: Option<u64>)

  /** A debugging information entry: a namespace or class with its children, or a function with its
      addresses, whose children are not visited. */
  datatype Die =
    | Scope(offset: u64, attributes: Attributes, children: seq<Die>)
    | Func(offset: u64, attributes: Attributes, range: PcRange)

  /** What is recorded of a declaration: its qualified name, or else its two parts. */
  datatype Specification = Specification(qualifiedName: string, enclosingName: string, unqualifiedName: string)

  type Function = LineSweep.FunctionInfo

  type Specifications = map<u64, Specification>

  /** Which references are followed: all, or those into the compilation unit at hand. */
  datatype References = References(handleInterCu: bool, cuOffset: u64)

  function MakeQualifiedName(language: Language, parent: string, name: string): string {
    match language
    case CPlusPlus => if parent == "" then name else parent + "::" + name
    case Java => if parent == "" then name else parent + "." + name
    case Assembler => name
  }

  predicate IsHandled(refs: References, target: u64) {
    refs.handleInterCu || refs.cuOffset <= target
  }

  /** The specification that an entry cites, if it has been seen. */
  function Cited(a: Attributes, refs: References, specs: Specifications): Option<Specification> {
    if a.specification.Some? && IsHandled(refs, a.specification.value) && a.specification.value in specs
    then Some(specs[a.specification.value]) else None
  }

  /** The names of an entry: qualified by a linkage name, or else in two parts. */
  function Names(a: Attributes, context: string, spec: Option<Specification>): Specification {
    if a.linkageName != "" then Specification(a.linkageName, "", "")
    else if spec.Some? && spec.value.qualifiedName != "" then Specification(spec.value.qualifiedName, "", "")
    else
      Specification("", if spec.Some? then spec.value.enclosingName else context,
                    if a.name == "" && spec.Some? then spec.value.unqualifiedName else a.name)
  }

  function Joined(language: Language, names: Specification): string {
    if names.qualifiedName != "" then names.qualifiedName
    else MakeQualifiedName(language, names.enclosingName, names.unqualifiedName)
  }

  // ----- visiting entries -----

  datatype Result = Result(functions: seq<Function>, specs: Specifications)

  function Visit(language: Language, refs: References, die: Die, context: string, specs: Specifications): Result
    decreases die
  {
    var names := Names(die.attributes, context, Cited(die.attributes, refs, specs));
    var specs' := if die.attributes.declaration then specs[die.offset := names] else specs;
    var name := Joined(language, names);
    match die
    case Scope(_, _, children) => VisitAll(language, refs, children, name, specs')
    case Func(_, _, range) => Result(Contribution(name, range), specs')
  }

  function VisitAll(
    language: Language, refs: References, dies: seq<Die>, context: string, specs: Specifications): Result
    decreases dies
  {
    if dies == [] then Result([], specs)
    else
      var first := Visit(language, refs, dies[0], context, specs);
      var rest := VisitAll(language, refs, dies[1..], context, first.specs);
      Result(first.functions + rest.functions, rest.specs)
  }

  // ----- splitting entries into declarations and definitions -----

  /** How an entry is split: the offset of the definition, whether the definition repeats the name
      and the linkage name, and whether the declaration has the linkage name. */
  datatype Cut = Cut(offset: u64, repeatsName: bool, repeatsLinkageName: bool, declaresLinkageName: bool)

  type Cuts = map<u64, Cut>

  /** No entry is a declaration or cites one. */
  predicate ArePlain(dies: seq<Die>) {
    forall i :: 0 <= i < |dies| ==> IsPlain(dies[i])
  }

  predicate IsPlain(die: Die) {
    && !die.attributes.declaration && die.attributes.specification.None?
    && (die.Scope? ==> ArePlain(die.children))
  }

  function Declaration(die: Die, cut: Cut): Die {
    var linkageName := if cut.declaresLinkageName then die.attributes.linkageName else "";
    var a := Attributes(die.attributes.name, linkageName, true, None);
    match die
    case Scope(_, _, _) => Scope(die.offset, a, [])
    case Func(_, _, _) => Func(die.offset, a, PcRange(0, 0, false))
  }

  function Definition(die: Die, cut: Cut, children: seq<Die>): Die {
    var a := Attributes(if cut.repeatsName then die.attributes.name else "",
                        if cut.repeatsLinkageName then die.attributes.linkageName else "", false, Some(die.offset));
    match die
    case Scope(_, _, _) => Scope(cut.offset, a, children)
    case Func(_, _, range) => Func(cut.offset, a, range)
  }

  /** The entries that stay in place, and the definitions that move to the end. */
  datatype Parts = Parts(inPlace: seq<Die>, moved: seq<Die>)

  function Split(die: Die, cuts: Cuts): Parts
    decreases die
  {
    var inner := if die.Scope? then SplitAll(die.children, cuts) else Parts([], []);
    if die.offset in cuts then
      Parts([Declaration(die, cuts[die.offset])], [Definition(die, cuts[die.offset], inner.inPlace)] + inner.moved)
    else if die.Scope? then Parts([die.(children := inner.inPlace)], inner.moved)
    else Parts([die], [])
  }

  function SplitAll(dies: seq<Die>, cuts: Cuts): Parts
    decreases dies
  {
    if dies == [] then Parts([], [])
    else
      var first, rest := Split(dies[0], cuts), SplitAll(dies[1..], cuts);
      Parts(first.inPlace + rest.inPlace, first.moved + rest.moved)
  }
}
