/** Where an entry's name comes from: a linkage name, the declaration it cites, or the scopes around it. */
module CitedNames {
  import opened MachineWords
  import opened LineSweep
  import opened FunctionEntries
  import opened QualifiedNames
  import opened SplitNames

  /** A linkage name is the name, whatever else there is. */
  lemma {:induction false} LinkageNameWins(
    language: Language, a: Attributes, context: string, spec: Option<Specification>)
    requires a.linkageName != ""
    ensures Joined(language, Names(a, context, spec)) == a.linkageName
  {
  }

  /** Otherwise the cited declaration gives the qualified name, if it has one; or else the scope, and the
      entry's own name if it has none. Without a citation the context is the scope. */
  lemma {:induction false} OtherNames(
    language: Language, a: Attributes, context: string, spec: Option<Specification>)
    requires a.linkageName == ""
    ensures Joined(language, Names(a, context, spec))
            == match spec
               case None => MakeQualifiedName(language, context, a.name)
               case Some(Specification(qualified, enclosing, name)) =>
                 if qualified != "" then qualified
                 else MakeQualifiedName(language, enclosing, if a.name == "" then name else a.name)
  {
  }

  /** A citation of an entry in another compilation unit counts for nothing unless such citations are
      followed. */
  lemma {:induction false} ForeignIsIgnored(
    language: Language, refs: References, die: Die, target: u64, context: string, specs: Specifications)
    requires die.attributes.specification == Some(target) && !refs.handleInterCu && target < refs.cuOffset
    ensures var alone := die.(attributes := die.attributes.(specification := None));
            Visit(language, refs, die, context, specs) == Visit(language, refs, alone, context, specs)
  {
    hide Joined;
  }

  /** A citation that is followed takes effect once its target has been recorded. */
  lemma {:induction false} KnownIsCited(a: Attributes, refs: References, target: u64, specs: Specifications)
    requires a.specification == Some(target) && (refs.handleInterCu || refs.cuOffset <= target)
    ensures Cited(a, refs, specs) == if target in specs then Some(specs[target]) else None
  {
  }

  /** A function entry contributes its function and its record, whether or not it is a declaration. */
  lemma {:induction false} FunctionVisited(
    language: Language, refs: References, die: Die, context: string, specs: Specifications)
    requires die.Func?
    ensures var names := Names(die.attributes, context, Cited(die.attributes, refs, specs));
            var name, low := Joined(language, names), die.range.low;
            var end := if die.range.highIsLength then low + die.range.high else die.range.high;
            var r := Visit(language, refs, die, context, specs);
            && r.specs == (if die.attributes.declaration then specs[die.offset := names] else specs)
            && r.functions == if 0 < low < end < 0x1_0000_0000_0000_0000
                              then [Span(low, end - low, if name == "" then "<name omitted>" else name)] else []
  {
    hide Names, Joined, Cited, Contribution;
    var names := Names(die.attributes, context, Cited(die.attributes, refs, specs));
    ContributionIsExact(Joined(language, names), die.range);
  }

  /** A class C with a declaration of f at offset 2, and a definition elsewhere that cites it. */
  function DeclaredAndDefined(linkageName: string): seq<Die> {
    [Scope(1, Attributes("C", "", false, None),
           [Func(2, Attributes("f", linkageName, true, None), PcRange(0, 0, false))]),
     Func(3, Attributes("", "", false, Some(2)), PcRange(0x2000, 0x2010, false))]
  }

  /** The definition has the name of the declaration, or none if citations into another unit are not
      followed. */
  lemma {:induction false} CitedName(refs: References, linkageName: string)
    ensures VisitAll(CPlusPlus, refs, DeclaredAndDefined(linkageName), "", map[]).functions
            == [Span(0x2000, 0x10, if !refs.handleInterCu && 2 < refs.cuOffset then "<name omitted>"
                                   else if linkageName != "" then linkageName else "C::f")]
  {
    hide Visit, VisitAll;
    var dies := DeclaredAndDefined(linkageName);
    var declaration := dies[0].children[0];
    var record := if linkageName != "" then Specification(linkageName, "", "") else Specification("", "C", "f");
    var specs := map[2 as u64 := record];
    assert dies == [dies[0]] + [dies[1]];
    VisitJoined(CPlusPlus, refs, [dies[0]], [dies[1]], "", map[]);
    VisitOne(CPlusPlus, refs, [dies[0]], "", map[]);
    VisitOne(CPlusPlus, refs, [declaration], "C", map[]);
    VisitOne(CPlusPlus, refs, [dies[1]], "", specs);
    ClassVisited(refs, linkageName, record);
    DefinitionInC(refs, dies[1], record);
  }

  lemma {:induction false} ClassVisited(refs: References, linkageName: string, record: Specification)
    requires record == if linkageName != "" then Specification(linkageName, "", "") else Specification("", "C", "f")
    ensures Visit(CPlusPlus, refs, DeclaredAndDefined(linkageName)[0], "", map[]) == Result([], map[2 := record])
  {
    hide VisitAll;
    VisitOne(CPlusPlus, refs, DeclaredAndDefined(linkageName)[0].children, "C", map[]);
  }

  lemma {:induction false} DefinitionInC(refs: References, die: Die, record: Specification)
    requires die == Func(3, Attributes("", "", false, Some(2)), PcRange(0x2000, 0x2010, false))
    requires record.qualifiedName != "" || record == Specification("", "C", "f")
    ensures var name := if !refs.handleInterCu && 2 < refs.cuOffset then "<name omitted>"
                        else if record.qualifiedName != "" then record.qualifiedName else "C::f";
            Visit(CPlusPlus, refs, die, "", map[2 := record]).functions == [Span(0x2000, 0x10, name)]
  {
    assert "C" + "::" + "f" == "C::f";
  }
}
