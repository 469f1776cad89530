/** Without declarations and linkage names, a function's name is the path of names that leads to it. */
module PathNames {
  import opened MachineWords
  import opened LineSweep
  import opened FunctionEntries
  import opened QualifiedNames
  import opened SplitNames

  /** The names on a path, joined by a separator. */
  function JoinAll(path: seq<string>, separator: string): string {
    if path == [] then ""
    else if |path| == 1 then path[0]
    else path[0] + separator + JoinAll(path[1..], separator)
  }

  /** A path as a qualified name: nameless scopes at its start leave nothing; Assembler has no scopes. */
  function Spelled(language: Language, path: seq<string>): string {
    if path == [] then ""
    else
      match language
      case Assembler => path[|path| - 1]
      case CPlusPlus => if path[0] == "" then Spelled(language, path[1..]) else JoinAll(path, "::")
      case Java => if path[0] == "" then Spelled(language, path[1..]) else JoinAll(path, ".")
  }

  lemma {:induction false} JoinOneMore(path: seq<string>, name: string, separator: string)
    requires path != []
    ensures JoinAll(path + [name], separator) == JoinAll(path, separator) + separator + name
  {
    var more := path + [name];
    assert more[1..] == path[1..] + [name];
    if |path| == 1 {
      assert more[1..] == [name];
    } else {
      JoinOneMore(path[1..], name, separator);
      var rest := JoinAll(path[1..], separator);
      assert path[0] + separator + (rest + separator + name) == (path[0] + separator + rest) + separator + name;
    }
  }

  lemma {:induction false} JoinedIsNotEmpty(path: seq<string>, separator: string)
    requires path != [] && path[0] != ""
    ensures JoinAll(path, separator) != ""
  {
  }

  /** Qualifying a name step by step spells the path. */
  lemma {:induction false} StepsSpellPath(language: Language, path: seq<string>, name: string)
    ensures MakeQualifiedName(language, Spelled(language, path), name) == Spelled(language, path + [name])
  {
    var more := path + [name];
    if path == [] {
      assert more == [name] && more[1..] == [];
    } else if language != Assembler {
      assert more[1..] == path[1..] + [name];
      if path[0] == "" {
        StepsSpellPath(language, path[1..], name);
      } else {
        var separator := if language == CPlusPlus then "::" else ".";
        JoinOneMore(path, name, separator);
        JoinedIsNotEmpty(path, separator);
      }
    }
  }

  /** No entry has a linkage name. */
  predicate HasNoLinkageNames(die: Die)
    decreases die
  {
    die.attributes.linkageName == "" && (die.Scope? ==> HaveNoLinkageNames(die.children))
  }

  predicate HaveNoLinkageNames(dies: seq<Die>)
    decreases dies
  {
    dies != [] ==> HasNoLinkageNames(dies[0]) && HaveNoLinkageNames(dies[1..])
  }

  /** The functions below an entry that have a range of addresses, each under the path that leads to it. */
  function FunctionsBelow(language: Language, die: Die, path: seq<string>): seq<Function>
    decreases die
  {
    var here := path + [die.attributes.name];
    match die
    case Scope(_, _, children) => AllFunctionsBelow(language, children, here)
    case Func(_, _, range) =>
      var name := Spelled(language, here);
      var end := if range.highIsLength then range.low + range.high else range.high;
      if 0 < range.low < end < TWO_64
      then [Span(range.low, end - range.low, if name == "" then "<name omitted>" else name)] else []
  }

  function AllFunctionsBelow(language: Language, dies: seq<Die>, path: seq<string>): seq<Function>
    decreases dies
  {
    if dies == [] then [] else FunctionsBelow(language, dies[0], path) + AllFunctionsBelow(language, dies[1..], path)
  }

  lemma {:induction false} NameIsPath(
    language: Language, refs: References, die: Die, path: seq<string>, specs: Specifications)
    requires IsPlain(die) && HasNoLinkageNames(die)
    ensures Visit(language, refs, die, Spelled(language, path), specs)
            == Result(FunctionsBelow(language, die, path), specs)
    decreases die
  {
    hide MakeQualifiedName, Spelled, Contribution;
    var here := path + [die.attributes.name];
    StepsSpellPath(language, path, die.attributes.name);
    match die
    case Scope(_, _, children) => NamesArePaths(language, refs, children, here, specs);
    case Func(_, _, range) => ContributionIsExact(Spelled(language, here), range);
  }

  /** Every function has the name that its path spells. */
  lemma {:induction false} NamesArePaths(
    language: Language, refs: References, dies: seq<Die>, path: seq<string>, specs: Specifications)
    requires ArePlain(dies) && HaveNoLinkageNames(dies)
    ensures VisitAll(language, refs, dies, Spelled(language, path), specs)
            == Result(AllFunctionsBelow(language, dies, path), specs)
    decreases dies
  {
    hide Spelled, Visit, FunctionsBelow;
    if dies != [] {
      NameIsPath(language, refs, dies[0], path, specs);
      NamesArePaths(language, refs, dies[1..], path, specs);
    }
  }

  lemma {:induction false} NoneToKeep(dies: seq<Die>, cuts: Cuts)
    requires HaveNoLinkageNames(dies)
    ensures KeepAllLinkageNames(dies, cuts)
    decreases dies
  {
    if dies != [] {
      if dies[0].Scope? {
        NoneToKeep(dies[0].children, cuts);
      }
      NoneToKeep(dies[1..], cuts);
    }
  }

  /** And so it is after splitting any entries: every function is found under its path in the
      unsplit forest. */
  lemma {:induction false} SplitNamesArePaths(
    language: Language, refs: References, dies: seq<Die>, cuts: Cuts, specs: Specifications)
    requires ArePlain(dies) && HaveNoLinkageNames(dies) && AreDistinct(dies) && AllHandled(refs, AllOffsets(dies))
    ensures var p := SplitAll(dies, cuts);
            multiset(VisitAll(language, refs, p.inPlace + p.moved, "", specs).functions)
            == multiset(AllFunctionsBelow(language, dies, []))
  {
    hide VisitAll, AllFunctionsBelow;
    NoneToKeep(dies, cuts);
    SplittingKeepsNames(language, refs, dies, cuts, specs);
    NamesArePaths(language, refs, dies, [], specs);
  }

  // ----- two forests -----

  const PLAIN: Attributes := Attributes("", "", false, None)

  function Named(name: string): Attributes {
    PLAIN.(name := name)
  }

  /** A function f in a class b in a namespace a. */
  const NESTED: Die :=
    Scope(1, Named("a"), [Scope(2, Named("b"), [Func(3, Named("f"), PcRange(0x1000, 0x20, true))])])

  lemma {:induction false} NestedName(language: Language, refs: References)
    ensures VisitAll(language, refs, [NESTED], "", map[]).functions
            == [Span(0x1000, 0x20,
                     match language case CPlusPlus => "a::b::f" case Java => "a.b.f" case Assembler => "f")]
  {
    var b := NESTED.children[0];
    var f := b.children[0];
    OnlyOne(language, refs, f, match language case CPlusPlus => "a::b" case Java => "a.b" case Assembler => "b");
    OnlyOne(language, refs, b, "a");
    OnlyOne(language, refs, NESTED, "");
    assert "a" + "::" + "b" == "a::b" && "a::b" + "::" + "f" == "a::b::f";
    assert "a" + "." + "b" == "a.b" && "a.b" + "." + "f" == "a.b.f";
  }

  lemma {:induction false} OnlyOne(language: Language, refs: References, die: Die, context: string)
    ensures VisitAll(language, refs, [die], context, map[]) == Visit(language, refs, die, context, map[])
  {
    hide Visit;
    VisitOne(language, refs, [die], context, map[]);
  }
}
