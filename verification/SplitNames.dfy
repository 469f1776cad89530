/** Splitting entries into declarations and definitions does not change any function's name. */
module SplitNames {
  import opened MachineWords
  import opened FunctionEntries
  import opened QualifiedNames

  function Offsets(die: Die): set<u64>
    decreases die
  {
    {die.offset} + if die.Scope? then AllOffsets(die.children) else {}
  }

  function AllOffsets(dies: seq<Die>): set<u64>
    decreases dies
  {
    if dies == [] then {} else Offsets(dies[0]) + AllOffsets(dies[1..])
  }

  /** Entries that do not follow one within the other have different offsets. */
  predicate AreDistinct(dies: seq<Die>)
    decreases dies
  {
    dies != [] ==>
      && (dies[0].Scope? ==> AreDistinct(dies[0].children))
      && Offsets(dies[0]) !! AllOffsets(dies[1..])
      && AreDistinct(dies[1..])
  }

  /** A linkage name that an entry has is on its declaration or on its definition. */
  predicate KeepsLinkageNames(die: Die, cuts: Cuts)
    decreases die
  {
    && (die.offset in cuts && die.attributes.linkageName != "" ==>
          cuts[die.offset].declaresLinkageName || cuts[die.offset].repeatsLinkageName)
    && (die.Scope? ==> KeepAllLinkageNames(die.children, cuts))
  }

  predicate KeepAllLinkageNames(dies: seq<Die>, cuts: Cuts)
    decreases dies
  {
    dies != [] ==> KeepsLinkageNames(dies[0], cuts) && KeepAllLinkageNames(dies[1..], cuts)
  }

  predicate AllHandled(refs: References, offsets: set<u64>) {
    forall o <- offsets :: IsHandled(refs, o)
  }

  predicate Same(s: Specifications, t: Specifications, k: u64) {
    (k in s <==> k in t) && (k in s ==> s[k] == t[k])
  }

  ghost predicate SameOn(s: Specifications, t: Specifications, ks: set<u64>) {
    forall k <- ks :: Same(s, t, k)
  }

  ghost predicate SameOutside(s: Specifications, t: Specifications, ks: set<u64>) {
    forall k: u64 :: k !in ks ==> Same(s, t, k)
  }

  lemma {:induction false} VisitJoined(
    language: Language, refs: References, a: seq<Die>, b: seq<Die>, context: string, s: Specifications)
    ensures var r := VisitAll(language, refs, a, context, s);
            var t := VisitAll(language, refs, b, context, r.specs);
            VisitAll(language, refs, a + b, context, s) == Result(r.functions + t.functions, t.specs)
  {
    hide Visit;
    if a == [] {
      assert a + b == b;
    } else {
      var first := Visit(language, refs, a[0], context, s);
      VisitJoined(language, refs, a[1..], b, context, first.specs);
      assert (a + b)[1..] == a[1..] + b;
      var r := VisitAll(language, refs, a[1..], context, first.specs);
      var t := VisitAll(language, refs, b, context, r.specs);
      assert first.functions + (r.functions + t.functions) == (first.functions + r.functions) + t.functions;
    }
  }

  /** A definition has, in any scope, the name that the entry has unsplit. */
  lemma {:induction false} DefinitionHasName(
    language: Language, die: Die, cut: Cut, children: seq<Die>, context: string, there: string)
    requires die.attributes.linkageName != "" ==> cut.declaresLinkageName || cut.repeatsLinkageName
    ensures var declared := Names(Declaration(die, cut).attributes, context, None);
            Joined(language, Names(Definition(die, cut, children).attributes, there, Some(declared)))
            == Joined(language, Names(die.attributes, context, None))
  {
  }

  /** Plain entries neither use nor change what is recorded. */
  lemma {:induction false} PlainIgnoresSpecifications(
    language: Language, refs: References, die: Die, context: string, s: Specifications)
    requires IsPlain(die)
    ensures Visit(language, refs, die, context, s)
            == Result(Visit(language, refs, die, context, map[]).functions, s)
    decreases die
  {
    hide Names, Joined, Contribution;
    if die.Scope? {
      var name := Joined(language, Names(die.attributes, context, None));
      AllPlainIgnoreSpecifications(language, refs, die.children, name, s);
      AllPlainIgnoreSpecifications(language, refs, die.children, name, map[]);
    }
  }

  lemma {:induction false} AllPlainIgnoreSpecifications(
    language: Language, refs: References, dies: seq<Die>, context: string, s: Specifications)
    requires ArePlain(dies)
    ensures VisitAll(language, refs, dies, context, s)
            == Result(VisitAll(language, refs, dies, context, map[]).functions, s)
    decreases dies
  {
    if dies != [] {
      PlainIgnoresSpecifications(language, refs, dies[0], context, s);
      PlainIgnoresSpecifications(language, refs, dies[0], context, map[]);
      AllPlainIgnoreSpecifications(language, refs, dies[1..], context, s);
      AllPlainIgnoreSpecifications(language, refs, dies[1..], context, map[]);
    }
  }

  lemma {:induction false} VisitOne(
    language: Language, refs: References, dies: seq<Die>, context: string, s: Specifications)
    requires |dies| == 1
    ensures VisitAll(language, refs, dies, context, s) == Visit(language, refs, dies[0], context, s)
  {
    var first := Visit(language, refs, dies[0], context, s);
    assert dies[1..] == [] && first.functions + [] == first.functions;
  }

  // ----- the entries that stay in place -----

  lemma {:induction false} DeclarationRecords(
    language: Language, refs: References, die: Die, cut: Cut, context: string, s: Specifications)
    ensures Visit(language, refs, Declaration(die, cut), context, s)
            == Result([], s[die.offset := Names(Declaration(die, cut).attributes, context, None)])
  {
    hide Names, Joined, MakeQualifiedName;
  }

  lemma {:induction false} InPlaceRecordsItsOffsets(
    language: Language, refs: References, die: Die, cuts: Cuts, context: string, s: Specifications)
    requires IsPlain(die)
    ensures SameOutside(VisitAll(language, refs, Split(die, cuts).inPlace, context, s).specs, s, Offsets(die))
    decreases die
  {
    hide Names, Joined, Contribution;
    var inPlace := Split(die, cuts).inPlace;
    VisitOne(language, refs, inPlace, context, s);
    if die.offset in cuts {
      DeclarationRecords(language, refs, die, cuts[die.offset], context, s);
    } else if die.Scope? {
      AllInPlaceRecordTheirOffsets(language, refs, die.children, cuts,
                                   Joined(language, Names(die.attributes, context, None)), s);
    }
  }

  lemma {:induction false} AllInPlaceRecordTheirOffsets(
    language: Language, refs: References, dies: seq<Die>, cuts: Cuts, context: string, s: Specifications)
    requires ArePlain(dies)
    ensures SameOutside(VisitAll(language, refs, SplitAll(dies, cuts).inPlace, context, s).specs, s, AllOffsets(dies))
    decreases dies
  {
    if dies != [] {
      var first, rest := Split(dies[0], cuts).inPlace, SplitAll(dies[1..], cuts).inPlace;
      var r := VisitAll(language, refs, first, context, s);
      VisitJoined(language, refs, first, rest, context, s);
      InPlaceRecordsItsOffsets(language, refs, dies[0], cuts, context, s);
      AllInPlaceRecordTheirOffsets(language, refs, dies[1..], cuts, context, r.specs);
    }
  }

  // ----- both parts -----

  /** The entries in place, visited in their context, and later the moved ones, visited at the top,
      contribute the functions of the unsplit entries. */
  ghost predicate Agree(plain: Result, inPlace: Result, moved: Result) {
    multiset(inPlace.functions) + multiset(moved.functions) == multiset(plain.functions)
  }

  lemma {:induction false} PartsAgree(
    language: Language, refs: References, die: Die, cuts: Cuts, context: string, s: Specifications, t: Specifications)
    requires IsPlain(die) && (die.Scope? ==> AreDistinct(die.children))
    requires KeepsLinkageNames(die, cuts) && AllHandled(refs, Offsets(die))
    requires SameOn(t, VisitAll(language, refs, Split(die, cuts).inPlace, context, s).specs, Offsets(die))
    ensures var p := Split(die, cuts);
            var moved := VisitAll(language, refs, p.moved, "", t);
            && Agree(Visit(language, refs, die, context, map[]), VisitAll(language, refs, p.inPlace, context, s), moved)
            && SameOutside(moved.specs, t, Offsets(die))
    decreases die
  {
    if die.offset in cuts {
      SplitAgrees(language, refs, die, cuts, context, s, t);
    } else {
      VisitOne(language, refs, Split(die, cuts).inPlace, context, s);
      if die.Scope? {
        var name := Joined(language, Names(die.attributes, context, None));
        AllPartsAgree(language, refs, die.children, cuts, name, s, t);
      }
    }
  }

  lemma {:induction false} SplitAgrees(
    language: Language, refs: References, die: Die, cuts: Cuts, context: string, s: Specifications, t: Specifications)
    requires IsPlain(die) && (die.Scope? ==> AreDistinct(die.children))
    requires KeepsLinkageNames(die, cuts) && AllHandled(refs, Offsets(die))
    requires die.offset in cuts
    requires SameOn(t, VisitAll(language, refs, Split(die, cuts).inPlace, context, s).specs, Offsets(die))
    ensures var p := Split(die, cuts);
            var moved := VisitAll(language, refs, p.moved, "", t);
            && Agree(Visit(language, refs, die, context, map[]), VisitAll(language, refs, p.inPlace, context, s), moved)
            && SameOutside(moved.specs, t, Offsets(die))
    decreases die, 0
  {
    hide Names, Joined, MakeQualifiedName, Contribution;
    var cut := cuts[die.offset];
    var inner := if die.Scope? then SplitAll(die.children, cuts) else Parts([], []);
    var definition := Definition(die, cut, inner.inPlace);
    var name := Joined(language, Names(die.attributes, context, None));
    VisitOne(language, refs, Split(die, cuts).inPlace, context, s);
    DeclarationRecords(language, refs, die, cut, context, s);
    assert Same(t, s[die.offset := Names(Declaration(die, cut).attributes, context, None)], die.offset);
    DefinitionVisited(language, refs, die, cut, inner.inPlace, context, "", t);
    VisitJoined(language, refs, [definition], inner.moved, "", t);
    VisitOne(language, refs, [definition], "", t);
    if die.Scope? {
      var r := VisitAll(language, refs, inner.inPlace, name, t);
      AllInPlaceRecordTheirOffsets(language, refs, die.children, cuts, name, t);
      AllPartsAgree(language, refs, die.children, cuts, name, t, r.specs);
    }
  }

  /** Once its declaration is recorded, a definition is visited under the name it has unsplit. */
  lemma {:induction false} DefinitionVisited(
    language: Language, refs: References, die: Die, cut: Cut, children: seq<Die>, context: string, there: string,
    t: Specifications)
    requires die.attributes.linkageName != "" ==> cut.declaresLinkageName || cut.repeatsLinkageName
    requires IsHandled(refs, die.offset) && die.offset in t
    requires t[die.offset] == Names(Declaration(die, cut).attributes, context, None)
    ensures var name := Joined(language, Names(die.attributes, context, None));
            Visit(language, refs, Definition(die, cut, children), there, t)
            == match die
               case Scope(_, _, _) => VisitAll(language, refs, children, name, t)
               case Func(_, _, range) => Result(Contribution(name, range), t)
  {
    hide Names, Joined, Contribution;
    DefinitionHasName(language, die, cut, children, context, there);
  }

  lemma {:induction false} AllPartsAgree(
    language: Language, refs: References, dies: seq<Die>, cuts: Cuts, context: string,
    s: Specifications, t: Specifications)
    requires ArePlain(dies) && AreDistinct(dies)
    requires KeepAllLinkageNames(dies, cuts) && AllHandled(refs, AllOffsets(dies))
    requires SameOn(t, VisitAll(language, refs, SplitAll(dies, cuts).inPlace, context, s).specs, AllOffsets(dies))
    ensures var p := SplitAll(dies, cuts);
            var moved := VisitAll(language, refs, p.moved, "", t);
            && Agree(VisitAll(language, refs, dies, context, map[]),
                     VisitAll(language, refs, p.inPlace, context, s), moved)
            && SameOutside(moved.specs, t, AllOffsets(dies))
    decreases dies
  {
    hide Names, Joined, Contribution, Split, Visit, Agree, SameOn, SameOutside;
    if dies == [] {
      NothingToAgree(t);
    } else {
      var first, rest := Split(dies[0], cuts), SplitAll(dies[1..], cuts);
      var here, there := Offsets(dies[0]), AllOffsets(dies[1..]);
      var r := VisitAll(language, refs, first.inPlace, context, s);
      var u := VisitAll(language, refs, rest.inPlace, context, r.specs);
      VisitJoined(language, refs, first.inPlace, rest.inPlace, context, s);
      VisitJoined(language, refs, first.moved, rest.moved, "", t);
      AllInPlaceRecordTheirOffsets(language, refs, dies[1..], cuts, context, r.specs);
      SameHere(t, u.specs, r.specs, here, there);
      PartsAgree(language, refs, dies[0], cuts, context, s, t);
      var m := VisitAll(language, refs, first.moved, "", t);
      SameThere(m.specs, t, u.specs, here, there);
      AllPartsAgree(language, refs, dies[1..], cuts, context, r.specs, m.specs);
      PlainIgnoresSpecifications(language, refs, dies[0], context, map[]);
      var n := VisitAll(language, refs, rest.moved, "", m.specs);
      AgreementsJoin(Visit(language, refs, dies[0], context, map[]), r, m,
                     VisitAll(language, refs, dies[1..], context, map[]), u, n);
      OutsideBoth(n.specs, m.specs, t, here, there);
    }
  }

  lemma {:induction false} NothingToAgree(t: Specifications)
    ensures SameOutside(t, t, {})
    ensures forall s, u, v :: Agree(Result([], s), Result([], u), Result([], v))
  {
  }

  lemma {:induction false} AgreementsJoin(p: Result, r: Result, m: Result, q: Result, u: Result, n: Result)
    requires Agree(p, r, m) && Agree(q, u, n)
    ensures Agree(Result(p.functions + q.functions, q.specs), Result(r.functions + u.functions, u.specs),
                  Result(m.functions + n.functions, n.specs))
  {
  }

  lemma {:induction false} OutsideBoth(
    n: Specifications, m: Specifications, t: Specifications, here: set<u64>, there: set<u64>)
    requires SameOutside(n, m, there) && SameOutside(m, t, here)
    ensures SameOutside(n, t, here + there)
  {
    forall k: u64 | k !in here + there ensures Same(n, t, k) {
      assert Same(n, m, k) && Same(m, t, k);
    }
  }

  lemma {:induction false} SameHere(
    t: Specifications, u: Specifications, r: Specifications, here: set<u64>, there: set<u64>)
    requires SameOn(t, u, here + there) && SameOutside(u, r, there) && here !! there
    ensures SameOn(t, r, here)
  {
    forall k | k in here ensures Same(t, r, k) {
      assert Same(t, u, k) && Same(u, r, k);
    }
  }

  lemma {:induction false} SameThere(
    m: Specifications, t: Specifications, u: Specifications, here: set<u64>, there: set<u64>)
    requires SameOn(t, u, here + there) && SameOutside(m, t, here) && here !! there
    ensures SameOn(m, u, there)
  {
    forall k | k in there ensures Same(m, u, k) {
      assert Same(m, t, k) && Same(t, u, k);
    }
  }

  /** Splitting any entries, at any depth, leaves the name and the address of every function as
      they were: the same functions come out, if in another order. */
  lemma {:induction false} SplittingKeepsNames(
    language: Language, refs: References, dies: seq<Die>, cuts: Cuts, specs: Specifications)
    requires ArePlain(dies) && AreDistinct(dies)
    requires KeepAllLinkageNames(dies, cuts) && AllHandled(refs, AllOffsets(dies))
    ensures var p := SplitAll(dies, cuts);
            multiset(VisitAll(language, refs, p.inPlace + p.moved, "", specs).functions)
            == multiset(VisitAll(language, refs, dies, "", specs).functions)
  {
    var p := SplitAll(dies, cuts);
    VisitJoined(language, refs, p.inPlace, p.moved, "", specs);
    var r := VisitAll(language, refs, p.inPlace, "", specs);
    AllPartsAgree(language, refs, dies, cuts, "", specs, r.specs);
    AllPlainIgnoreSpecifications(language, refs, dies, "", specs);
  }
}
