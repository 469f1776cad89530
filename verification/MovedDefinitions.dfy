/** Moving one entry's definition to any later place, in any scope, does not change any function's name,
    whatever else the forest holds; nor do any number of such moves. */
module MovedDefinitions {
  import opened MachineWords
  import opened FunctionEntries
  import opened QualifiedNames
  import opened SplitNames
  import opened PathNames

  /** No entry is a declaration at an offset or cites it. */
  predicate Ignores(die: Die, o: u64)
    decreases die
  {
    && !(die.attributes.declaration && die.offset == o) && die.attributes.specification != Some(o)
    && (die.Scope? ==> AllIgnore(die.children, o))
  }

  predicate AllIgnore(dies: seq<Die>, o: u64)
    decreases dies
  {
    dies != [] ==> Ignores(dies[0], o) && AllIgnore(dies[1..], o)
  }

  predicate SameScope(x: Die, y: Die) {
    x.Scope? && y.Scope? && x.offset == y.offset && x.attributes == y.attributes
  }

  /** ys is xs with an entry put in, in whatever scope. */
  predicate Inserted(xs: seq<Die>, ys: seq<Die>, entry: Die)
    decreases ys
  {
    && ys != []
    && (|| (ys[0] == entry && ys[1..] == xs)
        || (&& xs != []
            && (|| (xs[0] == ys[0] && Inserted(xs[1..], ys[1..], entry))
                || (SameScope(xs[0], ys[0]) && xs[1..] == ys[1..] && Inserted(xs[0].children, ys[0].children, entry)))))
  }

  /** ys is xs with an entry replaced, in whatever scope. */
  predicate Replaced(xs: seq<Die>, ys: seq<Die>, entry: Die, replacement: Die)
    decreases ys
  {
    && ys != [] && xs != []
    && (|| (xs[0] == entry && ys[0] == replacement && xs[1..] == ys[1..])
        || (xs[0] == ys[0] && Replaced(xs[1..], ys[1..], entry, replacement))
        || (&& SameScope(xs[0], ys[0]) && xs[1..] == ys[1..]
            && Replaced(xs[0].children, ys[0].children, entry, replacement)))
  }

  /** ys is xs with a declaration in an entry's place and its definition at a later one. */
  predicate Moved(xs: seq<Die>, ys: seq<Die>, entry: Die, declaration: Die, definition: Die)
    decreases ys
  {
    && ys != [] && xs != []
    && (|| (xs[0] == entry && ys[0] == declaration && Inserted(xs[1..], ys[1..], definition))
        || (xs[0] == ys[0] && Moved(xs[1..], ys[1..], entry, declaration, definition))
        || (&& SameScope(xs[0], ys[0])
            && (|| (&& xs[1..] == ys[1..]
                    && Moved(xs[0].children, ys[0].children, entry, declaration, definition))
                || (&& Replaced(xs[0].children, ys[0].children, entry, declaration)
                    && Inserted(xs[1..], ys[1..], definition)))))
  }

  function Define(die: Die, cut: Cut): Die {
    Definition(die, cut, if die.Scope? then die.children else [])
  }

  /** One move: of a plain entry that nothing else declares or cites, to any later place. */
  predicate IsMove(refs: References, xs: seq<Die>, ys: seq<Die>, die: Die, cut: Cut) {
    && IsPlain(die) && IsHandled(refs, die.offset) && AllIgnore(xs, die.offset)
    && (die.attributes.linkageName != "" ==> cut.declaresLinkageName || cut.repeatsLinkageName)
    && Moved(xs, ys, die, Declaration(die, cut), Define(die, cut))
  }

  /** The functions of an entry in its context. */
  function Its(language: Language, refs: References, die: Die, context: string): seq<Function> {
    Visit(language, refs, die, context, map[]).functions
  }

  /** The record of a declaration in its context. */
  function Record(die: Die, cut: Cut, context: string): Specification {
    Names(Declaration(die, cut).attributes, context, None)
  }

  /** What an entry is visited with, apart from the record at an offset. */
  ghost predicate Apart(s: Specifications, t: Specifications, o: u64) {
    forall k: u64 :: k == o || Same(s, t, k)
  }

  /** Entries that ignore an offset are visited alike whatever is recorded there, and leave it. */
  lemma {:induction false} IgnoredIsUnseen(
    language: Language, refs: References, die: Die, context: string, s: Specifications, t: Specifications, o: u64)
    requires Ignores(die, o) && Apart(s, t, o)
    ensures var r, u := Visit(language, refs, die, context, s), Visit(language, refs, die, context, t);
            r.functions == u.functions && Apart(r.specs, u.specs, o) && Same(u.specs, t, o)
    decreases die
  {
    hide Names, Joined, Contribution;
    var c, d := Cited(die.attributes, refs, s), Cited(die.attributes, refs, t);
    if die.attributes.specification.Some? {
      assert Same(s, t, die.attributes.specification.value);
    }
    assert c == d;
    var names := Names(die.attributes, context, c);
    RecordBoth(s, t, die.offset, names, o);
    if die.Scope? {
      var s' := if die.attributes.declaration then s[die.offset := names] else s;
      var t' := if die.attributes.declaration then t[die.offset := names] else t;
      AllIgnoredIsUnseen(language, refs, die.children, Joined(language, names), s', t', o);
    }
  }

  lemma {:induction false} RecordBoth(s: Specifications, t: Specifications, k: u64, names: Specification, o: u64)
    requires Apart(s, t, o)
    ensures Apart(s[k := names], t[k := names], o)
  {
    var s', t' := s[k := names], t[k := names];
    forall l: u64 ensures l == o || Same(s', t', l) {
      assert l == o || Same(s, t, l);
    }
  }

  lemma {:induction false} AllIgnoredIsUnseen(
    language: Language, refs: References, dies: seq<Die>, context: string, s: Specifications, t: Specifications, o: u64)
    requires AllIgnore(dies, o) && Apart(s, t, o)
    ensures var r, u := VisitAll(language, refs, dies, context, s), VisitAll(language, refs, dies, context, t);
            r.functions == u.functions && Apart(r.specs, u.specs, o) && Same(u.specs, t, o)
    decreases dies
  {
    hide Visit, Apart, Ignores;
    if dies != [] {
      IgnoredIsUnseen(language, refs, dies[0], context, s, t, o);
      var r, u := Visit(language, refs, dies[0], context, s), Visit(language, refs, dies[0], context, t);
      AllIgnoredIsUnseen(language, refs, dies[1..], context, r.specs, u.specs, o);
    }
  }

  /** Once its declaration is recorded, a definition has the entry's functions in any scope. */
  lemma {:induction false} DefinitionContributes(
    language: Language, refs: References, die: Die, cut: Cut, home: string, there: string, t: Specifications)
    requires IsPlain(die) && IsHandled(refs, die.offset)
    requires die.attributes.linkageName != "" ==> cut.declaresLinkageName || cut.repeatsLinkageName
    requires die.offset in t && t[die.offset] == Record(die, cut, home)
    ensures Visit(language, refs, Define(die, cut), there, t) == Result(Its(language, refs, die, home), t)
  {
    hide Names, Joined, Contribution, Declaration, Definition;
    DefinitionVisited(language, refs, die, cut, if die.Scope? then die.children else [], home, there, t);
    if die.Scope? {
      var name := Joined(language, Names(die.attributes, home, None));
      AllPlainIgnoreSpecifications(language, refs, die.children, name, t);
    }
  }

  /** From r to u some functions go and some come, and nothing is recorded elsewhere. */
  ghost predicate Balance(r: Result, u: Result, gone: multiset<Function>, come: multiset<Function>, o: u64) {
    multiset(u.functions) + gone == multiset(r.functions) + come && Apart(r.specs, u.specs, o)
  }

  lemma {:induction false} BalancesJoin(
    language: Language, refs: References, xs: seq<Die>, ys: seq<Die>, context: string,
    s: Specifications, t: Specifications, gone: multiset<Function>, come: multiset<Function>,
    gone': multiset<Function>, come': multiset<Function>, o: u64)
    requires xs != [] && ys != []
    requires var r, u := Visit(language, refs, xs[0], context, s), Visit(language, refs, ys[0], context, t);
             && Balance(r, u, gone, come, o)
             && Balance(VisitAll(language, refs, xs[1..], context, r.specs),
                        VisitAll(language, refs, ys[1..], context, u.specs), gone', come', o)
    ensures Balance(VisitAll(language, refs, xs, context, s), VisitAll(language, refs, ys, context, t),
                    gone + gone', come + come', o)
    ensures var u := Visit(language, refs, ys[0], context, t);
            VisitAll(language, refs, ys, context, t).specs == VisitAll(language, refs, ys[1..], context, u.specs).specs
  {
    hide Visit, Apart;
    var r, u := Visit(language, refs, xs[0], context, s), Visit(language, refs, ys[0], context, t);
    var r' := VisitAll(language, refs, xs[1..], context, r.specs);
    var u' := VisitAll(language, refs, ys[1..], context, u.specs);
    BalancesAdd(r, u, r', u', gone, come, gone', come', o);
  }

  lemma {:induction false} BalancesAdd(
    r: Result, u: Result, r': Result, u': Result, gone: multiset<Function>, come: multiset<Function>,
    gone': multiset<Function>, come': multiset<Function>, o: u64)
    requires Balance(r, u, gone, come, o) && Balance(r', u', gone', come', o)
    ensures Balance(Result(r.functions + r'.functions, r'.specs), Result(u.functions + u'.functions, u'.specs),
                    gone + gone', come + come', o)
  {
    hide Apart;
    var x, y, x', y' :=
      multiset(r.functions), multiset(u.functions), multiset(r'.functions), multiset(u'.functions);
    assert (y + y') + (gone + gone') == (y + gone) + (y' + gone');
    assert (x + x') + (come + come') == (x + come) + (x' + come');
  }

  lemma {:induction false} NothingAdds(f: multiset<Function>)
    ensures multiset{} + f == f == f + multiset{}
  {
  }

  lemma {:induction false} UnseenBalances(
    language: Language, refs: References, dies: seq<Die>, context: string, s: Specifications, t: Specifications, o: u64)
    requires AllIgnore(dies, o) && Apart(s, t, o)
    ensures var u := VisitAll(language, refs, dies, context, t);
            && Balance(VisitAll(language, refs, dies, context, s), u, multiset{}, multiset{}, o)
            && Same(u.specs, t, o)
  {
    hide VisitAll, Apart, AllIgnore;
    AllIgnoredIsUnseen(language, refs, dies, context, s, t, o);
  }

  lemma {:induction false} OneUnseenBalances(
    language: Language, refs: References, die: Die, context: string, s: Specifications, t: Specifications, o: u64)
    requires Ignores(die, o) && Apart(s, t, o)
    ensures var r, u := Visit(language, refs, die, context, s), Visit(language, refs, die, context, t);
            Balance(r, u, multiset{}, multiset{}, o) && Apart(r.specs, u.specs, o) && Same(u.specs, t, o)
  {
    hide Visit, Apart, Ignores;
    IgnoredIsUnseen(language, refs, die, context, s, t, o);
  }

  /** A definition that is put in adds the entry's functions. */
  lemma {:induction false} InsertedContributes(
    language: Language, refs: References, xs: seq<Die>, ys: seq<Die>, die: Die, cut: Cut, home: string,
    context: string, s: Specifications, t: Specifications)
    requires IsPlain(die) && IsHandled(refs, die.offset) && AllIgnore(xs, die.offset)
    requires die.attributes.linkageName != "" ==> cut.declaresLinkageName || cut.repeatsLinkageName
    requires Inserted(xs, ys, Define(die, cut)) && Apart(s, t, die.offset)
    requires die.offset in t && t[die.offset] == Record(die, cut, home)
    ensures var r, u := VisitAll(language, refs, xs, context, s), VisitAll(language, refs, ys, context, t);
            Balance(r, u, multiset{}, multiset(Its(language, refs, die, home)), die.offset)
    decreases ys
  {
    hide Visit, VisitAll, Names, Joined, Contribution, Define, Its, Record, Apart, Ignores, IsPlain, Balance;
    var o, f := die.offset, multiset(Its(language, refs, die, home));
    NothingAdds(f);
    NothingAdds(multiset{});
    if ys[0] == Define(die, cut) && ys[1..] == xs {
      DefinitionContributes(language, refs, die, cut, home, context, t);
      UnseenBalances(language, refs, xs, context, s, t, o);
      DefinitionFirst(language, refs, xs, ys, context, s, t, Its(language, refs, die, home), o);
    } else {
      var r, u := Visit(language, refs, xs[0], context, s), Visit(language, refs, ys[0], context, t);
      if xs[0] == ys[0] && Inserted(xs[1..], ys[1..], Define(die, cut)) {
        OneUnseenBalances(language, refs, xs[0], context, s, t, o);
        InsertedContributes(language, refs, xs[1..], ys[1..], die, cut, home, context, r.specs, u.specs);
        BalancesJoin(language, refs, xs, ys, context, s, t, multiset{}, multiset{}, multiset{}, f, o);
      } else {
        var s', t', name := ScopeEntered(language, refs, xs[0], ys[0], context, s, t, o);
        InsertedContributes(language, refs, xs[0].children, ys[0].children, die, cut, home, name, s', t');
        StillApart(r, u, multiset{}, f, o);
        UnseenBalances(language, refs, xs[1..], context, r.specs, u.specs, o);
        BalancesJoin(language, refs, xs, ys, context, s, t, multiset{}, f, multiset{}, multiset{}, o);
      }
    }
  }

  lemma {:induction false} StillApart(r: Result, u: Result, gone: multiset<Function>, come: multiset<Function>, o: u64)
    requires Balance(r, u, gone, come, o)
    ensures Apart(r.specs, u.specs, o)
  {
    hide Apart;
  }

  lemma {:induction false} DefinitionFirst(
    language: Language, refs: References, xs: seq<Die>, ys: seq<Die>, context: string,
    s: Specifications, t: Specifications, its: seq<Function>, o: u64)
    requires ys != [] && ys[1..] == xs && Visit(language, refs, ys[0], context, t) == Result(its, t)
    requires Balance(VisitAll(language, refs, xs, context, s), VisitAll(language, refs, xs, context, t),
                     multiset{}, multiset{}, o)
    ensures Balance(VisitAll(language, refs, xs, context, s), VisitAll(language, refs, ys, context, t),
                    multiset{}, multiset(its), o)
  {
    hide Visit, Apart;
    var r, u := VisitAll(language, refs, xs, context, s), VisitAll(language, refs, xs, context, t);
    assert VisitAll(language, refs, ys, context, t) == Result(its + u.functions, u.specs);
    NothingAdds(multiset(u.functions));
    NothingAdds(multiset(r.functions));
    NothingAdds(multiset(its + u.functions));
    assert multiset(its + u.functions) == multiset(r.functions) + multiset(its);
  }

  /** What the children of two like scopes are visited with. */
  lemma {:induction false} ScopeEntered(
    language: Language, refs: References, x: Die, y: Die, context: string, s: Specifications, t: Specifications, o: u64)
    returns (s': Specifications, t': Specifications, name: string)
    requires SameScope(x, y) && Ignores(x, o) && Apart(s, t, o)
    ensures Apart(s', t', o) && Same(t', t, o) && AllIgnore(x.children, o)
    ensures Visit(language, refs, x, context, s) == VisitAll(language, refs, x.children, name, s')
    ensures Visit(language, refs, y, context, t) == VisitAll(language, refs, y.children, name, t')
  {
    hide Names, Joined;
    if x.attributes.specification.Some? {
      assert Same(s, t, x.attributes.specification.value);
    }
    var names := Names(x.attributes, context, Cited(x.attributes, refs, s));
    RecordBoth(s, t, x.offset, names, o);
    s' := if x.attributes.declaration then s[x.offset := names] else s;
    t' := if x.attributes.declaration then t[x.offset := names] else t;
    name := Joined(language, names);
  }

  /** A declaration in an entry's place takes the entry's functions away, and leaves its record. */
  lemma {:induction false} ReplacedRecords(
    language: Language, refs: References, xs: seq<Die>, ys: seq<Die>, die: Die, cut: Cut,
    context: string, s: Specifications, t: Specifications) returns (home: string)
    requires IsPlain(die) && AllIgnore(xs, die.offset)
    requires Replaced(xs, ys, die, Declaration(die, cut)) && Apart(s, t, die.offset)
    ensures var r, u := VisitAll(language, refs, xs, context, s), VisitAll(language, refs, ys, context, t);
            && Balance(r, u, multiset(Its(language, refs, die, home)), multiset{}, die.offset)
            && die.offset in u.specs && u.specs[die.offset] == Record(die, cut, home)
    decreases ys
  {
    hide Visit, VisitAll, Names, Joined, Contribution, Declaration, Its, Record, Apart, Ignores, IsPlain, Balance;
    var o := die.offset;
    NothingAdds(multiset{});
    var r, u := Visit(language, refs, xs[0], context, s), Visit(language, refs, ys[0], context, t);
    if xs[0] == die && ys[0] == Declaration(die, cut) && xs[1..] == ys[1..] {
      home := context;
      DeclarationTakes(language, refs, die, cut, context, s, t);
      UnseenBalances(language, refs, xs[1..], context, r.specs, u.specs, o);
      var f := multiset(Its(language, refs, die, home));
      NothingAdds(f);
      BalancesJoin(language, refs, xs, ys, context, s, t, f, multiset{}, multiset{}, multiset{}, o);
    } else if xs[0] == ys[0] && Replaced(xs[1..], ys[1..], die, Declaration(die, cut)) {
      OneUnseenBalances(language, refs, xs[0], context, s, t, o);
      home := ReplacedRecords(language, refs, xs[1..], ys[1..], die, cut, context, r.specs, u.specs);
      var f := multiset(Its(language, refs, die, home));
      NothingAdds(f);
      BalancesJoin(language, refs, xs, ys, context, s, t, multiset{}, multiset{}, f, multiset{}, o);
    } else {
      var s', t', name := ScopeEntered(language, refs, xs[0], ys[0], context, s, t, o);
      home := ReplacedRecords(language, refs, xs[0].children, ys[0].children, die, cut, name, s', t');
      var f := multiset(Its(language, refs, die, home));
      NothingAdds(f);
      StillApart(r, u, f, multiset{}, o);
      UnseenBalances(language, refs, xs[1..], context, r.specs, u.specs, o);
      BalancesJoin(language, refs, xs, ys, context, s, t, f, multiset{}, multiset{}, multiset{}, o);
    }
  }

  lemma {:induction false} DeclarationTakes(
    language: Language, refs: References, die: Die, cut: Cut, context: string, s: Specifications, t: Specifications)
    requires IsPlain(die) && Apart(s, t, die.offset)
    ensures var r := Visit(language, refs, die, context, s);
            var u := Visit(language, refs, Declaration(die, cut), context, t);
            && Balance(r, u, multiset(Its(language, refs, die, context)), multiset{}, die.offset)
            && Apart(r.specs, u.specs, die.offset)
            && die.offset in u.specs && u.specs[die.offset] == Record(die, cut, context)
  {
    hide Visit, Names, IsPlain, Declaration;
    PlainIgnoresSpecifications(language, refs, die, context, s);
    DeclarationRecords(language, refs, die, cut, context, t);
    var t' := t[die.offset := Record(die, cut, context)];
    forall k: u64 ensures k == die.offset || Same(s, t', k) {
      assert k == die.offset || Same(s, t, k);
    }
  }

  /** The entry is the first one, and its definition later. */
  lemma {:induction false} MoveOfFirst(
    language: Language, refs: References, xs: seq<Die>, ys: seq<Die>, die: Die, cut: Cut,
    context: string, s: Specifications, t: Specifications) returns (f: multiset<Function>)
    requires IsPlain(die) && IsHandled(refs, die.offset) && AllIgnore(xs, die.offset)
    requires die.attributes.linkageName != "" ==> cut.declaresLinkageName || cut.repeatsLinkageName
    requires xs != [] && xs[0] == die && ys != [] && ys[0] == Declaration(die, cut)
    requires Inserted(xs[1..], ys[1..], Define(die, cut)) && Apart(s, t, die.offset)
    ensures Balance(VisitAll(language, refs, xs, context, s), VisitAll(language, refs, ys, context, t), f, f,
                    die.offset)
  {
    hide Visit, VisitAll, Declaration, Define, Its, Record, Apart, Ignores, IsPlain, Inserted, Balance;
    var r, u := Visit(language, refs, xs[0], context, s), Visit(language, refs, ys[0], context, t);
    f := multiset(Its(language, refs, die, context));
    DeclarationTakes(language, refs, die, cut, context, s, t);
    InsertedContributes(language, refs, xs[1..], ys[1..], die, cut, context, context, r.specs, u.specs);
    NothingAdds(f);
    BalancesJoin(language, refs, xs, ys, context, s, t, f, multiset{}, multiset{}, f, die.offset);
  }

  /** The entry is in the first scope, and its definition after that scope. */
  lemma {:induction false} MoveOutOfFirst(
    language: Language, refs: References, xs: seq<Die>, ys: seq<Die>, die: Die, cut: Cut,
    context: string, s: Specifications, t: Specifications) returns (f: multiset<Function>)
    requires IsPlain(die) && IsHandled(refs, die.offset) && AllIgnore(xs, die.offset)
    requires die.attributes.linkageName != "" ==> cut.declaresLinkageName || cut.repeatsLinkageName
    requires xs != [] && ys != [] && SameScope(xs[0], ys[0])
    requires Replaced(xs[0].children, ys[0].children, die, Declaration(die, cut))
    requires Inserted(xs[1..], ys[1..], Define(die, cut)) && Apart(s, t, die.offset)
    ensures Balance(VisitAll(language, refs, xs, context, s), VisitAll(language, refs, ys, context, t), f, f,
                    die.offset)
  {
    hide Visit, VisitAll, Declaration, Define, Its, Record, Apart, Ignores, IsPlain, Inserted, Replaced, Balance;
    var o := die.offset;
    var r, u := Visit(language, refs, xs[0], context, s), Visit(language, refs, ys[0], context, t);
    var s', t', name := ScopeEntered(language, refs, xs[0], ys[0], context, s, t, o);
    var home := ReplacedRecords(language, refs, xs[0].children, ys[0].children, die, cut, name, s', t');
    f := multiset(Its(language, refs, die, home));
    StillApart(r, u, f, multiset{}, o);
    InsertedContributes(language, refs, xs[1..], ys[1..], die, cut, home, context, r.specs, u.specs);
    NothingAdds(f);
    BalancesJoin(language, refs, xs, ys, context, s, t, f, multiset{}, multiset{}, f, o);
  }

  lemma {:induction false} MoveBalances(
    language: Language, refs: References, xs: seq<Die>, ys: seq<Die>, die: Die, cut: Cut,
    context: string, s: Specifications, t: Specifications) returns (f: multiset<Function>)
    requires IsMove(refs, xs, ys, die, cut) && Apart(s, t, die.offset)
    ensures Balance(VisitAll(language, refs, xs, context, s), VisitAll(language, refs, ys, context, t), f, f,
                    die.offset)
    decreases ys
  {
    hide Visit, VisitAll, Declaration, Define, Apart, Ignores, IsPlain, Inserted, Replaced, Balance;
    var o, declaration, definition := die.offset, Declaration(die, cut), Define(die, cut);
    var r, u := Visit(language, refs, xs[0], context, s), Visit(language, refs, ys[0], context, t);
    if xs[0] == die && ys[0] == declaration && Inserted(xs[1..], ys[1..], definition) {
      f := MoveOfFirst(language, refs, xs, ys, die, cut, context, s, t);
    } else if xs[0] == ys[0] && Moved(xs[1..], ys[1..], die, declaration, definition) {
      OneUnseenBalances(language, refs, xs[0], context, s, t, o);
      f := MoveBalances(language, refs, xs[1..], ys[1..], die, cut, context, r.specs, u.specs);
      NothingAdds(f);
      BalancesJoin(language, refs, xs, ys, context, s, t, multiset{}, multiset{}, f, f, o);
    } else if Replaced(xs[0].children, ys[0].children, die, declaration) && Inserted(xs[1..], ys[1..], definition) {
      f := MoveOutOfFirst(language, refs, xs, ys, die, cut, context, s, t);
    } else {
      var s', t', name := ScopeEntered(language, refs, xs[0], ys[0], context, s, t, o);
      f := MoveBalances(language, refs, xs[0].children, ys[0].children, die, cut, name, s', t');
      StillApart(r, u, f, f, o);
      UnseenBalances(language, refs, xs[1..], context, r.specs, u.specs, o);
      NothingAdds(f);
      BalancesJoin(language, refs, xs, ys, context, s, t, f, f, multiset{}, multiset{}, o);
    }
  }

  /** One move leaves every function's name and address as they were. */
  lemma {:induction false} MoveKeepsNames(
    language: Language, refs: References, xs: seq<Die>, ys: seq<Die>, die: Die, cut: Cut,
    context: string, specs: Specifications)
    requires IsMove(refs, xs, ys, die, cut)
    ensures multiset(VisitAll(language, refs, ys, context, specs).functions)
            == multiset(VisitAll(language, refs, xs, context, specs).functions)
  {
    hide VisitAll, IsMove;
    var f := MoveBalances(language, refs, xs, ys, die, cut, context, specs, specs);
    var r, u := VisitAll(language, refs, xs, context, specs), VisitAll(language, refs, ys, context, specs);
    assert multiset(u.functions) == multiset(u.functions) + f - f;
  }

  /** Any number of moves, one after the other, of entries in any forest, leave them as they were. */
  lemma {:induction false} MovesKeepNames(
    language: Language, refs: References, forests: seq<seq<Die>>, dies: seq<Die>, cuts: seq<Cut>, specs: Specifications)
    requires |forests| == |dies| + 1 == |cuts| + 1
    requires forall i :: 0 <= i < |dies| ==> IsMove(refs, forests[i], forests[i + 1], dies[i], cuts[i])
    ensures multiset(VisitAll(language, refs, forests[|dies|], "", specs).functions)
            == multiset(VisitAll(language, refs, forests[0], "", specs).functions)
  {
    hide VisitAll, IsMove;
    if dies != [] {
      var n := |dies| - 1;
      MoveKeepsNames(language, refs, forests[n], forests[n + 1], dies[n], cuts[n], "", specs);
      MovesKeepNames(language, refs, forests[..n + 1], dies[..n], cuts[..n], specs);
    }
  }

  /** After any moves in a forest without linkage names, every function has the name that its path
      in the unsplit forest spells. */
  lemma {:induction false} MovedNamesArePaths(
    language: Language, refs: References, forests: seq<seq<Die>>, dies: seq<Die>, cuts: seq<Cut>, specs: Specifications)
    requires |forests| == |dies| + 1 == |cuts| + 1
    requires forall i :: 0 <= i < |dies| ==> IsMove(refs, forests[i], forests[i + 1], dies[i], cuts[i])
    requires ArePlain(forests[0]) && HaveNoLinkageNames(forests[0])
    ensures multiset(VisitAll(language, refs, forests[|dies|], "", specs).functions)
            == multiset(AllFunctionsBelow(language, forests[0], []))
  {
    hide VisitAll, AllFunctionsBelow, IsMove;
    MovesKeepNames(language, refs, forests, dies, cuts, specs);
    NamesArePaths(language, refs, forests[0], [], specs);
  }
}
