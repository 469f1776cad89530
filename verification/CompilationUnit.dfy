/** The compilation-unit handler of dwarf_cu_to_module.cc: the lists it collects, the
    warnings it reports, and the sweep itself. */
module CompilationUnit {
  import opened MachineWords
  import opened LineSweep
  import opened Sorting
  import opened FunctionEntries
  import opened DwarfLineToModule

  /** Pairwise disjoint, whatever the order. */
  ghost predicate Disjoint<T>(spans: multiset<Span<T>>) {
    && (forall x :: x in spans ==> spans[x] == 1)
    && forall x, y :: x in spans && y in spans && x != y ==> x.End() <= y.address || y.End() <= x.address
  }

  method SortByAddress<T(!new)>(spans: seq<Span<T>>) returns (r: seq<Span<T>>)
    ensures Sorted(r) && multiset(r) == multiset(spans)
    ensures forall x :: x in r <==> x in spans
  {
    r := Sort(spans, (x: Span<T>) => x.address);
  }

  lemma {:induction false} OnceMeansDistinct<T>(xs: seq<T>)
    requires forall x :: x in multiset(xs) ==> multiset(xs)[x] == 1
    ensures Distinct(xs)
  {
    forall i, j | 0 <= i < j < |xs| ensures xs[i] != xs[j] {
      assert xs == xs[..j] + xs[j..];
      assert multiset(xs) == multiset(xs[..j]) + multiset(xs[j..]);
      assert xs[i] in xs[..j] && xs[j] in xs[j..];
      assert xs[i] in multiset(xs);
    }
  }

  lemma {:induction false} SortedDisjoint<T>(spans: seq<Span<T>>)
    requires Disjoint(multiset(spans)) && Sorted(spans) && AllProper(spans)
    ensures InOrder(spans)
  {
    OnceMeansDistinct(spans);
    forall i, j | 0 <= i < j < |spans| ensures spans[i].End() <= spans[j].address {
      assert spans[i] in multiset(spans) && spans[j] in multiset(spans) && spans[i] != spans[j];
      assert spans[j].Proper();
    }
  }

  lemma {:induction false} SweepOfDisjoint(was: Found, fs: seq<FunctionInfo>, ls: seq<Line>)
    requires Ready(fs, ls) && Disjoint(multiset(fs)) && Disjoint(multiset(ls))
    requires |was.held| == |fs| && forall j :: 0 <= j < |fs| ==> was.held[j] == []
    ensures var found := SweepAll(was, fs, ls).0;
            && |found.held| == |fs|
            && (forall j :: 0 <= j < |fs| ==> found.held[j] == AssignedLines(fs[j], ls))
            && found.functions == was.functions + Gapped(fs, ls, TWO_64)
            && found.lines == was.lines + Stray(ls, fs, TWO_64)
  {
    SortedDisjoint(fs);
    SortedDisjoint(ls);
    SweepIsExact(was, fs, ls);
    NothingHeldBefore(was.held, SweepAll(was, fs, ls).0.held, fs, ls);
  }

  lemma {:induction false} NothingHeldBefore(
    was: seq<seq<Line>>, now: seq<seq<Line>>, fs: seq<FunctionInfo>, ls: seq<Line>)
    requires HeldTo(was, now, fs, ls, TWO_64) && forall j :: 0 <= j < |fs| ==> was[j] == []
    ensures forall j :: 0 <= j < |fs| ==> now[j] == AssignedLines(fs[j], ls)
  {
    forall j | 0 <= j < |fs| ensures now[j] == AssignedLines(fs[j], ls) {
      assert was[j] + Cuts(fs[j], ls, |ls|, TWO_64) == Cuts(fs[j], ls, |ls|, TWO_64);
    }
  }

  /** Moves an iterator past the items that end at or before next: the loops at lines 993-996
      and 998-1001. */
  method SkipFinished<T>(rs: seq<Span<T>>, it: nat, next: u64) returns (it': nat)
    requires it <= |rs|
    ensures it' == AdvancePast(rs, it, next)
  {
    it' := it;
    while it' < |rs| && next >= rs[it'].address && !Within(rs[it'], next)
      invariant it' <= |rs| && AdvancePast(rs, it', next) == AdvancePast(rs, it, next)
    {
      it' := it' + 1;
    }
  }

  /** The next transition, and where the two iterators stand there. */
  method NextPosition(fs: seq<FunctionInfo>, ls: seq<Line>, funcIt: nat, lineIt: nat, current: u64)
    returns (next: u64, funcNext: nat, lineNext: nat)
    requires AllProper(fs) && AllProper(ls) && (funcIt < |fs| || lineIt < |ls|)
    requires At(fs, funcIt, current) && At(ls, lineIt, current)
    ensures next == NextTransition(Item(fs, funcIt), Item(ls, lineIt), current)
    ensures next != 0 ==>
              && current < next
              && funcNext == AdvancePast(fs, funcIt, next) && lineNext == AdvancePast(ls, lineIt, next)
  {
    // The first invariant the source asserts.
    if funcIt < |fs| {
      WithinIsHas(fs[funcIt], current);
      assert current < fs[funcIt].address || Within(fs[funcIt], current);
    }
    if lineIt < |ls| {
      WithinIsHas(ls[lineIt], current);
      assert current < ls[lineIt].address || Within(ls[lineIt], current);
    }
    next, funcNext, lineNext := NextTransition(Item(fs, funcIt), Item(ls, lineIt), current), funcIt, lineIt;
    NextIsSteady(fs, ls, funcIt, lineIt, current);
    if next != 0 {
      funcNext := SkipFinished(fs, funcIt, next);
      lineNext := SkipFinished(ls, lineIt, next);
      // The source asserts that it makes progress.
      assert next > current;
    }
  }

  class CompilationUnit {
    var functions: seq<FunctionInfo>
    // The line vector of each function, by position in functions.
    var functionLines: seq<seq<Line>>
    var lines: seq<Line>
    // What the warning reporter was told.
    var uncoveredFunctions: seq<FunctionInfo>
    var uncoveredLines: seq<Line>

    ghost function Findings(): (r: Found)
      reads this
    {
      Found(functionLines, uncoveredFunctions, uncoveredLines)
    }

    /** What the sweep asks of the two lists. */
    ghost predicate ProperInput()
      reads this
    {
      (forall f :: f in functions ==> f.Proper()) && (forall l :: l in lines ==> l.Proper())
    }

    /** FuncHandler::Finish (lines 521-555): a function is added exactly if its range is not empty,
        does not start at zero and ends below the end of the address space. */
    method FinishFunction(name: string, range: PcRange)
      requires ProperInput()
      modifies `functions
      ensures ProperInput()
      ensures functions == old(functions) + Contribution(name, range)
      ensures var end := if range.highIsLength then range.low + range.high else range.high;
              if 0 < range.low < end < 0x1_0000_0000_0000_0000
              then functions == old(functions) + [Span(range.low, end - range.low,
                                                       if name == "" then "<name omitted>" else name)]
              else functions == old(functions)
    {
      ContributionIsExact(name, range);
      var highPc := if range.highIsLength then Add64(range.high, range.low) else range.high;
      if range.low < highPc {
        var info := Span(range.low, Sub64(highPc, range.low), if name != "" then name else "<name omitted>");
        if range.low != 0 {
          functions := functions + [info];
        }
      }
    }

    /** What one transition does to the lists and the reporter (lines 918-980). */
    method Attribute(funcIt: nat, lineIt: nat, current: u64, next: u64, marks: Marks)
      returns (marks': Marks)
      requires |functionLines| == |functions|
      requires funcIt <= |functions| && lineIt <= |lines|
      modifies `functionLines, `uncoveredFunctions, `uncoveredLines
      ensures Findings() == FoundAfter(old(Findings()), functions, lines, funcIt, lineIt, current, next, marks)
      ensures |functionLines| == |functions|
      ensures marks' == MarksAfter(functions, lines, funcIt, lineIt, current, marks)
    {
      marks' := marks;
      var hasFunction := funcIt < |functions| && current >= functions[funcIt].address;
      var hasLine := lineIt < |lines| && current >= lines[lineIt].address;
      if hasFunction && hasLine {
        var piece := lines[lineIt].(address := current, size := Sub64(next, current));
        functionLines := functionLines[funcIt := functionLines[funcIt] + [piece]];
        marks' := marks.(lastLineUsed := lineIt);
      } else if hasFunction {
        if funcIt != marks.lastFunctionCited {
          uncoveredFunctions := uncoveredFunctions + [functions[funcIt]];
          marks' := marks.(lastFunctionCited := funcIt);
        }
      } else if hasLine {
        if && lineIt != marks.lastLineCited
           && !(&& funcIt < |functions| && lineIt == marks.lastLineUsed
                && Sub64(functions[funcIt].address, lines[lineIt].address) == lines[lineIt].size) {
          uncoveredLines := uncoveredLines + [lines[lineIt]];
          marks' := marks.(lastLineCited := lineIt);
        }
      }
    }

    /** The single pass over both sorted lists (lines 839-1007). */
    method Sweep() returns (ghost steps: nat)
      requires Ready(functions, lines) && |functionLines| == |functions|
      modifies `functionLines, `uncoveredFunctions, `uncoveredLines
      ensures |functionLines| == |functions|
      ensures (Findings(), steps) == SweepAll(old(Findings()), functions, lines)
    {
      steps := 0;
      if functions == [] && lines == [] {
        return;
      }
      StartsAtFirst(functions, lines);
      var marks := Marks(-1, -1, -1);
      var funcIt, lineIt := 0, 0;
      var current: u64 := FirstAddress(functions, lines);
      ghost var whole := SweepAll(Findings(), functions, lines);
      while funcIt < |functions| || lineIt < |lines|
        invariant |functionLines| == |functions|
        invariant At(functions, funcIt, current) && At(lines, lineIt, current)
        invariant whole.0 == Run(Findings(), functions, lines, funcIt, lineIt, current, marks).0
        invariant whole.1 == Run(Findings(), functions, lines, funcIt, lineIt, current, marks).1 + steps
        decreases TWO_64 - current
      {
        var next, funcNext, lineNext := NextPosition(functions, lines, funcIt, lineIt, current);
        ghost var found, m := Findings(), marks;
        marks := Attribute(funcIt, lineIt, current, next, marks);
        steps := steps + 1;
        RunStep(found, Findings(), functions, lines, funcIt, lineIt, current, next, m);
        if next == 0 {
          return;
        }
        funcIt, lineIt, current := funcNext, lineNext, next;
      }
    }

    /** AssignLinesToFunctions, on functions that have no lines yet. Overlapping ranges only
        cost exactness: the sweep still ends after at most one transition per boundary. */
    method AssignLinesToFunctions() returns (ghost steps: nat)
      requires ProperInput()
      modifies this
      ensures multiset(functions) == multiset(old(functions)) && Sorted(functions)
      ensures multiset(lines) == multiset(old(lines)) && Sorted(lines)
      ensures |functionLines| == |functions|
      ensures steps <= 2 * (|functions| + |lines|)
      ensures Disjoint(multiset(functions)) && Disjoint(multiset(lines)) ==>
                && (forall j :: 0 <= j < |functions| ==> functionLines[j] == AssignedLines(functions[j], lines))
                && uncoveredFunctions == old(uncoveredFunctions) + Gapped(functions, lines, TWO_64)
                && uncoveredLines == old(uncoveredLines) + Stray(lines, functions, TWO_64)
    {
      functions := SortByAddress(functions);
      lines := SortByAddress(lines);
      functionLines := seq(|functions|, _ => []);
      ghost var was := Findings();
      steps := Sweep();
      SweepIsShort(was, functions, lines);
      if Disjoint(multiset(functions)) && Disjoint(multiset(lines)) {
        SweepOfDisjoint(was, functions, lines);
      }
    }

    /** DwarfCUToModule::Finish (lines 1010-1033): reads the lines, if there are any, hands them out
        and gives the functions away. */
    method Finish(hasFunctions: bool, reader: DwarfLineToModule?)
      returns (given: seq<FunctionInfo>, givenLines: seq<seq<Line>>, ghost read: seq<Line>)
      requires ProperInput() && (reader != null ==> reader.Valid())
      modifies this
      ensures !hasFunctions ==> unchanged(this) && given == []
      ensures hasFunctions ==>
                && functions == [] && Sorted(given) && multiset(given) == multiset(old(functions))
                && read == (if reader != null then LinesOf(reader.records, |reader.records|) else old(lines))
                && Sorted(lines) && multiset(lines) == multiset(read) && |givenLines| == |given|
                && (Disjoint(multiset(given)) && Disjoint(multiset(read)) ==>
                      && (forall j :: 0 <= j < |given| ==> givenLines[j] == AssignedLines(given[j], lines))
                      && uncoveredFunctions == old(uncoveredFunctions) + Gapped(given, lines, TWO_64)
                      && uncoveredLines == old(uncoveredLines) + Stray(lines, given, TWO_64))
    {
      hide AssignedLines, Gapped, Stray, LinesOf, Disjoint, Sorted;
      given, givenLines, read := [], [], lines;
      if !hasFunctions {
        return;
      }
      if reader != null {
        lines := reader.lines;
        read := lines;
        LinesAreProper(reader.records, |reader.records|);
      }
      ghost var steps := AssignLinesToFunctions();
      given, givenLines := functions, functionLines;
      functions, functionLines := [], [];
    }
  }
}
