/** The sweep that hands source lines to the functions they fall in:
    DwarfCUToModule::AssignLinesToFunctions (dwarf_cu_to_module.cc:808-1008).

    The reference definition is AssignedLines: function by function and line by line, the
    non-empty intersections. The sweep computes it in one pass over both lists. */
module LineSweep {
  import opened MachineWords

  /** Something that covers the addresses [address, address + size), computed without
      wrap-around, and what it is. */
  datatype Span<+T> = Span(address: u64, size: u64, what: T) {
    function End(): int { address + size }

    /** At least one byte, and not past the end of the address space. */
    predicate Proper() { 0 < size && address + size <= TWO_64 }

    predicate Has(b: int) { address <= b < address + size }
  }

  datatype SourcePosition = SourcePosition(file: string, number: int)

  type Line = Span<SourcePosition>

  /** The fixed part of a function: its range and its name. */
  type FunctionInfo = Span<string>

  /** The source's containment test, on wrapping unsigned arithmetic. */
  predicate Within<T>(item: Span<T>, address: u64) {
    Sub64(address, item.address) < item.size
  }

  lemma {:induction false} WithinIsHas<T>(item: Span<T>, address: u64)
    requires item.Proper()
    ensures Within(item, address) <==> item.Has(address)
  {
  }

  ghost predicate AllProper<T>(rs: seq<Span<T>>) {
    forall i :: 0 <= i < |rs| ==> rs[i].Proper()
  }

  ghost predicate Sorted<T>(rs: seq<Span<T>>) {
    forall i, j :: 0 <= i < j < |rs| ==> rs[i].address <= rs[j].address
  }

  /** Sorted by address and pairwise disjoint. */
  ghost predicate InOrder<T>(rs: seq<Span<T>>) {
    forall i, j :: 0 <= i < j < |rs| ==> rs[i].End() <= rs[j].address
  }

  ghost predicate Distinct<T>(xs: seq<T>) {
    forall i, j :: 0 <= i < j < |xs| ==> xs[i] != xs[j]
  }

  ghost predicate Covered<T>(rs: seq<Span<T>>, b: int) {
    exists i :: 0 <= i < |rs| && rs[i].Has(b)
  }

  // ---------------------------------------------------------------- what the sweep computes

  /** The bytes of f below limit that lie in line l, as a line record; none if there are none. */
  function Cut(f: FunctionInfo, l: Line, limit: int): (r: seq<Line>)
    requires limit <= TWO_64
  {
    var a, b := Max(f.address, l.address), Min(Min(f.End(), limit), l.address + l.size);
    if a < b then [l.(address := a, size := b - a)] else []
  }

  /** The cuts of the first n lines, in order. */
  function Cuts(f: FunctionInfo, ls: seq<Line>, n: nat, limit: int): (r: seq<Line>)
    requires limit <= TWO_64 && n <= |ls|
  {
    if n == 0 then [] else Cuts(f, ls, n - 1, limit) + Cut(f, ls[n - 1], limit)
  }

  /** The lines function f should get: its intersections with all the lines. */
  function AssignedLines(f: FunctionInfo, ls: seq<Line>): (r: seq<Line>) {
    Cuts(f, ls, |ls|, TWO_64)
  }

  /** Some byte of f below limit has no line. */
  ghost predicate HasGap(f: FunctionInfo, ls: seq<Line>, limit: int) {
    exists b :: f.Has(b) && b < limit && !Covered(ls, b)
  }

  /** A compiler pads the space before the next function and attributes the padding to the
      line before it: byte b of l has no function, but l does supply code to some function
      and ends where the next function after b starts. */
  ghost predicate IsPadding(fs: seq<FunctionInfo>, l: Line, b: int) {
    && (exists k :: 0 <= k < |fs| && fs[k].address == l.End())
    && (forall k :: 0 <= k < |fs| ==> !(b < fs[k].address < l.End()))
    && (exists c :: l.Has(c) && Covered(fs, c))
  }

  /** Some byte of l below limit has no function, and is not padding. */
  ghost predicate HasStrayByte(l: Line, fs: seq<FunctionInfo>, limit: int) {
    exists b :: l.Has(b) && b < limit && !Covered(fs, b) && !IsPadding(fs, l, b)
  }

  /** The two things the reporter is told about: functions with a gap, lines with a stray byte. */
  datatype Complaint =
    | AboutFunctions(fs: seq<FunctionInfo>, ls: seq<Line>)
    | AboutLines(ls: seq<Line>, fs: seq<FunctionInfo>)
  {
    /** The complaint is justified about item i by bytes below limit. */
    ghost predicate Holds(i: int, limit: int) {
      match this
      case AboutFunctions(fs, ls) => 0 <= i < |fs| && HasGap(fs[i], ls, limit)
      case AboutLines(ls, fs) => 0 <= i < |ls| && HasStrayByte(ls[i], fs, limit)
    }
  }

  /** Those of the first n items the complaint is justified about, in order. */
  ghost function Select<T>(xs: seq<T>, c: Complaint, limit: int, n: nat): (r: seq<T>)
    requires n <= |xs|
  {
    if n == 0 then []
    else Select(xs, c, limit, n - 1) + if c.Holds(n - 1, limit) then [xs[n - 1]] else []
  }

  /** The functions with a gap below limit. */
  ghost function Gapped(fs: seq<FunctionInfo>, ls: seq<Line>, limit: int): (r: seq<FunctionInfo>) {
    Select(fs, AboutFunctions(fs, ls), limit, |fs|)
  }

  /** The lines with a stray byte below limit. */
  ghost function Stray(ls: seq<Line>, fs: seq<FunctionInfo>, limit: int): (r: seq<Line>) {
    Select(ls, AboutLines(ls, fs), limit, |ls|)
  }

  // ---------------------------------------------------------------- one transition

  /** The first function and line that are not finished at current. */
  ghost predicate At<T>(rs: seq<Span<T>>, i: int, current: int) {
    && 0 <= i <= |rs|
    && (forall k :: 0 <= k < i ==> rs[k].End() <= current)
    && (i < |rs| ==> current < rs[i].End())
  }

  /** The address of the next transition after current, given the function and the line
      that contain or start after it; 2^64 wraps to zero. */
  function NextTransition(func: Option<FunctionInfo>, line: Option<Line>, current: u64): (next: u64)
    requires func.Some? || line.Some?
  {
    if func.Some? && current >= func.value.address then
      if line.Some? && current >= line.value.address then
        var funcLeft := Sub64(func.value.size, Sub64(current, func.value.address));
        var lineLeft := Sub64(line.value.size, Sub64(current, line.value.address));
        Add64(current, Min(funcLeft, lineLeft))
      else if line.Some? && Within(func.value, line.value.address) then line.value.address
      else Add64(func.value.address, func.value.size)
    else if line.Some? && current >= line.value.address then
      if func.Some? && Within(line.value, func.value.address) then func.value.address
      else Add64(line.value.address, line.value.size)
    else if func.Some? && line.Some? then Min(func.value.address, line.value.address)
    else if func.Some? then func.value.address
    else line.value.address
  }

  /** Where the next transition lies, as a number up to 2^64. */
  function Reach(next: u64): int { if next == 0 then TWO_64 else next }

  /** The item contains current or starts after it (the loop's first stated assertion). */
  predicate Ahead<T>(item: Option<Span<T>>, current: u64) {
    item.Some? ==> item.value.Proper() && current < item.value.End()
  }

  /** Addresses where the coverage of some item begins or ends. */
  predicate Boundary<T>(item: Option<Span<T>>, x: int) {
    item.Some? && (x == item.value.address || x == item.value.End())
  }

  lemma {:induction false} NextTransitionAdvances(func: Option<FunctionInfo>, line: Option<Line>, current: u64)
    requires func.Some? || line.Some?
    requires Ahead(func, current) && Ahead(line, current)
    ensures var r := Reach(NextTransition(func, line, current));
            && current < r
            && (Boundary(func, r) || Boundary(line, r))
            && (forall x :: (Boundary(func, x) || Boundary(line, x)) && current < x ==> r <= x)
  {
  }

  /** Entry rs[i] is the first one unfinished at current, and its coverage does not change
      anywhere in [current, next). */
  ghost predicate Steady<T>(rs: seq<Span<T>>, i: int, current: int, next: int) {
    && At(rs, i, current)
    && current < next
    && (i < |rs| ==> next <= if rs[i].address <= current then rs[i].End() else rs[i].address)
  }

  predicate Covers<T>(rs: seq<Span<T>>, i: int, current: int) {
    0 <= i < |rs| && rs[i].address <= current
  }

  lemma {:induction false} SteadyCoverage<T>(rs: seq<Span<T>>, i: int, current: int, next: int, b: int)
    requires InOrder(rs) && AllProper(rs) && Steady(rs, i, current, next) && current <= b < next
    ensures Covered(rs, b) <==> Covers(rs, i, current)
  {
    assert forall k :: 0 <= k < |rs| && k != i ==> !rs[k].Has(b);
    if Covers(rs, i, current) {
      assert rs[i].Has(b);
    }
  }

  lemma {:induction false} CutsUnchanged(f: FunctionInfo, ls: seq<Line>, n: nat, current: int, next: int)
    requires current <= TWO_64 && next <= TWO_64 && n <= |ls|
    requires forall k :: 0 <= k < n ==> Cut(f, ls[k], current) == Cut(f, ls[k], next)
    ensures Cuts(f, ls, n, current) == Cuts(f, ls, n, next)
  {
    if n > 0 {
      CutsUnchanged(f, ls, n - 1, current, next);
      assert Cut(f, ls[n - 1], current) == Cut(f, ls[n - 1], next);
    }
  }

  lemma {:induction false} CutsExtended(f: FunctionInfo, ls: seq<Line>, i: nat, n: nat, current: int, next: int)
    requires current <= TWO_64 && next <= TWO_64 && i < n <= |ls|
    requires forall k :: 0 <= k < n && k != i ==> Cut(f, ls[k], current) == Cut(f, ls[k], next)
    requires forall k :: i < k < n ==> Cut(f, ls[k], next) == []
    requires Cut(f, ls[i], current) == []
    ensures Cuts(f, ls, n, next) == Cuts(f, ls, n, current) + Cut(f, ls[i], next)
  {
    hide Cut;
    if n == i + 1 {
      CutsUnchanged(f, ls, i, current, next);
    } else {
      CutsExtended(f, ls, i, n - 1, current, next);
      NoCutAdded(f, ls, n, current);
      NoCutAdded(f, ls, n, next);
    }
  }

  lemma {:induction false} NoCutAdded(f: FunctionInfo, ls: seq<Line>, n: nat, limit: int)
    requires limit <= TWO_64 && 0 < n <= |ls| && Cut(f, ls[n - 1], limit) == []
    ensures Cuts(f, ls, n, limit) == Cuts(f, ls, n - 1, limit)
  {
    hide Cut;
  }

  lemma {:induction false} CutStable(f: FunctionInfo, l: Line, current: int, next: int)
    requires current <= next <= TWO_64
    requires f.End() <= current || next <= f.address || l.End() <= current || next <= l.address
    ensures Cut(f, l, current) == Cut(f, l, next)
  {
  }

  /** Outside the state "covered by a function and a line", a transition assigns nothing. */
  lemma {:induction false} CutsKept(
    fs: seq<FunctionInfo>, ls: seq<Line>, fi: int, li: int, current: int, next: int, j: int)
    requires InOrder(fs) && AllProper(fs) && Steady(fs, fi, current, next)
    requires InOrder(ls) && AllProper(ls) && Steady(ls, li, current, next)
    requires next <= TWO_64 && 0 <= j < |fs|
    requires !(j == fi && Covers(fs, fi, current) && Covers(ls, li, current))
    ensures Cuts(fs[j], ls, |ls|, next) == Cuts(fs[j], ls, |ls|, current)
  {
    forall k | 0 <= k < |ls| ensures Cut(fs[j], ls[k], current) == Cut(fs[j], ls[k], next) {
      CutStable(fs[j], ls[k], current, next);
    }
    CutsUnchanged(fs[j], ls, |ls|, current, next);
  }

  /** In that state, it assigns exactly the bytes up to the next transition. */
  lemma {:induction false} CutAdded(fs: seq<FunctionInfo>, ls: seq<Line>, fi: int, li: int, current: u64, next: int)
    requires InOrder(fs) && AllProper(fs) && Steady(fs, fi, current, next)
    requires InOrder(ls) && AllProper(ls) && Steady(ls, li, current, next)
    requires Covers(fs, fi, current) && Covers(ls, li, current)
    requires current == fs[fi].address || current == ls[li].address
    ensures next <= ls[li].address + ls[li].size
    ensures next <= TWO_64
    ensures Cuts(fs[fi], ls, |ls|, next)
            == Cuts(fs[fi], ls, |ls|, current) + [ls[li].(address := current, size := next - current)]
  {
    var f := fs[fi];
    forall k | 0 <= k < |ls| && k != li
      ensures Cut(f, ls[k], current) == Cut(f, ls[k], next)
      ensures li < k ==> Cut(f, ls[k], next) == []
    {
      CutStable(f, ls[k], current, next);
    }
    assert Cut(f, ls[li], next) == [ls[li].(address := current, size := next - current)];
    CutsExtended(f, ls, li, |ls|, current, next);
  }

  lemma {:induction false} SelectGrows<T>(xs: seq<T>, c: Complaint, limit: int, next: int, i: int, n: nat)
    requires n <= |xs|
    requires forall k :: 0 <= k < n && k != i ==> c.Holds(k, limit) == c.Holds(k, next)
    requires 0 <= i < n && c.Holds(i, limit) ==> c.Holds(i, next)
    requires forall k :: i < k < n ==> !c.Holds(k, next)
    ensures Select(xs, c, next, n)
            == Select(xs, c, limit, n) + if 0 <= i < n && c.Holds(i, next) && !c.Holds(i, limit) then [xs[i]] else []
  {
    if n > 0 {
      SelectGrows(xs, c, limit, next, i, n - 1);
    }
  }

  /** One transition gives function fi a new gap exactly when it has no line there. */
  lemma {:induction false} GapStep(
    fs: seq<FunctionInfo>, ls: seq<Line>, fi: int, li: int, current: int, next: int, j: int)
    requires InOrder(fs) && AllProper(fs) && Steady(fs, fi, current, next)
    requires InOrder(ls) && AllProper(ls) && Steady(ls, li, current, next)
    requires 0 <= j < |fs|
    ensures j > fi ==> !HasGap(fs[j], ls, next)
    ensures HasGap(fs[j], ls, next)
            <==> HasGap(fs[j], ls, current) || (j == fi && Covers(fs, fi, current) && !Covers(ls, li, current))
  {
    if HasGap(fs[j], ls, next) && !HasGap(fs[j], ls, current) {
      var b :| fs[j].Has(b) && b < next && !Covered(ls, b);
      assert current <= b;
      SteadyCoverage(ls, li, current, next, b);
      SteadyCoverage(fs, fi, current, next, b);
      assert fi <= j;
    }
    if j == fi && Covers(fs, fi, current) && !Covers(ls, li, current) {
      SteadyCoverage(ls, li, current, next, current);
      assert fs[j].Has(current);
    }
  }

  lemma {:induction false} GappedStep(fs: seq<FunctionInfo>, ls: seq<Line>, fi: int, li: int, current: int, next: int)
    requires InOrder(fs) && AllProper(fs) && Steady(fs, fi, current, next)
    requires InOrder(ls) && AllProper(ls) && Steady(ls, li, current, next)
    ensures && (forall j :: fi < j < |fs| ==> !HasGap(fs[j], ls, next))
            && (fi < |fs| && Covers(fs, fi, current) && !Covers(ls, li, current) ==> HasGap(fs[fi], ls, next))
            && (fi < |fs| && !(Covers(fs, fi, current) && !Covers(ls, li, current))
                ==> (HasGap(fs[fi], ls, next) <==> HasGap(fs[fi], ls, current)))
            && Gapped(fs, ls, next)
               == Gapped(fs, ls, current)
                  + if Covers(fs, fi, current) && !Covers(ls, li, current) && !HasGap(fs[fi], ls, current)
                    then [fs[fi]] else []
  {
    forall j | 0 <= j < |fs|
      ensures j > fi ==> !HasGap(fs[j], ls, next)
      ensures HasGap(fs[j], ls, next)
              <==> HasGap(fs[j], ls, current) || (j == fi && Covers(fs, fi, current) && !Covers(ls, li, current))
    {
      GapStep(fs, ls, fi, li, current, next, j);
    }
    var c := AboutFunctions(fs, ls);
    assert forall k :: 0 <= k < |fs| ==> c.Holds(k, current) == HasGap(fs[k], ls, current);
    assert forall k :: 0 <= k < |fs| ==> c.Holds(k, next) == HasGap(fs[k], ls, next);
    SelectGrows(fs, c, current, next, fi, |fs|);
  }

  /** Some byte of l below limit is supplied to a function. */
  ghost predicate UsedBefore(l: Line, fs: seq<FunctionInfo>, limit: int) {
    exists c :: l.Has(c) && c < limit && Covered(fs, c)
  }

  /** The source's test for alignment padding, made at a byte that has a line and no function. */
  ghost predicate LooksLikePadding(fs: seq<FunctionInfo>, ls: seq<Line>, fi: int, li: int, current: int) {
    && 0 <= fi < |fs| && 0 <= li < |ls|
    && UsedBefore(ls[li], fs, current)
    && fs[fi].address == ls[li].End()
  }

  lemma {:induction false} PaddingTestIsExact(
    fs: seq<FunctionInfo>, ls: seq<Line>, fi: int, li: int, current: int, next: int, b: int)
    requires InOrder(fs) && AllProper(fs) && Steady(fs, fi, current, next) && !Covers(fs, fi, current)
    requires InOrder(ls) && AllProper(ls) && Steady(ls, li, current, next) && Covers(ls, li, current)
    requires current <= b < next
    ensures IsPadding(fs, ls[li], b) <==> LooksLikePadding(fs, ls, fi, li, current)
  {
    var l := ls[li];
    if IsPadding(fs, l, b) {
      var k :| 0 <= k < |fs| && fs[k].address == l.End();
      assert fi <= k;
      assert fs[fi].address == l.End();
      var c :| l.Has(c) && Covered(fs, c);
      var m :| 0 <= m < |fs| && fs[m].Has(c);
      assert m < fi;
    }
  }

  /** One transition gives line li a new stray byte exactly when the sweep finds it has no
      function there and does not look like padding. */
  lemma {:induction false} StrayByteStep(
    fs: seq<FunctionInfo>, ls: seq<Line>, fi: int, li: int, current: int, next: int, j: int)
    requires InOrder(fs) && AllProper(fs) && Steady(fs, fi, current, next)
    requires InOrder(ls) && AllProper(ls) && Steady(ls, li, current, next)
    requires 0 <= j < |ls|
    ensures j > li ==> !HasStrayByte(ls[j], fs, next)
    ensures HasStrayByte(ls[j], fs, next)
            <==> || HasStrayByte(ls[j], fs, current)
                 || (&& j == li && Covers(ls, li, current) && !Covers(fs, fi, current)
                     && !LooksLikePadding(fs, ls, fi, li, current))
  {
    if HasStrayByte(ls[j], fs, next) && !HasStrayByte(ls[j], fs, current) {
      var b :| ls[j].Has(b) && b < next && !Covered(fs, b) && !IsPadding(fs, ls[j], b);
      assert current <= b;
      SteadyCoverage(ls, li, current, next, b);
      SteadyCoverage(fs, fi, current, next, b);
      assert li <= j;
      PaddingTestIsExact(fs, ls, fi, li, current, next, b);
    }
    if && j == li && Covers(ls, li, current) && !Covers(fs, fi, current)
       && !LooksLikePadding(fs, ls, fi, li, current) {
      SteadyCoverage(fs, fi, current, next, current);
      PaddingTestIsExact(fs, ls, fi, li, current, next, current);
      assert ls[j].Has(current);
    }
  }

  lemma {:induction false} StrayStep(fs: seq<FunctionInfo>, ls: seq<Line>, fi: int, li: int, current: int, next: int)
    requires InOrder(fs) && AllProper(fs) && Steady(fs, fi, current, next)
    requires InOrder(ls) && AllProper(ls) && Steady(ls, li, current, next)
    ensures var cited := Covers(ls, li, current) && !Covers(fs, fi, current)
                         && !LooksLikePadding(fs, ls, fi, li, current);
            && (forall j :: li < j < |ls| ==> !HasStrayByte(ls[j], fs, next))
            && (li < |ls| ==> (HasStrayByte(ls[li], fs, next) <==> HasStrayByte(ls[li], fs, current) || cited))
            && Stray(ls, fs, next)
               == Stray(ls, fs, current)
                  + if cited && !HasStrayByte(ls[li], fs, current) then [ls[li]] else []
  {
    forall j | 0 <= j < |ls|
      ensures j > li ==> !HasStrayByte(ls[j], fs, next)
      ensures HasStrayByte(ls[j], fs, next)
              <==> || HasStrayByte(ls[j], fs, current)
                   || (&& j == li && Covers(ls, li, current) && !Covers(fs, fi, current)
                       && !LooksLikePadding(fs, ls, fi, li, current))
    {
      StrayByteStep(fs, ls, fi, li, current, next, j);
    }
    var c := AboutLines(ls, fs);
    assert forall k :: 0 <= k < |ls| ==> c.Holds(k, current) == HasStrayByte(ls[k], fs, current);
    assert forall k :: 0 <= k < |ls| ==> c.Holds(k, next) == HasStrayByte(ls[k], fs, next);
    SelectGrows(ls, c, current, next, li, |ls|);
  }

  lemma {:induction false} UsedStep(fs: seq<FunctionInfo>, ls: seq<Line>, fi: int, li: int, current: int, next: int)
    requires InOrder(fs) && AllProper(fs) && Steady(fs, fi, current, next)
    requires InOrder(ls) && AllProper(ls) && Steady(ls, li, current, next)
    ensures li < |ls| ==>
              (UsedBefore(ls[li], fs, next)
               <==> UsedBefore(ls[li], fs, current) || (Covers(fs, fi, current) && Covers(ls, li, current)))
    ensures forall j :: li < j < |ls| ==> !UsedBefore(ls[j], fs, next)
  {
    assert forall j :: li < j < |ls| ==> next <= ls[j].address;
    if li < |ls| {
      if UsedBefore(ls[li], fs, next) && !UsedBefore(ls[li], fs, current) {
        var c :| ls[li].Has(c) && c < next && Covered(fs, c);
        assert current <= c;
        SteadyCoverage(fs, fi, current, next, c);
        SteadyCoverage(ls, li, current, next, c);
      }
      if Covers(fs, fi, current) && Covers(ls, li, current) {
        SteadyCoverage(fs, fi, current, next, current);
        assert ls[li].Has(current);
      }
    }
  }

  // ---------------------------------------------------------------- the whole sweep

  /** The sweep's "last" pointers, as indices; -1 stands for NULL. */
  datatype Marks = Marks(lastLineUsed: int, lastFunctionCited: int, lastLineCited: int)

  ghost function MarksAfter(fs: seq<FunctionInfo>, ls: seq<Line>, fi: int, li: int, current: int, m: Marks): (r: Marks)
  {
    if Covers(fs, fi, current) then
      if Covers(ls, li, current) then m.(lastLineUsed := li) else m.(lastFunctionCited := fi)
    else if && Covers(ls, li, current)
            && !(0 <= fi < |fs| && li == m.lastLineUsed && fs[fi].address == ls[li].End())
    then m.(lastLineCited := li)
    else m
  }

  /** What the sweep's position and its three "last" pointers mean, for ranges in order. */
  ghost predicate Exact(fs: seq<FunctionInfo>, ls: seq<Line>, fi: int, li: int, current: int, m: Marks) {
    && At(fs, fi, current) && At(ls, li, current)
    && (fi < |fs| && li < |ls| && Covers(fs, fi, current) && Covers(ls, li, current)
        ==> current == fs[fi].address || current == ls[li].address)
    && m.lastFunctionCited <= fi && m.lastLineUsed <= li && m.lastLineCited <= li
    && (fi < |fs| ==> (m.lastFunctionCited == fi <==> HasGap(fs[fi], ls, current)))
    && (li < |ls| ==> (m.lastLineUsed == li <==> UsedBefore(ls[li], fs, current)))
    && (li < |ls| ==> (m.lastLineCited == li <==> HasStrayByte(ls[li], fs, current)))
  }

  /** The next transition is an end of one of the two current items. */
  ghost predicate Turns(fs: seq<FunctionInfo>, ls: seq<Line>, fi: int, li: int, next: int) {
    || (0 <= fi < |fs| && (next == fs[fi].address || next == fs[fi].End()))
    || (0 <= li < |ls| && (next == ls[li].address || next == ls[li].End()))
  }

  lemma {:induction false} StepMovesOn<T>(rs: seq<Span<T>>, i: int, current: int, next: int, i': int)
    requires InOrder(rs) && AllProper(rs) && Steady(rs, i, current, next) && At(rs, i', next)
    ensures i' == if i < |rs| && next == rs[i].End() then i + 1 else i
  {
    if i < |rs| {
      assert i < i' ==> rs[i].End() <= next;
      assert i + 1 < |rs| ==> next < rs[i + 1].End();
    }
  }

  lemma {:induction false} ExactStep(
    fs: seq<FunctionInfo>, ls: seq<Line>, fi: int, li: int, current: int, next: int, m: Marks,
                  fi': int, li': int)
    requires InOrder(fs) && AllProper(fs) && Steady(fs, fi, current, next)
    requires InOrder(ls) && AllProper(ls) && Steady(ls, li, current, next)
    requires Exact(fs, ls, fi, li, current, m) && Turns(fs, ls, fi, li, next)
    requires At(fs, fi', next) && At(ls, li', next)
    ensures Exact(fs, ls, fi', li', next, MarksAfter(fs, ls, fi, li, current, m))
  {
    StepMovesOn(fs, fi, current, next, fi');
    StepMovesOn(ls, li, current, next, li');
    assert forall j :: fi < j < |fs| ==> next <= fs[j].address;
    assert forall j :: li < j < |ls| ==> next <= ls[j].address;
    UsedStep(fs, ls, fi, li, current, next);
    if fi' < |fs| {
      GapStep(fs, ls, fi, li, current, next, fi');
    }
    if li' < |ls| {
      StrayByteStep(fs, ls, fi, li, current, next, li');
    }
  }

  /** What a sweep leaves behind: the lines each function holds and what the reporter was told. */
  datatype Found = Found(held: seq<seq<Line>>, functions: seq<FunctionInfo>, lines: seq<Line>)

  /** Each function holds what it held before and its cuts below current. */
  ghost predicate HeldTo(was: seq<seq<Line>>, now: seq<seq<Line>>, fs: seq<FunctionInfo>, ls: seq<Line>, current: int)
    requires current <= TWO_64
  {
    && |now| == |was| == |fs|
    && forall j :: 0 <= j < |fs| ==> now[j] == was[j] + Cuts(fs[j], ls, |ls|, current)
  }

  /** Since was, exactly what lies below current has been found. */
  ghost predicate FoundTo(was: Found, now: Found, fs: seq<FunctionInfo>, ls: seq<Line>, current: int) {
    && current <= TWO_64
    && HeldTo(was.held, now.held, fs, ls, current)
    && now.functions == was.functions + Gapped(fs, ls, current)
    && now.lines == was.lines + Stray(ls, fs, current)
  }

  /** The sweep stands at current and next is the end of the stretch it looks at. */
  ghost predicate OneStep(fs: seq<FunctionInfo>, ls: seq<Line>, fi: int, li: int, current: int, next: int, m: Marks) {
    Steady(fs, fi, current, next) && Steady(ls, li, current, next) && Exact(fs, ls, fi, li, current, m)
  }

  /** The function a transition at current reports as uncovered, if any. */
  ghost function NewlyCitedFunction(fs: seq<FunctionInfo>, ls: seq<Line>, fi: int, li: int, current: int, m: Marks)
    : (r: seq<FunctionInfo>)
  {
    if Covers(fs, fi, current) && !Covers(ls, li, current) && m.lastFunctionCited != fi
    then [fs[fi]] else []
  }

  /** The line a transition at current reports as uncovered, if any. */
  ghost function NewlyCitedLine(fs: seq<FunctionInfo>, ls: seq<Line>, fi: int, li: int, current: int, m: Marks)
    : (r: seq<Line>)
  {
    if && Covers(ls, li, current) && !Covers(fs, fi, current) && m.lastLineCited != li
       && !(0 <= fi < |fs| && li == m.lastLineUsed && fs[fi].address == ls[li].End())
    then [ls[li]] else []
  }

  /** What one transition adds to the functions, to the gaps and to the stray bytes. */
  lemma {:induction false} TransitionFacts(
    fs: seq<FunctionInfo>, ls: seq<Line>, fi: int, li: int, current: u64, next: int, m: Marks)
    requires AllProper(fs) && AllProper(ls) && next <= TWO_64
    requires InOrder(fs) && InOrder(ls) && OneStep(fs, ls, fi, li, current, next, m)
    ensures
            var hasFunction, hasLine := Covers(fs, fi, current), Covers(ls, li, current);
            && (hasFunction && hasLine ==> next <= ls[li].End())
            && (forall j :: 0 <= j < |fs| ==>
                  Cuts(fs[j], ls, |ls|, next)
                  == Cuts(fs[j], ls, |ls|, current)
                     + if j == fi && hasFunction && hasLine
                       then [ls[li].(address := current, size := next - current)] else [])
            && Gapped(fs, ls, next)
               == Gapped(fs, ls, current) + NewlyCitedFunction(fs, ls, fi, li, current, m)
            && Stray(ls, fs, next) == Stray(ls, fs, current) + NewlyCitedLine(fs, ls, fi, li, current, m)
  {
    var both := Covers(fs, fi, current) && Covers(ls, li, current);
    if both {
      CutAdded(fs, ls, fi, li, current, next);
    }
    forall j | 0 <= j < |fs| && !(j == fi && both)
      ensures Cuts(fs[j], ls, |ls|, next) == Cuts(fs[j], ls, |ls|, current)
    {
      CutsKept(fs, ls, fi, li, current, next, j);
    }
    GappedStep(fs, ls, fi, li, current, next);
    StrayStep(fs, ls, fi, li, current, next);
  }

  /** What the sweep's transition at current, up to next, adds to what was found. */
  ghost function FoundAfter(now: Found, fs: seq<FunctionInfo>, ls: seq<Line>, fi: int, li: int,
                            current: u64, next: u64, m: Marks): (r: Found)
  {
    Found(
      if Covers(fs, fi, current) && Covers(ls, li, current) && fi < |now.held|
      then now.held[fi := now.held[fi] + [ls[li].(address := current, size := Sub64(next, current))]]
      else now.held,
      now.functions + NewlyCitedFunction(fs, ls, fi, li, current, m),
      now.lines + NewlyCitedLine(fs, ls, fi, li, current, m))
  }

  lemma {:induction false} HeldGrows(was: seq<seq<Line>>, now: seq<seq<Line>>, now': seq<seq<Line>>,
                                     fs: seq<FunctionInfo>, ls: seq<Line>, current: int, next: int, j: int,
                                     piece: seq<Line>)
    requires current <= TWO_64 && next <= TWO_64 && 0 <= j < |fs|
    requires HeldTo(was, now, fs, ls, current)
    requires forall i :: 0 <= i < |fs| && i != j ==> Cuts(fs[i], ls, |ls|, next) == Cuts(fs[i], ls, |ls|, current)
    requires Cuts(fs[j], ls, |ls|, next) == Cuts(fs[j], ls, |ls|, current) + piece
    requires |now'| == |now| && forall i :: 0 <= i < |now| && i != j ==> now'[i] == now[i]
    requires now'[j] == now[j] + piece
    ensures HeldTo(was, now', fs, ls, next)
  {
    assert now[j] + piece == was[j] + (Cuts(fs[j], ls, |ls|, current) + piece);
  }

  /** The lines held after one transition. */
  lemma {:induction false} HeldStep(was: seq<seq<Line>>, now: Found, fs: seq<FunctionInfo>, ls: seq<Line>,
                                    fi: int, li: int, current: u64, next: u64, m: Marks)
    requires AllProper(fs) && AllProper(ls) && InOrder(fs) && InOrder(ls)
    requires OneStep(fs, ls, fi, li, current, Reach(next), m) && HeldTo(was, now.held, fs, ls, current)
    ensures HeldTo(was, FoundAfter(now, fs, ls, fi, li, current, next, m).held, fs, ls, Reach(next))
  {
    TransitionFacts(fs, ls, fi, li, current, Reach(next), m);
    var held' := FoundAfter(now, fs, ls, fi, li, current, next, m).held;
    if Covers(fs, fi, current) && Covers(ls, li, current) {
      var piece := [ls[li].(address := current, size := Sub64(next, current))];
      assert Sub64(next, current) == Reach(next) - current;
      assert Cuts(fs[fi], ls, |ls|, Reach(next)) == Cuts(fs[fi], ls, |ls|, current) + piece;
      HeldGrows(was, now.held, held', fs, ls, current, Reach(next), fi, piece);
    } else {
      assert held' == now.held;
      assert forall j :: 0 <= j < |fs| ==> Cuts(fs[j], ls, |ls|, Reach(next)) == Cuts(fs[j], ls, |ls|, current) + [];
    }
  }

  lemma {:induction false} Associates<T>(a: seq<T>, b: seq<T>, c: seq<T>)
    ensures a + b + c == a + (b + c)
  {
  }

  lemma {:induction false} FoundStep(was: Found, now: Found, fs: seq<FunctionInfo>, ls: seq<Line>, fi: int, li: int,
                                     current: u64, next: u64, m: Marks)
    requires AllProper(fs) && AllProper(ls) && InOrder(fs) && InOrder(ls)
    requires OneStep(fs, ls, fi, li, current, Reach(next), m) && FoundTo(was, now, fs, ls, current)
    ensures FoundTo(was, FoundAfter(now, fs, ls, fi, li, current, next, m), fs, ls, Reach(next))
  {
    TransitionFacts(fs, ls, fi, li, current, Reach(next), m);
    HeldStep(was.held, now, fs, ls, fi, li, current, next, m);
    Associates(was.functions, Gapped(fs, ls, current), NewlyCitedFunction(fs, ls, fi, li, current, m));
    Associates(was.lines, Stray(ls, fs, current), NewlyCitedLine(fs, ls, fi, li, current, m));
  }

  function Item<T>(rs: seq<Span<T>>, i: int): (r: Option<Span<T>>) {
    if 0 <= i < |rs| then Some(rs[i]) else None
  }

  /** The addresses where coverage may change. */
  ghost function Boundaries<T>(rs: seq<Span<T>>): (r: set<int>)
    ensures |r| <= 2 * |rs|
    ensures forall i :: 0 <= i < |rs| ==> rs[i].address in r && rs[i].End() in r
  {
    if rs == [] then {}
    else
      var last := rs[|rs| - 1];
      var rest := Boundaries(rs[..|rs| - 1]);
      assert forall i :: 0 <= i < |rs| - 1 ==> rs[i] == rs[..|rs| - 1][i];
      assert |rest + {last.address}| <= |rest| + 1;
      rest + {last.address} + {last.End()}
  }

  ghost function CountBelow(s: set<int>, limit: int): (r: nat)
    ensures r <= |s|
  {
    var below := set x | x in s && x < limit;
    SubsetSize(below, s);
    |below|
  }

  lemma {:induction false} CountBelowGrows(s: set<int>, current: int, next: int)
    requires current in s && current < next
    ensures CountBelow(s, current) + 1 <= CountBelow(s, next)
  {
    var below := set x | x in s && x < current;
    SubsetSize(below + {current}, set x | x in s && x < next);
  }

  lemma {:induction false} SubsetSize(a: set<int>, b: set<int>)
    requires a <= b
    ensures |a| <= |b|
  {
    assert b == a + (b - a);
  }

  /** The computed transition is the next boundary, and coverage is constant up to it. */
  lemma {:induction false} NextIsSteady(fs: seq<FunctionInfo>, ls: seq<Line>, fi: int, li: int, current: u64)
    requires AllProper(fs) && AllProper(ls) && At(fs, fi, current) && At(ls, li, current)
    requires fi < |fs| || li < |ls|
    ensures var reach := Reach(NextTransition(Item(fs, fi), Item(ls, li), current));
            && Steady(fs, fi, current, reach) && Steady(ls, li, current, reach)
            && Turns(fs, ls, fi, li, reach)
            && reach in Boundaries(fs) + Boundaries(ls)
  {
    NextTransitionAdvances(Item(fs, fi), Item(ls, li), current);
  }

  /** Nothing lies before the first address. */
  lemma {:induction false} NothingBefore(was: Found, fs: seq<FunctionInfo>, ls: seq<Line>, current: int)
    requires AllProper(fs) && AllProper(ls) && current <= TWO_64
    requires InOrder(fs) && InOrder(ls) && |was.held| == |fs|
    requires (fs != [] ==> current <= fs[0].address) && (ls != [] ==> current <= ls[0].address)
    ensures Exact(fs, ls, 0, 0, current, Marks(-1, -1, -1))
    ensures FoundTo(was, was, fs, ls, current)
  {
    StartsAfter(fs, current);
    StartsAfter(ls, current);
    NothingHeld(was.held, fs, ls, current);
    NothingCited(fs, ls, current);
    assert was.functions == was.functions + [] && was.lines == was.lines + [];
  }

  lemma {:induction false} NothingHeld(was: seq<seq<Line>>, fs: seq<FunctionInfo>, ls: seq<Line>, current: int)
    requires current <= TWO_64 && |was| == |fs|
    requires forall j :: 0 <= j < |fs| ==> current <= fs[j].address
    ensures HeldTo(was, was, fs, ls, current)
  {
    forall j | 0 <= j < |fs| ensures was[j] == was[j] + Cuts(fs[j], ls, |ls|, current) {
      assert current <= fs[j].address;
      NoCuts(fs[j], ls, |ls|, current);
    }
  }

  lemma {:induction false} StartsAfter<T>(rs: seq<Span<T>>, current: int)
    requires AllProper(rs) && InOrder(rs) && (rs != [] ==> current <= rs[0].address)
    ensures forall j :: 0 <= j < |rs| ==> current <= rs[j].address
  {
    forall j | 0 <= j < |rs| ensures current <= rs[j].address {
      assert 0 < j ==> rs[0].End() <= rs[j].address;
    }
  }

  lemma {:induction false} NothingCited(fs: seq<FunctionInfo>, ls: seq<Line>, current: int)
    requires forall j :: 0 <= j < |fs| ==> current <= fs[j].address
    requires forall j :: 0 <= j < |ls| ==> current <= ls[j].address
    ensures Gapped(fs, ls, current) == []
    ensures Stray(ls, fs, current) == []
  {
    SelectNone(fs, AboutFunctions(fs, ls), current, |fs|);
    SelectNone(ls, AboutLines(ls, fs), current, |ls|);
  }

  lemma {:induction false} NoCuts(f: FunctionInfo, ls: seq<Line>, n: nat, limit: int)
    requires limit <= f.address && limit <= TWO_64 && n <= |ls|
    ensures Cuts(f, ls, n, limit) == []
  {
    if n > 0 {
      NoCuts(f, ls, n - 1, limit);
      assert Cut(f, ls[n - 1], limit) == [];
    }
  }

  lemma {:induction false} SelectNone<T>(xs: seq<T>, c: Complaint, limit: int, n: nat)
    requires n <= |xs| && forall k :: 0 <= k < n ==> !c.Holds(k, limit)
    ensures Select(xs, c, limit, n) == []
  {
    if n > 0 {
      SelectNone(xs, c, limit, n - 1);
    }
  }

  /** Past every end, the sweep has nothing left to find. */
  lemma {:induction false} NothingAfter(was: Found, now: Found, fs: seq<FunctionInfo>, ls: seq<Line>, current: int)
    requires AllProper(fs) && AllProper(ls) && current <= TWO_64
    requires At(fs, |fs|, current) && At(ls, |ls|, current)
    requires FoundTo(was, now, fs, ls, current)
    ensures FoundTo(was, now, fs, ls, TWO_64)
  {
    var c, d := AboutFunctions(fs, ls), AboutLines(ls, fs);
    forall k | 0 <= k < |fs| ensures c.Holds(k, current) == c.Holds(k, TWO_64) {
      assert forall b :: fs[k].Has(b) ==> b < current;
    }
    SelectSame(fs, c, current, TWO_64, |fs|);
    forall k | 0 <= k < |ls| ensures d.Holds(k, current) == d.Holds(k, TWO_64) {
      assert forall b :: ls[k].Has(b) ==> b < current;
    }
    SelectSame(ls, d, current, TWO_64, |ls|);
    forall j | 0 <= j < |fs|
      ensures now.held[j] == was.held[j] + Cuts(fs[j], ls, |ls|, TWO_64)
    {
      assert fs[j].End() <= current;
      forall k | 0 <= k < |ls| ensures Cut(fs[j], ls[k], current) == Cut(fs[j], ls[k], TWO_64) {
        CutStable(fs[j], ls[k], current, TWO_64);
      }
      CutsUnchanged(fs[j], ls, |ls|, current, TWO_64);
    }
  }

  lemma {:induction false} SelectSame<T>(xs: seq<T>, c: Complaint, limit: int, next: int, n: nat)
    requires n <= |xs| && forall k :: 0 <= k < n ==> c.Holds(k, limit) == c.Holds(k, next)
    ensures Select(xs, c, limit, n) == Select(xs, c, next, n)
  {
    if n > 0 {
      SelectSame(xs, c, limit, next, n - 1);
    }
  }

  /** Moves an iterator past the items that end at or before next (lines 993-996, 998-1001). */
  function AdvancePast<T>(rs: seq<Span<T>>, it: nat, next: u64): (r: nat)
    requires it <= |rs|
    ensures it <= r <= |rs|
    decreases |rs| - it
  {
    if it < |rs| && next >= rs[it].address && !Within(rs[it], next) then AdvancePast(rs, it + 1, next) else it
  }

  lemma {:induction false} AdvancePastReaches<T>(rs: seq<Span<T>>, it: nat, next: u64)
    requires AllProper(rs) && it <= |rs| && forall k :: 0 <= k < it ==> rs[k].End() <= next
    ensures At(rs, AdvancePast(rs, it, next), next)
    decreases |rs| - it
  {
    if it < |rs| && next >= rs[it].address && !Within(rs[it], next) {
      AdvancePastReaches(rs, it + 1, next);
    }
  }

  /** The sweep from current on, as a recursive function: what is found in the end, and in how
      many transitions. */
  ghost function Run(now: Found, fs: seq<FunctionInfo>, ls: seq<Line>, fi: nat, li: nat, current: u64, m: Marks)
    : (r: (Found, nat))
    requires AllProper(fs) && AllProper(ls)
    requires At(fs, fi, current) && At(ls, li, current)
    decreases TWO_64 - current
  {
    if fi == |fs| && li == |ls| then (now, 0)
    else
      var next := NextTransition(Item(fs, fi), Item(ls, li), current);
      var after := FoundAfter(now, fs, ls, fi, li, current, next, m);
      NextIsSteady(fs, ls, fi, li, current);
      if next == 0 then (after, 1)
      else
        AdvancePastReaches(fs, fi, next);
        AdvancePastReaches(ls, li, next);
        var (found, steps) := Run(after, fs, ls, AdvancePast(fs, fi, next), AdvancePast(ls, li, next), next,
                                  MarksAfter(fs, ls, fi, li, current, m));
        (found, steps + 1)
  }

  /** One unfolding of Run. */
  lemma {:induction false} RunStep(
    now: Found, after: Found, fs: seq<FunctionInfo>, ls: seq<Line>, fi: nat, li: nat, current: u64, next: u64,
    m: Marks)
    requires AllProper(fs) && AllProper(ls) && (fi < |fs| || li < |ls|)
    requires At(fs, fi, current) && At(ls, li, current)
    requires next == NextTransition(Item(fs, fi), Item(ls, li), current)
    requires after == FoundAfter(now, fs, ls, fi, li, current, next, m)
    ensures next == 0 ==> Run(now, fs, ls, fi, li, current, m) == (after, 1)
    ensures var fi', li' := AdvancePast(fs, fi, next), AdvancePast(ls, li, next);
            next != 0 ==>
              && current < next
              && At(fs, fi', next) && At(ls, li', next)
              && var rest := Run(after, fs, ls, fi', li', next, MarksAfter(fs, ls, fi, li, current, m));
                 Run(now, fs, ls, fi, li, current, m) == (rest.0, rest.1 + 1)
  {
    hide AdvancePast, FoundAfter, MarksAfter, NextTransition, Item;
    NextIsSteady(fs, ls, fi, li, current);
    if next != 0 {
      AdvancePastReaches(fs, fi, next);
      AdvancePastReaches(ls, li, next);
    }
  }

  /** At most one transition per boundary from current on, even if ranges overlap. */
  lemma {:induction false} RunIsShort(
    now: Found, fs: seq<FunctionInfo>, ls: seq<Line>, fi: nat, li: nat, current: u64, m: Marks)
    requires AllProper(fs) && AllProper(ls)
    requires At(fs, fi, current) && At(ls, li, current)
    requires current in Boundaries(fs) + Boundaries(ls)
    ensures var boundaries := Boundaries(fs) + Boundaries(ls);
            Run(now, fs, ls, fi, li, current, m).1 <= |boundaries| - CountBelow(boundaries, current)
    decreases TWO_64 - current
  {
    var boundaries := Boundaries(fs) + Boundaries(ls);
    if fi < |fs| || li < |ls| {
      var next := NextTransition(Item(fs, fi), Item(ls, li), current);
      NextIsSteady(fs, ls, fi, li, current);
      CountBelowGrows(boundaries, current, Reach(next));
      if next != 0 {
        AdvancePastReaches(fs, fi, next);
        AdvancePastReaches(ls, li, next);
        RunIsShort(FoundAfter(now, fs, ls, fi, li, current, next, m), fs, ls,
                   AdvancePast(fs, fi, next), AdvancePast(ls, li, next), next, MarksAfter(fs, ls, fi, li, current, m));
      }
    }
  }

  /** With ranges in order, the sweep finds exactly what the definitions say. */
  lemma {:induction false} RunIsExact(
    was: Found, now: Found, fs: seq<FunctionInfo>, ls: seq<Line>, fi: nat, li: nat, current: u64, m: Marks)
    requires AllProper(fs) && AllProper(ls)
    requires InOrder(fs) && InOrder(ls)
    requires Exact(fs, ls, fi, li, current, m)
    requires FoundTo(was, now, fs, ls, current)
    ensures FoundTo(was, Run(now, fs, ls, fi, li, current, m).0, fs, ls, TWO_64)
    decreases TWO_64 - current
  {
    if fi == |fs| && li == |ls| {
      NothingAfter(was, now, fs, ls, current);
    } else {
      var next := NextTransition(Item(fs, fi), Item(ls, li), current);
      var after := FoundAfter(now, fs, ls, fi, li, current, next, m);
      NextIsSteady(fs, ls, fi, li, current);
      FoundStep(was, now, fs, ls, fi, li, current, next, m);
      if next != 0 {
        AdvancePastReaches(fs, fi, next);
        AdvancePastReaches(ls, li, next);
        var fi', li' := AdvancePast(fs, fi, next), AdvancePast(ls, li, next);
        ExactStep(fs, ls, fi, li, current, next, m, fi', li');
        RunIsExact(was, after, fs, ls, fi', li', next, MarksAfter(fs, ls, fi, li, current, m));
      }
    }
  }

  /** The start of the first line or function, whichever is earlier (lines 862-878). */
  function FirstAddress(fs: seq<FunctionInfo>, ls: seq<Line>): (r: u64)
    requires fs != [] || ls != []
    ensures fs != [] ==> r <= fs[0].address
    ensures ls != [] ==> r <= ls[0].address
    ensures (fs != [] && r == fs[0].address) || (ls != [] && r == ls[0].address)
  {
    if fs != [] && ls != [] then Min(fs[0].address, ls[0].address)
    else if ls != [] then ls[0].address
    else fs[0].address
  }

  /** The sorted lists the sweep needs; they may still overlap. */
  ghost predicate Ready(fs: seq<FunctionInfo>, ls: seq<Line>) {
    && AllProper(fs) && AllProper(ls)
    && Sorted(fs) && Sorted(ls)
  }

  lemma {:induction false} StartsAtFirst(fs: seq<FunctionInfo>, ls: seq<Line>)
    requires Ready(fs, ls) && (fs != [] || ls != [])
    ensures At(fs, 0, FirstAddress(fs, ls)) && At(ls, 0, FirstAddress(fs, ls))
  {
  }

  /** The whole sweep: what it leaves behind, and in how many transitions. */
  ghost function SweepAll(was: Found, fs: seq<FunctionInfo>, ls: seq<Line>): (r: (Found, nat))
    requires Ready(fs, ls)
  {
    if fs == [] && ls == [] then (was, 0)
    else
      StartsAtFirst(fs, ls);
      Run(was, fs, ls, 0, 0, FirstAddress(fs, ls), Marks(-1, -1, -1))
  }

  /** Even with overlapping ranges the sweep takes at most one transition per boundary. */
  lemma {:induction false} SweepIsShort(was: Found, fs: seq<FunctionInfo>, ls: seq<Line>)
    requires Ready(fs, ls)
    ensures SweepAll(was, fs, ls).1 <= 2 * (|fs| + |ls|)
  {
    if fs != [] || ls != [] {
      StartsAtFirst(fs, ls);
      RunIsShort(was, fs, ls, 0, 0, FirstAddress(fs, ls), Marks(-1, -1, -1));
    }
  }

  /** With disjoint ranges it finds exactly the intersections, the gaps and the stray bytes. */
  lemma {:induction false} SweepIsExact(was: Found, fs: seq<FunctionInfo>, ls: seq<Line>)
    requires Ready(fs, ls) && InOrder(fs) && InOrder(ls) && |was.held| == |fs|
    ensures FoundTo(was, SweepAll(was, fs, ls).0, fs, ls, TWO_64)
  {
    if fs == [] && ls == [] {
      NothingBefore(was, fs, ls, TWO_64);
    } else {
      StartsAtFirst(fs, ls);
      NothingBefore(was, fs, ls, FirstAddress(fs, ls));
      RunIsExact(was, was, fs, ls, 0, 0, FirstAddress(fs, ls), Marks(-1, -1, -1));
    }
  }
}
