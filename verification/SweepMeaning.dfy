/** What LineSweep's definitions mean, byte by byte. */
module SweepMeaning {
  import opened MachineWords
  import opened LineSweep

  /** A cut has exactly the bytes its function and its line share below limit. */
  lemma {:induction false} CutHas(f: FunctionInfo, l: Line, limit: int, b: int)
    requires limit <= TWO_64
    ensures Covered(Cut(f, l, limit), b) <==> f.Has(b) && b < limit && l.Has(b)
  {
    var r := Cut(f, l, limit);
    if f.Has(b) && b < limit && l.Has(b) {
      assert r[0].Has(b);
    }
  }

  lemma {:induction false} CoveredSplits<T>(xs: seq<Span<T>>, ys: seq<Span<T>>, b: int)
    ensures Covered(xs + ys, b) <==> Covered(xs, b) || Covered(ys, b)
  {
    if Covered(xs, b) {
      var i :| 0 <= i < |xs| && xs[i].Has(b);
      assert (xs + ys)[i].Has(b);
    }
    if Covered(ys, b) {
      var i :| 0 <= i < |ys| && ys[i].Has(b);
      assert (xs + ys)[|xs| + i].Has(b);
    }
  }

  /** Cuts have exactly the bytes of f that some of the first n lines have. */
  lemma {:induction false} CutsCover(f: FunctionInfo, ls: seq<Line>, n: nat, limit: int, b: int)
    requires n <= |ls| && limit <= TWO_64
    ensures Covered(Cuts(f, ls, n, limit), b) <==> f.Has(b) && b < limit && Covered(ls[..n], b)
  {
    if n > 0 {
      CutsCover(f, ls, n - 1, limit, b);
      CutHas(f, ls[n - 1], limit, b);
      CoveredSplits(Cuts(f, ls, n - 1, limit), Cut(f, ls[n - 1], limit), b);
      CoveredSplits(ls[..n - 1], [ls[n - 1]], b);
      assert ls[..n] == ls[..n - 1] + [ls[n - 1]];
      assert Covered([ls[n - 1]], b) <==> [ls[n - 1]][0].Has(b);
    }
  }

  /** Every cut is the cut of one line. */
  lemma {:induction false} CutsComeFromLines(
    f: FunctionInfo, ls: seq<Line>, n: nat, limit: int, i: nat) returns (k: nat)
    requires n <= |ls| && limit <= TWO_64 && i < |Cuts(f, ls, n, limit)|
    ensures k < n && Cut(f, ls[k], limit) == [Cuts(f, ls, n, limit)[i]]
  {
    if i < |Cuts(f, ls, n - 1, limit)| {
      k := CutsComeFromLines(f, ls, n - 1, limit, i);
    } else {
      k := n - 1;
    }
  }

  lemma {:induction false} CutsAreInOrder(f: FunctionInfo, ls: seq<Line>, n: nat, limit: int)
    requires InOrder(ls) && AllProper(ls) && n <= |ls| && limit <= TWO_64
    ensures InOrder(Cuts(f, ls, n, limit))
  {
    if n > 0 {
      CutsAreInOrder(f, ls, n - 1, limit);
      var before, r, last := Cuts(f, ls, n - 1, limit), Cuts(f, ls, n, limit), Cut(f, ls[n - 1], limit);
      assert r == before + last && |last| <= 1;
      hide Cuts;
      forall i, j | 0 <= i < j < |r| ensures r[i].End() <= r[j].address {
        if |before| <= j {
          var k := CutsComeFromLines(f, ls, n - 1, limit, i);
          assert ls[k].End() <= ls[n - 1].address;
        }
      }
    }
  }

  /** The lines assigned to f are pieces of f in ascending order, disjoint and non-empty. */
  lemma {:induction false} AssignedLinesAreOrdered(f: FunctionInfo, ls: seq<Line>)
    requires f.Proper() && AllProper(ls) && InOrder(ls)
    ensures var r := AssignedLines(f, ls);
            && InOrder(r)
            && forall i :: 0 <= i < |r| ==> r[i].Proper() && f.address <= r[i].address && r[i].End() <= f.End()
  {
    var r := AssignedLines(f, ls);
    CutsAreInOrder(f, ls, |ls|, TWO_64);
    forall i | 0 <= i < |r| ensures r[i].Proper() && f.address <= r[i].address && r[i].End() <= f.End() {
      var k := CutsComeFromLines(f, ls, |ls|, TWO_64, i);
    }
  }

  /** Each piece is all that f and one line share, and carries that line's file and number. */
  lemma {:induction false} AssignedLineIsIntersection(f: FunctionInfo, ls: seq<Line>, i: nat) returns (k: nat)
    requires f.Proper() && AllProper(ls) && i < |AssignedLines(f, ls)|
    ensures k < |ls| && AssignedLines(f, ls)[i].what == ls[k].what
    ensures forall b :: AssignedLines(f, ls)[i].Has(b) <==> f.Has(b) && ls[k].Has(b)
  {
    k := CutsComeFromLines(f, ls, |ls|, TWO_64, i);
    assert AssignedLines(f, ls)[i] == Cut(f, ls[k], TWO_64)[0];
  }

  /** A byte is in some piece exactly if both f and a line have it; it is in one piece only,
      and that piece carries the line's file and number. */
  lemma {:induction false} AssignedLinesCoverEachByteOnce(f: FunctionInfo, ls: seq<Line>, b: int)
    requires f.Proper() && AllProper(ls) && InOrder(ls)
    ensures Covered(AssignedLines(f, ls), b) <==> f.Has(b) && Covered(ls, b)
    ensures var r := AssignedLines(f, ls);
            && (forall i, j :: 0 <= i < j < |r| ==> !(r[i].Has(b) && r[j].Has(b)))
            && (forall i, k :: 0 <= i < |r| && r[i].Has(b) && 0 <= k < |ls| && ls[k].Has(b) ==> r[i].what == ls[k].what)
  {
    var r := AssignedLines(f, ls);
    CutsCover(f, ls, |ls|, TWO_64, b);
    assert ls[..|ls|] == ls;
    CutsAreInOrder(f, ls, |ls|, TWO_64);
    forall i, k | 0 <= i < |r| && r[i].Has(b) && 0 <= k < |ls| && ls[k].Has(b)
      ensures r[i].what == ls[k].what
    {
      var m := AssignedLineIsIntersection(f, ls, i);
      assert ls[m].Has(b);
      assert m == k by { assert forall i, j :: 0 <= i < j < |ls| ==> !(ls[i].Has(b) && ls[j].Has(b)); }
    }
  }

  lemma {:induction false} SelectHolds<T>(xs: seq<T>, c: Complaint, limit: int, n: nat, x: T)
    requires n <= |xs|
    ensures x in Select(xs, c, limit, n) <==> exists i :: 0 <= i < n && c.Holds(i, limit) && xs[i] == x
  {
    if n > 0 {
      SelectHolds(xs, c, limit, n - 1, x);
      if c.Holds(n - 1, limit) && xs[n - 1] == x {
        assert x in Select(xs, c, limit, n);
      }
    }
  }

  lemma {:induction false} SelectIsDistinct<T>(xs: seq<T>, c: Complaint, limit: int, n: nat)
    requires n <= |xs| && Distinct(xs)
    ensures Distinct(Select(xs, c, limit, n))
  {
    if n > 0 {
      SelectIsDistinct(xs, c, limit, n - 1);
      SelectHolds(xs, c, limit, n - 1, xs[n - 1]);
    }
  }

  lemma {:induction false} InOrderIsDistinct<T>(rs: seq<Span<T>>)
    requires InOrder(rs) && AllProper(rs)
    ensures Distinct(rs)
  {
    forall i, j | 0 <= i < j < |rs| ensures rs[i] != rs[j] {
      assert rs[i].Proper() && rs[i].End() <= rs[j].address;
    }
  }

  /** A function is reported, and once, exactly if one of its bytes has no line. */
  lemma {:induction false} GapReportsAreExact(fs: seq<FunctionInfo>, ls: seq<Line>)
    requires AllProper(fs) && InOrder(fs)
    ensures Distinct(Gapped(fs, ls, TWO_64))
    ensures forall f :: f in Gapped(fs, ls, TWO_64) <==> f in fs && exists b :: f.Has(b) && !Covered(ls, b)
  {
    InOrderIsDistinct(fs);
    SelectIsDistinct(fs, AboutFunctions(fs, ls), TWO_64, |fs|);
    forall f ensures f in Gapped(fs, ls, TWO_64) <==> f in fs && exists b :: f.Has(b) && !Covered(ls, b) {
      SelectHolds(fs, AboutFunctions(fs, ls), TWO_64, |fs|, f);
      if i :| 0 <= i < |fs| && fs[i] == f {
        assert fs[i].Proper();
        assert AboutFunctions(fs, ls).Holds(i, TWO_64) <==> HasGap(f, ls, TWO_64);
        assert forall b :: f.Has(b) ==> b < TWO_64;
      }
    }
  }

  /** A line is reported, and once, exactly if one of its bytes has no function and is not
      padding before the next function. */
  lemma {:induction false} StrayReportsAreExact(fs: seq<FunctionInfo>, ls: seq<Line>)
    requires AllProper(ls) && InOrder(ls)
    ensures Distinct(Stray(ls, fs, TWO_64))
    ensures forall l :: l in Stray(ls, fs, TWO_64)
              <==> l in ls && exists b :: l.Has(b) && !Covered(fs, b) && !IsPadding(fs, l, b)
  {
    InOrderIsDistinct(ls);
    SelectIsDistinct(ls, AboutLines(ls, fs), TWO_64, |ls|);
    forall l ensures l in Stray(ls, fs, TWO_64)
               <==> l in ls && exists b :: l.Has(b) && !Covered(fs, b) && !IsPadding(fs, l, b) {
      SelectHolds(ls, AboutLines(ls, fs), TWO_64, |ls|, l);
      if i :| 0 <= i < |ls| && ls[i] == l {
        assert ls[i].Proper();
        assert AboutLines(ls, fs).Holds(i, TWO_64) <==> HasStrayByte(l, fs, TWO_64);
        assert forall b :: l.Has(b) ==> b < TWO_64;
      }
    }
  }

  /** A line that starts in function f and goes on into the gap before function g is reported unless it ends
      where g starts; one that is all in the gap is reported in any case. */
  lemma {:induction false} OnlyPaddingIsForgiven(f: FunctionInfo, g: FunctionInfo, l: Line)
    requires f.Proper() && g.Proper() && l.Proper() && f.address + f.size < g.address
    requires f.address <= l.address && f.address + f.size < l.address + l.size <= g.address
    ensures l in Stray([l], [f, g], TWO_64) <==> l.address + l.size != g.address || f.address + f.size <= l.address
  {
    var fs := [f, g];
    StrayReportsAreExact(fs, [l]);
    var b := l.address + l.size - 1;
    assert fs[0] == f && fs[1] == g;
    assert !Covered(fs, b) && l.Has(b);
    if l.address < f.address + f.size {
      assert fs[0].Has(l.address) && l.Has(l.address);
      if l.address + l.size == g.address {
        forall c | l.Has(c) && !Covered(fs, c) ensures IsPadding(fs, l, c) {
          assert fs[1].address == l.End();
        }
      }
    } else {
      forall c | l.Has(c) ensures !Covered(fs, c) {
      }
    }
  }
}
