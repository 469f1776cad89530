/** dwarf_line_to_module.cc: the handler that turns line-number records into lines, clipping
    those that pass the end of the address space and dropping runs of omitted code. */
module DwarfLineToModule {
  import opened MachineWords
  import opened LineSweep

  /** One call of AddLine, with the file the table gave for its file number at that time. */
  datatype Record = Record(address: u64, length: u64, file: Option<string>, number: u32) {
    /** The length after clipping to the end of the address space. */
    function Clipped(): (r: u64) {
      if Add64(address, length) < address then Sub64(0, address) else length
    }

    /** Where the clipped line ends; the end of the address space wraps to zero. */
    function End(): (r: u64) { Add64(address, Clipped()) }
  }

  lemma {:induction false} ClippedIsLongestThatFits(r: Record)
    requires r.length != 0
    ensures r.Clipped() == Min(r.length, TWO_64 - r.address)
    ensures r.End() == (r.address + r.Clipped()) % TWO_64
  {
  }

  // ---------------------------------------------------------------- the rule, over a whole run

  /** The last record before position i that is not empty. */
  function Previous(rs: seq<Record>, i: nat): (r: Option<nat>)
    requires i <= |rs|
    ensures r.Some? ==> r.value < i && rs[r.value].length != 0
  {
    if i == 0 then None
    else if rs[i - 1].length != 0 then Some(i - 1)
    else Previous(rs, i - 1)
  }

  /** Record i describes code the linker dropped: it starts at zero, or where the record
      before it, itself dropped, ends. */
  predicate Dropped(rs: seq<Record>, i: nat)
    requires i < |rs|
  {
    && rs[i].length != 0
    && (|| rs[i].address == 0
        || (&& Previous(rs, i).Some?
            && Dropped(rs, Previous(rs, i).value)
            && rs[i].address == rs[Previous(rs, i).value].End()))
  }

  /** The lines a run of records should yield, given the files they name. */
  function LinesOf(rs: seq<Record>, n: nat): (r: seq<Line>)
    requires n <= |rs|
  {
    if n == 0 then []
    else
      var x := rs[n - 1];
      LinesOf(rs, n - 1)
      + if x.length != 0 && !Dropped(rs, n - 1) && x.file.Some?
        then [Span(x.address, x.Clipped(), SourcePosition(x.file.value, x.number))]
        else []
  }

  /** Some line had a file number the table does not know. */
  predicate BadFile(rs: seq<Record>, n: nat)
    requires n <= |rs|
  {
    exists i :: 0 <= i < n && rs[i].length != 0 && !Dropped(rs, i) && rs[i].file.None?
  }

  /** The end of the last dropped record, if nothing was kept since; otherwise zero. */
  function OmittedEnd(rs: seq<Record>, n: nat): (r: u64)
    requires n <= |rs|
  {
    var p := Previous(rs, n);
    if p.Some? && Dropped(rs, p.value) then rs[p.value].End() else 0
  }

  /** Later records do not change what was said about earlier ones. */
  lemma {:induction false} PreviousIsStable(rs: seq<Record>, more: Record, i: nat)
    requires i <= |rs|
    ensures Previous(rs + [more], i) == Previous(rs, i)
  {
    if i > 0 && rs[i - 1].length == 0 {
      PreviousIsStable(rs, more, i - 1);
    }
  }

  lemma {:induction false} DroppedIsStable(rs: seq<Record>, more: Record, i: nat)
    requires i < |rs|
    ensures Dropped(rs + [more], i) == Dropped(rs, i)
  {
    PreviousIsStable(rs, more, i);
    if Previous(rs, i).Some? {
      DroppedIsStable(rs, more, Previous(rs, i).value);
    }
  }

  lemma {:induction false} LinesOfIsStable(rs: seq<Record>, more: Record, n: nat)
    requires n <= |rs|
    ensures LinesOf(rs + [more], n) == LinesOf(rs, n)
  {
    if n > 0 {
      LinesOfIsStable(rs, more, n - 1);
      DroppedIsStable(rs, more, n - 1);
    }
  }

  /** Every line handed on is non-empty, does not pass the end of the address space and does
      not start at zero: what the sweep asks for. */
  lemma {:induction false} LinesAreProper(rs: seq<Record>, n: nat)
    requires n <= |rs|
    ensures forall l :: l in LinesOf(rs, n) ==> l.Proper() && l.address != 0
  {
    if n > 0 {
      LinesAreProper(rs, n - 1);
      if rs[n - 1].length != 0 {
        ClippedIsLongestThatFits(rs[n - 1]);
      }
    }
  }

  /** The lines are those of the records that are not empty, not dropped and have a file, in their order:
      each with the record's address, file and number, and as much of its length as fits. */
  lemma {:induction false} LinesAreRecords(rs: seq<Record>, n: nat) returns (kept: seq<nat>)
    requires n <= |rs|
    ensures |kept| == |LinesOf(rs, n)| && forall j, k :: 0 <= j < k < |kept| ==> kept[j] < kept[k]
    ensures forall j :: 0 <= j < |kept| ==>
              && kept[j] < n && IsKept(rs, kept[j])
              && var x := rs[kept[j]];
                 LinesOf(rs, n)[j]
                 == Span(x.address, Min(x.length, TWO_64 - x.address), SourcePosition(x.file.value, x.number))
    ensures forall i: nat :: i < n && IsKept(rs, i) ==> i in kept
  {
    kept := [];
    if n > 0 {
      var before := LinesAreRecords(rs, n - 1);
      hide Dropped;
      kept := before + if IsKept(rs, n - 1) then [n - 1] else [];
      if rs[n - 1].length != 0 {
        ClippedIsLongestThatFits(rs[n - 1]);
      }
    }
  }

  predicate IsKept(rs: seq<Record>, i: nat)
    requires i < |rs|
  {
    rs[i].length != 0 && rs[i].file.Some? && !Dropped(rs, i)
  }

  /** Record i starts where the last record before it that is not empty ends. */
  ghost predicate Follows(rs: seq<Record>, p: nat, i: nat) {
    && p < i < |rs| && rs[p].length != 0 && (forall k :: p < k < i ==> rs[k].length == 0)
    && rs[i].address == if rs[p].address + rs[p].length < TWO_64 then rs[p].address + rs[p].length else 0
  }

  /** From a record at address zero every one that is not empty follows the one before it. */
  ghost predicate IsRun(rs: seq<Record>, start: nat, i: nat) {
    && start <= i < |rs| && rs[start].length != 0 && rs[start].address == 0
    && forall k :: start < k <= i && rs[k].length != 0 ==> exists p: nat :: start <= p && Follows(rs, p, k)
  }

  lemma {:induction false} PreviousFollows(rs: seq<Record>, i: nat)
    requires i < |rs| && Previous(rs, i).Some?
    ensures var p := Previous(rs, i).value;
            && (forall k :: p < k < i ==> rs[k].length == 0)
            && (Follows(rs, p, i) <==> rs[i].address == rs[p].End())
  {
    PreviousIsLast(rs, i);
    ClippedIsLongestThatFits(rs[Previous(rs, i).value]);
  }

  lemma {:induction false} PreviousIsLast(rs: seq<Record>, i: nat)
    requires i <= |rs|
    ensures forall k :: 0 <= k < i && rs[k].length != 0 ==> Previous(rs, i).Some? && k <= Previous(rs, i).value
    ensures Previous(rs, i).Some? ==> forall k :: Previous(rs, i).value < k < i ==> rs[k].length == 0
  {
    if i > 0 && rs[i - 1].length == 0 {
      PreviousIsLast(rs, i - 1);
    }
  }

  /** The records that are dropped are the runs that start at address zero, and no others. */
  lemma {:induction false} DroppedAreRuns(rs: seq<Record>, i: nat)
    requires i < |rs|
    ensures Dropped(rs, i) <==> rs[i].length != 0 && exists start: nat :: IsRun(rs, start, i)
  {
    if Dropped(rs, i) {
      var start := RunOfDropped(rs, i);
    } else if start: nat :| rs[i].length != 0 && IsRun(rs, start, i) {
      RunIsDropped(rs, start, i);
    }
  }

  lemma {:induction false} RunOfDropped(rs: seq<Record>, i: nat) returns (start: nat)
    requires i < |rs| && Dropped(rs, i)
    ensures IsRun(rs, start, i)
  {
    if rs[i].address == 0 {
      start := i;
    } else {
      var p := Previous(rs, i).value;
      start := RunOfDropped(rs, p);
      PreviousFollows(rs, i);
      assert Follows(rs, p, i);
    }
  }

  lemma {:induction false} RunIsDropped(rs: seq<Record>, start: nat, i: nat)
    requires IsRun(rs, start, i) && rs[i].length != 0
    ensures Dropped(rs, i)
  {
    if i != start {
      var p: nat :| start <= p && Follows(rs, p, i);
      PreviousIsLast(rs, i);
      assert Previous(rs, i) == Some(p);
      PreviousFollows(rs, i);
      RunIsDropped(rs, start, p);
    }
  }

  // ---------------------------------------------------------------- file names

  /** The increment of a signed number, which wraps. */
  function Successor(n: i32): i32 {
    if n == 0x7fff_ffff then -0x8000_0000 else n + 1
  }

  predicate IsAbsolute(path: string) {
    path != "" && path[0] == '/'
  }

  /** A path taken relative to a base, with one slash put between them if the base has none. */
  function ExpandPath(path: string, base: string): string {
    if IsAbsolute(path) || base == "" then path
    else base + (if base[|base| - 1] == '/' then "" else "/") + path
  }

  /** An expanded path ends with the path and is absolute if the base is. */
  lemma {:induction false} ExpandedIsAbsolute(path: string, base: string)
    ensures IsAbsolute(ExpandPath(path, base)) <==> IsAbsolute(path) || IsAbsolute(base)
    ensures path <= ExpandPath(path, base)[|ExpandPath(path, base)| - |path|..]
    ensures ExpandPath("b/c.h", "/a") == "/a/b/c.h" == ExpandPath("b/c.h", "/a/")
    ensures ExpandPath("/b/c.h", "/a") == "/b/c.h" && ExpandPath("b/c.h", "") == "b/c.h"
  {
    assert "/a" + "/" + "b/c.h" == "/a/b/c.h" && "/a/" + "" + "b/c.h" == "/a/b/c.h";
  }

  class DwarfLineToModule {
    const compilationDir: string
    var directories: map<u32, string>
    var files: map<u32, string>
    var highestFileNumber: i32
    var lines: seq<Line>
    var omittedLineEnd: u64
    var warnedBadFileNumber: bool
    var warnedBadDirectoryNumber: bool
    // The calls so far.
    ghost var records: seq<Record>

    constructor (compilationDir: string)
      ensures Valid() && records == [] && this.compilationDir == compilationDir
      ensures directories == map[] && files == map[] && highestFileNumber == -1 && !warnedBadDirectoryNumber
    {
      this.compilationDir, directories, files, highestFileNumber := compilationDir, map[], map[], -1;
      lines, omittedLineEnd, records := [], 0, [];
      warnedBadFileNumber, warnedBadDirectoryNumber := false, false;
    }

    /** The lines and the warning flag are what the rule says of all the calls so far. */
    ghost predicate Valid()
      reads this
    {
      && lines == LinesOf(records, |records|)
      && omittedLineEnd == OmittedEnd(records, |records|)
      && warnedBadFileNumber == BadFile(records, |records|)
    }

    function FileOf(fileNumber: u32): (r: Option<string>)
      reads this
    {
      if fileNumber in files then Some(files[fileNumber]) else None
    }

    /** The name of a directory: number zero is the compilation directory. */
    function DirectoryOf(number: u32): (r: Option<string>)
      reads this
    {
      if number == 0 then Some(compilationDir)
      else if number in directories then Some(directories[number]) else None
    }

    /** Enters a directory in the table; number zero cannot be redefined. */
    method DefineDir(name: string, number: u32)
      requires Valid()
      modifies `directories
      ensures Valid()
      ensures DirectoryOf(number) == Some(if number == 0 then compilationDir else ExpandPath(name, compilationDir))
      ensures forall k: u32 :: k != number ==> DirectoryOf(k) == old(DirectoryOf(k))
    {
      if number != 0 {
        directories := directories[number := ExpandPath(name, compilationDir)];
      }
    }

    /** Enters a file in the table, whose keys are unsigned; number -1 asks for the next free one. */
    method DefineFile(name: string, fileNumber: i32, directory: u32)
      requires Valid()
      modifies `files, `highestFileNumber, `warnedBadDirectoryNumber
      ensures Valid() && records == old(records)
      ensures highestFileNumber == if fileNumber == -1 then Successor(old(highestFileNumber))
                                   else Max(old(highestFileNumber), fileNumber)
      ensures var n := if fileNumber == -1 then highestFileNumber else fileNumber;
              var base := DirectoryOf(directory);
              && FileOf(n % TWO_32) == Some(ExpandPath(name, if base.Some? then base.value else ""))
              && forall k: u32 :: k != n % TWO_32 ==> FileOf(k) == old(FileOf(k))
      ensures warnedBadDirectoryNumber == (old(warnedBadDirectoryNumber) || DirectoryOf(directory).None?)
    {
      var n := fileNumber;
      if n == -1 {
        highestFileNumber := Successor(highestFileNumber);
        n := highestFileNumber;
      } else if n > highestFileNumber {
        highestFileNumber := n;
      }
      var dirName := "";
      if directory == 0 {
        dirName := compilationDir;
      } else if directory in directories {
        dirName := directories[directory];
      } else {
        warnedBadDirectoryNumber := true;
      }
      files := files[n % TWO_32 := ExpandPath(name, dirName)];
    }

    method AddLine(address: u64, length: u64, fileNumber: u32, number: u32)
      requires Valid()
      modifies `lines, `omittedLineEnd, `warnedBadFileNumber, `records
      ensures Valid() && records == old(records) + [Record(address, length, FileOf(fileNumber), number)]
      ensures var kept := length != 0 && address != 0 && address != old(omittedLineEnd) && fileNumber in files;
              lines == if !kept then old(lines)
                       else old(lines) + [Span(address, Min(length, TWO_64 - address),
                                               SourcePosition(files[fileNumber], number))]
      ensures omittedLineEnd == if length == 0 then old(omittedLineEnd)
                                else if address != 0 && address != old(omittedLineEnd) then 0
                                else if address + length < TWO_64 then address + length else 0
      ensures warnedBadFileNumber
              == (old(warnedBadFileNumber)
                  || (length != 0 && address != 0 && address != old(omittedLineEnd) && fileNumber !in files))
    {
      hide LinesOf, BadFile, OmittedEnd, Dropped;
      ghost var before := records;
      ghost var record := Record(address, length, FileOf(fileNumber), number);
      records := records + [record];
      RecordAdded(before, record);
      if length == 0 {
        return;
      }
      var clipped := if Add64(address, length) < address then Sub64(0, address) else length;
      if address == 0 || address == omittedLineEnd {
        omittedLineEnd := Add64(address, clipped);
        return;
      }
      omittedLineEnd := 0;
      if fileNumber !in files {
        warnedBadFileNumber := true;
        return;
      }
      lines := lines + [Span(address, clipped, SourcePosition(files[fileNumber], number))];
    }
  }

  /** What one more record changes. */
  lemma {:induction false} RecordAdded(rs: seq<Record>, more: Record)
    ensures var all := rs + [more];
            var dropped := more.length != 0 && (more.address == 0 || more.address == OmittedEnd(rs, |rs|));
            && Dropped(all, |rs|) == dropped
            && OmittedEnd(all, |all|)
               == (if more.length == 0 then OmittedEnd(rs, |rs|) else if dropped then more.End() else 0)
            && LinesOf(all, |all|)
               == (if more.length == 0 || dropped || more.file.None? then LinesOf(rs, |rs|)
                   else LinesOf(rs, |rs|)
                        + [Span(more.address, more.Clipped(), SourcePosition(more.file.value, more.number))])
            && BadFile(all, |all|)
               == (BadFile(rs, |rs|) || (more.length != 0 && !dropped && more.file.None?))
  {
    var all := rs + [more];
    PreviousIsStable(rs, more, |rs|);
    var p := Previous(rs, |rs|);
    if p.Some? {
      DroppedIsStable(rs, more, p.value);
    }
    LinesOfIsStable(rs, more, |rs|);
    forall i | 0 <= i < |rs| ensures Dropped(all, i) == Dropped(rs, i) {
      DroppedIsStable(rs, more, i);
    }
    assert all[|rs|] == more;
    assert forall i :: 0 <= i < |rs| ==> all[i] == rs[i];
  }
}
