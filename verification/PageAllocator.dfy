/** The bump allocator of memory.h, on a 64-bit machine: pages come from mmap, and each run of
    pages starts with a header of 16 bytes. */
module PageAllocator {
  import opened MachineWords

  const HEADER_SIZE: int := 16

  /** A run of pages; the list of them is linked through the headers, newest first. */
  datatype Header = Header(address: u64, numPages: u32)

  datatype Block = Block(address: int, size: int)

  /** A page size divides 2^32 and leaves room for a header. */
  predicate IsPageSize(size: int) {
    HEADER_SIZE < size < TWO_32 && TWO_32 % size == 0
  }

  /** The number of pages asked for, before it is cut to 32 bits. */
  function PagesFor(bytes: u32, pageSize: int): nat
    requires pageSize > 0
  {
    (bytes + HEADER_SIZE + pageSize - 1) / pageSize
  }

  /** The length in bytes of a run of pages: an unsigned product. */
  function Length(numPages: nat, pageSize: nat): u32 {
    pageSize * numPages % TWO_32
  }

  /** What mmap answers: nothing, as it does for no bytes at all, or the address of whole pages
      that no other mapping uses. */
  ghost predicate IsMapping(answer: Option<u64>, length: int, pageSize: int, headers: seq<Header>)
    requires pageSize > 0
  {
    && (length == 0 ==> answer.None?)
    && (answer.Some? ==>
          && 0 < answer.value && answer.value % pageSize == 0 && answer.value + length <= TWO_64
          && forall h <- headers :: Apart(answer.value, length, h.address, Length(h.numPages, pageSize)))
  }

  predicate Apart(a: int, m: int, b: int, n: int) {
    a + m <= b || b + n <= a
  }

  // ----- rounding -----

  lemma {:induction false} PageSizeBounds(size: int)
    requires IsPageSize(size)
    ensures HEADER_SIZE < size < TWO_32
  {
  }

  lemma {:induction false} LengthIsProduct(numPages: nat, pageSize: nat)
    requires 0 <= pageSize * numPages < TWO_32
    ensures Length(numPages, pageSize) == pageSize * numPages
  {
  }

  lemma {:induction false} PagesRoundUp(bytes: u32, pageSize: int)
    requires IsPageSize(pageSize)
    ensures var n := PagesFor(bytes, pageSize);
            0 < n < TWO_32 && pageSize * (n - 1) < bytes + HEADER_SIZE <= pageSize * n
  {
    var sum := bytes + HEADER_SIZE + pageSize - 1;
    assert sum == pageSize * (sum / pageSize) + sum % pageSize;
    assert pageSize * (sum / pageSize - 1) == pageSize * (sum / pageSize) - pageSize;
  }

  lemma {:induction false} Multiples(size: int, m: int, n: int)
    requires size > 0
    ensures m <= n ==> size * m <= size * n
    ensures size * (n - 1) == size * n - size && size * (n + 1) == size * n + size
  {
  }

  lemma {:induction false} PageCount(need: int, size: int, n: nat, q: nat)
    requires HEADER_SIZE < size && size * q == TWO_32 && need < TWO_32 + HEADER_SIZE
    requires size * (n - 1) < need <= size * n
    ensures need <= TWO_32 - size ==> size * n <= TWO_32 - size
    ensures TWO_32 - size < need <= TWO_32 ==> size * n == TWO_32
    ensures TWO_32 < need ==> size * n == TWO_32 + size
  {
    Multiples(size, q, n - 1);
    Multiples(size, q + 1, n - 1);
    Multiples(size, q - 1, n - 1);
    Multiples(size, n, q - 1);
    Multiples(size, n, q);
    Multiples(size, 0, q);
    assert n < q || n == q || n == q + 1 || n > q + 1;
  }

  /** The run is long enough exactly when the block and the header fit in 32 bits; otherwise the
      product wraps and a single page is asked for. */
  lemma {:induction false} LengthIsEnough(bytes: u32, pageSize: int)
    requires IsPageSize(pageSize)
    ensures var n := PagesFor(bytes, pageSize);
            && (bytes + HEADER_SIZE <= TWO_32 - pageSize ==> Length(n, pageSize) == pageSize * n >= bytes + HEADER_SIZE)
            && (TWO_32 - pageSize < bytes + HEADER_SIZE <= TWO_32 ==> Length(n, pageSize) == 0)
            && (bytes + HEADER_SIZE > TWO_32 ==> Length(n, pageSize) == pageSize)
  {
    hide PagesFor;
    var n, q := PagesFor(bytes, pageSize), TWO_32 / pageSize;
    PagesRoundUp(bytes, pageSize);
    assert TWO_32 == pageSize * q;
    PageCount(bytes + HEADER_SIZE, pageSize, n, q);
  }

  /** The remainder, as the unsigned operations take it. */
  function Modulo(a: int, m: int): (r: int)
    requires m > 0
    ensures 0 <= r < m
  {
    a % m
  }

  lemma {:induction false} SmallModulo(a: int, m: int)
    requires m > 0
    ensures 0 <= a < m ==> Modulo(a, m) == a
    ensures a == m ==> Modulo(a, m) == 0
  {
  }

  /** The new offset as Alloc computes it, in 64 bits. */
  function Offset(length: u32, need: nat, pageSize: int): (offset: int)
    requires pageSize > 0
    ensures 0 <= offset < pageSize
  {
    Modulo(Modulo(pageSize - Modulo(length - need, TWO_64), TWO_64), pageSize)
  }

  /** What is used of the last page, or zero when that is all of it. */
  lemma {:induction false} OffsetIsUse(length: u32, need: nat, pageSize: int)
    requires 0 < pageSize < TWO_32 && 0 <= length - need < pageSize
    ensures var used := pageSize - (length - need);
            Offset(length, need, pageSize) == if used == pageSize then 0 else used
  {
    hide Modulo;
    var used := pageSize - (length - need);
    SmallModulo(length - need, TWO_64);
    SmallModulo(used, TWO_64);
    SmallModulo(used, pageSize);
  }

  function OffsetFor(bytes: u32, pageSize: int): (offset: u32)
    requires IsPageSize(pageSize)
    ensures offset < pageSize
  {
    Offset(Length(PagesFor(bytes, pageSize), pageSize), bytes + HEADER_SIZE, pageSize)
  }

  lemma {:induction false} OffsetIsRight(bytes: u32, pageSize: int)
    requires IsPageSize(pageSize) && bytes + HEADER_SIZE <= TWO_32 - pageSize
    ensures var n, offset := PagesFor(bytes, pageSize), OffsetFor(bytes, pageSize);
            && (offset == 0 ==> Length(n, pageSize) == bytes + HEADER_SIZE)
            && Length(n - 1, pageSize) + pageSize == Length(n, pageSize)
            && (offset != 0 ==> Length(n - 1, pageSize) + offset == bytes + HEADER_SIZE)
  {
    hide PagesFor, Offset, Length, IsPageSize;
    PageSizeBounds(pageSize);
    var n := PagesFor(bytes, pageSize);
    PagesRoundUp(bytes, pageSize);
    LengthIsEnough(bytes, pageSize);
    Multiples(pageSize, n, n);
    LengthIsProduct(n - 1, pageSize);
    OffsetIsUse(Length(n, pageSize), bytes + HEADER_SIZE, pageSize);
  }

  /** In every case the page is inside the run. */
  lemma {:induction false} PageIsInside(bytes: u32, pageSize: int)
    requires IsPageSize(pageSize) && Length(PagesFor(bytes, pageSize), pageSize) > 0
    ensures Length(PagesFor(bytes, pageSize) - 1, pageSize) < Length(PagesFor(bytes, pageSize), pageSize)
  {
    var n := PagesFor(bytes, pageSize);
    LengthIsEnough(bytes, pageSize);
    PagesRoundUp(bytes, pageSize);
    if bytes + HEADER_SIZE <= TWO_32 - pageSize {
      OffsetIsRight(bytes, pageSize);
    } else {
      var q := TWO_32 / pageSize;
      PageCount(bytes + HEADER_SIZE, pageSize, n, q);
      Multiples(pageSize, q, n);
    }
  }

  // ----- what the allocator keeps -----

  function End(h: Header, pageSize: nat): int {
    h.address + Length(h.numPages, pageSize)
  }

  /** The allocator, the blocks it has handed out and the run of pages each of them is in. */
  datatype Arena = Arena(
    headers: seq<Header>, currentPage: Option<u64>, pageOffset: u32, blocks: seq<Block>, homes: seq<Header>)

  /** Where the used part of the newest pages ends. */
  function Top(s: Arena, pageSize: nat): int
    requires s.headers != []
  {
    if s.currentPage.None? then End(s.headers[0], pageSize) else s.currentPage.value + s.pageOffset
  }

  predicate RunsApart(g: Header, h: Header, pageSize: nat) {
    Apart(g.address, Length(g.numPages, pageSize), h.address, Length(h.numPages, pageSize))
  }

  ghost predicate RunsAreApart(s: Arena, pageSize: nat) {
    && (forall h <- s.headers ::
          0 < h.address && HEADER_SIZE < Length(h.numPages, pageSize) && End(h, pageSize) <= TWO_64)
    && (forall g, h :: g in s.headers && h in s.headers && g != h ==> RunsApart(g, h, pageSize))
  }

  predicate BlocksApart(b: Block, c: Block) {
    Apart(b.address, b.size, c.address, c.size)
  }

  /** After its run's header, and before the end of the run or of its used part. */
  predicate IsHoused(s: Arena, pageSize: nat, b: Block, home: Header) {
    && home in s.headers && 0 < b.size && home.address + HEADER_SIZE <= b.address
    && b.address + b.size <= if home == s.headers[0] then Top(s, pageSize) else End(home, pageSize)
  }

  /** No two blocks overlap, and none overlaps a header or leaves its pages. */
  ghost predicate BlocksAreSafe(s: Arena, pageSize: nat) {
    && |s.homes| == |s.blocks| && (s.headers == [] <==> s.blocks == [])
    && (forall j, k :: 0 <= j < k < |s.blocks| ==> BlocksApart(s.blocks[j], s.blocks[k]))
    && (forall k :: 0 <= k < |s.blocks| ==> IsHoused(s, pageSize, s.blocks[k], s.homes[k]))
  }

  /** The current page is null exactly when the offset is zero; otherwise it is the last page of the
      newest run. The used part always ends with the newest block. */
  predicate OffsetIsUsedPart(s: Arena, pageSize: nat) {
    && (s.currentPage.None? <==> s.pageOffset == 0)
    && (s.currentPage.Some? ==>
          s.headers != [] && s.pageOffset < pageSize && s.currentPage.value + pageSize == End(s.headers[0], pageSize))
    && (s.blocks != [] ==>
          && s.headers != [] && |s.homes| == |s.blocks| && s.homes[|s.homes| - 1] == s.headers[0]
          && s.blocks[|s.blocks| - 1].address + s.blocks[|s.blocks| - 1].size == Top(s, pageSize))
  }

  ghost predicate IsSafe(s: Arena, pageSize: nat) {
    RunsAreApart(s, pageSize) && BlocksAreSafe(s, pageSize) && OffsetIsUsedPart(s, pageSize)
  }

  /** A block taken from the current page. */
  function AfterBump(s: Arena, pageSize: nat, bytes: u32): Arena
    requires s.currentPage.Some? && s.headers != [] && s.pageOffset + bytes <= pageSize < TWO_32
  {
    var full := s.pageOffset + bytes == pageSize;
    Arena(s.headers, if full then None else s.currentPage, if full then 0 else s.pageOffset + bytes,
          s.blocks + [Block(s.currentPage.value + s.pageOffset, bytes)], s.homes + [s.headers[0]])
  }

  lemma {:induction false} BumpIsSafe(s: Arena, pageSize: nat, bytes: u32)
    requires IsSafe(s, pageSize) && s.currentPage.Some? && 0 < bytes && s.pageOffset + bytes <= pageSize < TWO_32
    ensures IsSafe(AfterBump(s, pageSize, bytes), pageSize)
  {
    hide Length;
    var t := AfterBump(s, pageSize, bytes);
    var b := t.blocks[|s.blocks|];
    forall k | 0 <= k < |s.blocks|
      ensures IsHoused(t, pageSize, s.blocks[k], s.homes[k]) && BlocksApart(s.blocks[k], b)
    {
      assert IsHoused(s, pageSize, s.blocks[k], s.homes[k]);
      if s.homes[k] != s.headers[0] {
        assert RunsApart(s.homes[k], s.headers[0], pageSize);
      }
    }
    assert IsHoused(s, pageSize, s.blocks[|s.blocks| - 1], s.homes[|s.blocks| - 1]);
    assert IsHoused(t, pageSize, b, s.headers[0]);
  }

  /** A block at the start of a new run of pages. */
  function AfterNewRun(s: Arena, pageSize: nat, bytes: u32, h: Header, currentPage: Option<u64>, offset: u32): Arena {
    Arena([h] + s.headers, currentPage, offset, s.blocks + [Block(h.address + HEADER_SIZE, bytes)], s.homes + [h])
  }

  lemma {:induction false} NewRunIsSafe(
    s: Arena, pageSize: nat, bytes: u32, h: Header, currentPage: Option<u64>, offset: u32)
    requires IsSafe(s, pageSize) && 0 < bytes && 0 < h.address && End(h, pageSize) <= TWO_64
    requires forall g <- s.headers :: RunsApart(h, g, pageSize)
    requires var t := AfterNewRun(s, pageSize, bytes, h, currentPage, offset);
             Top(t, pageSize) == h.address + HEADER_SIZE + bytes <= End(h, pageSize)
    requires currentPage.None? <==> offset == 0
    requires currentPage.Some? ==> offset < pageSize && currentPage.value + pageSize == End(h, pageSize)
    ensures IsSafe(AfterNewRun(s, pageSize, bytes, h, currentPage, offset), pageSize)
  {
    hide Length;
    var t := AfterNewRun(s, pageSize, bytes, h, currentPage, offset);
    var b := t.blocks[|s.blocks|];
    assert h !in s.headers by {
      assert h in s.headers ==> RunsApart(h, h, pageSize);
    }
    forall k | 0 <= k < |s.blocks|
      ensures IsHoused(t, pageSize, s.blocks[k], s.homes[k]) && BlocksApart(s.blocks[k], b)
    {
      assert IsHoused(s, pageSize, s.blocks[k], s.homes[k]);
      assert RunsApart(h, s.homes[k], pageSize);
    }
  }

  lemma {:induction false} SafePage(s: Arena, pageSize: nat)
    requires IsSafe(s, pageSize) && s.currentPage.Some?
    ensures s.headers != [] && s.pageOffset < pageSize && s.currentPage.value + pageSize <= TWO_64
  {
    hide Length;
    assert s.headers[0] in s.headers;
  }

  /** Every byte of a block lies in a run, and no block overlaps another block or any header. */
  lemma {:induction false} SafeMeans(s: Arena, pageSize: nat, k: nat)
    requires IsSafe(s, pageSize) && k < |s.blocks|
    ensures var b := s.blocks[k];
            && (forall p :: b.address <= p < b.address + b.size ==> IsOwned(s.headers, pageSize, p))
            && (forall h <- s.headers :: b.address + b.size <= h.address || h.address + 16 <= b.address)
            && (forall j :: 0 <= j < |s.blocks| && j != k ==>
                  || s.blocks[j].address + s.blocks[j].size <= b.address
                  || b.address + b.size <= s.blocks[j].address)
  {
    hide Length;
    var b, home := s.blocks[k], s.homes[k];
    assert IsHoused(s, pageSize, b, home);
    HousedIsInRun(s, pageSize, b, home);
    forall h | h in s.headers ensures Apart(b.address, b.size, h.address, HEADER_SIZE) {
      assert h != home ==> RunsApart(h, home, pageSize);
    }
    forall j | 0 <= j < |s.blocks| && j != k ensures BlocksApart(s.blocks[j], b) {
    }
  }

  lemma {:induction false} HousedIsInRun(s: Arena, pageSize: nat, b: Block, home: Header)
    requires OffsetIsUsedPart(s, pageSize) && IsHoused(s, pageSize, b, home)
    ensures home.address + HEADER_SIZE <= b.address && b.address + b.size <= End(home, pageSize)
  {
  }

  ghost predicate IsOwned(headers: seq<Header>, pageSize: nat, p: int) {
    exists h :: h in headers && h.address <= p < End(h, pageSize)
  }

  /** A pointer is owned if it is in the pages of a run, as far as their number does not wrap. */
  lemma {:induction false} OwnedIsInPages(headers: seq<Header>, pageSize: nat, p: int)
    requires forall h <- headers :: pageSize * h.numPages < TWO_32
    ensures IsOwned(headers, pageSize, p)
            <==> exists h :: h in headers && h.address <= p < h.address + pageSize * h.numPages
  {
    hide Length;
    forall h | h in headers ensures End(h, pageSize) == h.address + pageSize * h.numPages {
      LengthIsProduct(h.numPages, pageSize);
    }
  }

  /** The blocks handed out from new runs are safe for exactly these sizes: for larger ones the block
      goes past the single page that is mapped. */
  lemma {:induction false} SizesThatFit(bytes: u32, pageSize: int, a: u64)
    requires IsPageSize(pageSize) && Length(PagesFor(bytes, pageSize), pageSize) > 0
    ensures a + HEADER_SIZE + bytes <= End(Header(a, RunLength(bytes, pageSize)), pageSize)
            <==> bytes + HEADER_SIZE <= TWO_32
  {
    hide PagesFor, Length;
    PagesRoundUp(bytes, pageSize);
    LengthIsEnough(bytes, pageSize);
  }

  /** The number of pages as the header holds it. */
  function RunLength(bytes: u32, pageSize: int): u32
    requires IsPageSize(pageSize)
  {
    PagesRoundUp(bytes, pageSize);
    PagesFor(bytes, pageSize)
  }

  class PageAllocator {
    const pageSize: u32
    var headers: seq<Header>
    var currentPage: Option<u64>
    var pageOffset: u32
    ghost var blocks: seq<Block>
    ghost var homes: seq<Header>

    ghost function Now(): Arena
      reads this
    {
      Arena(headers, currentPage, pageOffset, blocks, homes)
    }

    ghost predicate Valid()
      reads this
    {
      IsPageSize(pageSize) && IsSafe(Now(), pageSize)
    }

    constructor (size: u32)
      requires IsPageSize(size)
      ensures Valid() && pageSize == size && headers == [] && blocks == []
    {
      pageSize := size;
      headers, currentPage, pageOffset := [], None, 0;
      blocks, homes := [], [];
    }

    /** GetNPages, where mapped is what mmap answers. */
    method GetNPages(numPages: u32, mapped: Option<u64>) returns (a: Option<u64>)
      modifies this`headers
      ensures a == mapped
      ensures headers == if mapped.None? then old(headers) else [Header(mapped.value, numPages)] + old(headers)
    {
      if mapped.None? {
        return None;
      }
      headers := [Header(mapped.value, numPages)] + headers;
      return mapped;
    }

    ghost method HandOut(b: Block)
      requires headers != []
      modifies this`blocks, this`homes
      ensures blocks == old(blocks) + [b] && homes == old(homes) + [headers[0]]
    {
      blocks, homes := blocks + [b], homes + [headers[0]];
    }

    /** Alloc. The allocator and its blocks stay safe, for a block in the current page or of a size that
        fits in 32 bits with its header. Of the sizes that an unsigned int can hold, the last 15 do not
        fit with a header: for them a single page is mapped and handed out as if it were enough. */
    method Alloc(bytes: u32, mapped: Option<u64>) returns (r: Option<u64>)
      requires Valid()
      requires IsMapping(mapped, Length(PagesFor(bytes, pageSize), pageSize), pageSize, headers)
      modifies this
      ensures var room := old(currentPage.Some? && pageOffset + bytes <= pageSize);
              r.None? <==> bytes == 0 || (!room && mapped.None?)
      ensures r.None? ==> Now() == old(Now())
      ensures r.Some? ==> blocks == old(blocks) + [Block(r.value, bytes)]
      ensures r.Some? ==>
                if old(currentPage.Some? && pageOffset + bytes <= pageSize) then headers == old(headers)
                else && mapped.Some? && r.value == mapped.value + 16
                     && headers == [Header(mapped.value, RunLength(bytes, pageSize))] + old(headers)
      ensures old(currentPage.Some? && pageOffset + bytes <= pageSize) || bytes + HEADER_SIZE <= TWO_32 ==> Valid()
    {
      hide IsSafe, Length, PagesFor, OffsetFor;
      PagesRoundUp(bytes, pageSize);
      LengthIsEnough(bytes, pageSize);
      if bytes == 0 {
        return None;
      }
      if currentPage.Some? && pageSize - pageOffset >= bytes {
        SafePage(Now(), pageSize);
        BumpIsSafe(Now(), pageSize, bytes);
        r := Some(currentPage.value + pageOffset);
        HandOut(Block(r.value, bytes));
        pageOffset := pageOffset + bytes;
        if pageOffset == pageSize {
          pageOffset, currentPage := 0, None;
        }
        return;
      }
      ghost var before := Now();
      var pages := PagesFor(bytes, pageSize);
      var a := GetNPages(pages, mapped);
      if a.None? {
        return None;
      }
      PageIsInside(bytes, pageSize);
      pageOffset := OffsetFor(bytes, pageSize);
      currentPage := if pageOffset != 0 then Some(a.value + Length(pages - 1, pageSize)) else None;
      HandOut(Block(a.value + HEADER_SIZE, bytes));
      if bytes + HEADER_SIZE <= TWO_32 {
        OffsetIsRight(bytes, pageSize);
        NewRunIsSafe(before, pageSize, bytes, Header(a.value, pages), currentPage, pageOffset);
      }
      return Some(a.value + HEADER_SIZE);
    }

    /** OwnsPointer: whether a pointer is into the allocator's pages. */
    method OwnsPointer(p: u64) returns (owns: bool)
      ensures owns <==> IsOwned(headers, pageSize, p)
    {
      for i := 0 to |headers|
        invariant forall j :: 0 <= j < i ==> !(headers[j].address <= p < End(headers[j], pageSize))
      {
        var current := headers[i].address;
        if p >= current && p < current + Length(headers[i].numPages, pageSize) {
          assert headers[i] in headers;
          return true;
        }
      }
      return false;
    }

    /** FreeAll: the ranges given back to munmap are those of the runs. */
    method FreeAll() returns (unmapped: seq<Block>)
      ensures |unmapped| == |headers|
      ensures forall i :: 0 <= i < |headers| ==>
                unmapped[i] == Block(headers[i].address, Length(headers[i].numPages, pageSize))
    {
      unmapped := [];
      for i := 0 to |headers|
        invariant |unmapped| == i
        invariant forall j :: 0 <= j < i ==>
                    unmapped[j] == Block(headers[j].address, Length(headers[j].numPages, pageSize))
      {
        unmapped := unmapped + [Block(headers[i].address, Length(headers[i].numPages, pageSize))];
      }
    }
  }
}
