/** The parsing cursor of byte_cursor.h. A target type T of n bytes is taken as its bit pattern, a
    number below 256^n. */
module ByteCursor {
  import opened MachineWords
  import opened SignBits

  /** 256^n. */
  function Power(n: nat): (p: nat)
    ensures p > 0
  {
    if n == 0 then 1 else 256 * Power(n - 1)
  }

  /** The number that bytes stand for, low byte first. */
  function LittleEndian(bytes: seq<u8>): (v: nat)
    ensures v < Power(|bytes|)
  {
    if bytes == [] then 0 else bytes[0] + 256 * LittleEndian(bytes[1..])
  }

  /** The number that bytes stand for, high byte first. */
  function BigEndian(bytes: seq<u8>): (v: nat)
    ensures v < Power(|bytes|)
  {
    if bytes == [] then 0 else 256 * BigEndian(bytes[..|bytes| - 1]) + bytes[|bytes| - 1]
  }

  function Reversed(bytes: seq<u8>): (r: seq<u8>)
    ensures |r| == |bytes|
  {
    if bytes == [] then [] else Reversed(bytes[1..]) + [bytes[0]]
  }

  /** Big-endian reading is little-endian reading of the bytes reversed. */
  lemma {:induction false} EndiannessIsReversal(bytes: seq<u8>)
    ensures BigEndian(Reversed(bytes)) == LittleEndian(bytes)
  {
    if bytes != [] {
      EndiannessIsReversal(bytes[1..]);
      var r := Reversed(bytes);
      assert r[..|r| - 1] == Reversed(bytes[1..]);
    }
  }

  function Unsigned(bytes: seq<u8>, bigEndian: bool): (v: nat)
    ensures v < Power(|bytes|)
  {
    if bigEndian then BigEndian(bytes) else LittleEndian(bytes)
  }

  lemma {:induction false} QuotientIs(x: nat, m: nat, q: nat, r: nat)
    requires x == m * q + r && r < m
    ensures x / m == q
  {
    var d := q - x / m;
    assert m * d == x % m - r;
    MultipleIsLarge(m, d);
    MultipleIsLarge(m, -d);
  }

  lemma {:induction false} NextDigit(v: nat, b: u8, i: nat)
    requires i > 0
    ensures (256 * v + b) / Power(i) == v / Power(i - 1)
  {
    hide Power;
    var p := Power(i - 1);
    assert Power(i) == 256 * p by { PowerStep(i); }
    assert v == p * (v / p) + v % p;
    assert 256 * v + b == (256 * p) * (v / p) + (256 * (v % p) + b);
    QuotientIs(256 * v + b, 256 * p, v / p, 256 * (v % p) + b);
  }

  lemma {:induction false} PowerStep(i: nat)
    requires i > 0
    ensures Power(i) == 256 * Power(i - 1)
  {
  }

  /** The digits of the number in base 256 are its bytes: the last one counts least if the high byte is
      first, and the first one otherwise. */
  lemma {:induction false} DigitsAreBytes(bytes: seq<u8>, bigEndian: bool, i: nat)
    requires i < |bytes|
    ensures Unsigned(bytes, bigEndian) / Power(i) % 256 == bytes[if bigEndian then |bytes| - 1 - i else i]
    decreases |bytes|
  {
    hide Unsigned, Power;
    var rest := if bigEndian then bytes[..|bytes| - 1] else bytes[1..];
    var b := if bigEndian then bytes[|bytes| - 1] else bytes[0];
    UnsignedOfMore(bytes, bigEndian);
    if i == 0 {
      LastDigit(Unsigned(rest, bigEndian), b);
    } else {
      NextDigit(Unsigned(rest, bigEndian), b, i);
      DigitsAreBytes(rest, bigEndian, i - 1);
    }
  }

  lemma {:induction false} UnsignedOfMore(bytes: seq<u8>, bigEndian: bool)
    requires bytes != []
    ensures Unsigned(bytes, bigEndian)
            == if bigEndian then 256 * Unsigned(bytes[..|bytes| - 1], true) + bytes[|bytes| - 1]
               else 256 * Unsigned(bytes[1..], false) + bytes[0]
  {
    hide Power;
  }

  lemma {:induction false} LastDigit(v: nat, b: u8)
    ensures (256 * v + b) / Power(0) % 256 == b
  {
    assert Power(0) == 1;
  }

  /** The number that a pattern of n bytes stands for in two's complement. */
  function TwosComplement(pattern: nat, n: nat): int
    requires pattern < Power(n)
  {
    if 2 * pattern < Power(n) then pattern else pattern - Power(n)
  }

  /** The value of a pattern as an object of a type of n bytes. */
  function ValueAs(pattern: nat, n: nat, signed: bool): int
    requires pattern < Power(n)
  {
    if signed then TwosComplement(pattern, n) else pattern
  }

  // ----- the arithmetic of Read -----

  /** What Read stores for the number of size bytes: they fill the target from its low end; when
      there are fewer than n and a signed number is asked for, the sign is extended by
      (v ^ sign_bit) - sign_bit, which is done in 64 bits and then cut to the target. */
  function Stored(v: nat, size: nat, n: nat, isSigned: bool): (pattern: nat)
    ensures pattern < Power(n)
  {
    var cut := v % Power(n);
    if isSigned && 0 < size < n then
      var signBit := Power(size) / 2;
      (Flip(cut, signBit) - signBit) % TWO_64 % Power(n)
    else cut
  }

  predicate IsTargetSize(n: nat) {
    n == 1 || n == 2 || n == 4 || n == 8
  }

  lemma {:induction false} SmallPowers()
    ensures Power(1) == TWO_8 && Power(2) == TWO_16 && Power(3) == 0x100_0000 && Power(4) == TWO_32
    ensures Power(5) == 0x100_0000_0000 && Power(6) == 0x1_0000_0000_0000
    ensures Power(7) == 0x100_0000_0000_0000 && Power(8) == TWO_64
  {
    assert Power(2) == 256 * Power(1) && Power(3) == 256 * Power(2) && Power(4) == 256 * Power(3);
    assert Power(5) == 256 * Power(4) && Power(6) == 256 * Power(5) && Power(7) == 256 * Power(6);
    assert Power(8) == 256 * Power(7);
  }

  lemma {:induction false} TargetSizes(n: nat)
    requires IsTargetSize(n)
    ensures Power(n) == if n == 1 then TWO_8 else if n == 2 then TWO_16 else if n == 4 then TWO_32 else TWO_64
  {
    hide Power;
    SmallPowers();
  }

  lemma {:induction false} PowersGrow(m: nat, n: nat)
    requires m < n
    ensures 256 * Power(m) <= Power(n) && (m > 0 ==> Power(m) % 2 == 0)
    decreases n
  {
    hide Power;
    PowerStep(n);
    if m > 0 {
      PowerStep(m);
      DoubleIsEven(128 * Power(m - 1));
    }
    if m + 1 < n {
      PowersGrow(m, n - 1);
    }
  }

  lemma {:induction false} DoubleIsEven(x: nat)
    ensures 2 * x % 2 == 0
  {
  }

  /** Cutting a small number, possibly negative, to 64 bits and then to the target. */
  lemma {:induction false} RemainderIs(x: nat, m: nat, q: nat, r: nat)
    requires x == m * q + r && r < m
    ensures x % m == r
  {
    var d := q - x / m;
    assert m * d == x % m - r;
    MultipleIsLarge(m, d);
    MultipleIsLarge(m, -d);
  }

  lemma {:induction false} MultipleIsLarge(m: nat, d: int)
    ensures d >= 1 ==> m * d >= m
  {
    if d >= 1 {
      assert m * d == m + m * (d - 1);
    }
  }

  lemma {:induction false} CutTwice(x: int, n: nat)
    requires IsTargetSize(n) && 0 < x + Power(n) && x < Power(n)
    ensures x % TWO_64 % Power(n) == if x < 0 then x + Power(n) else x
  {
    hide Power;
    TargetSizes(n);
    var p := Power(n);
    if x < 0 {
      var q := if n == 1 then 0x100_0000_0000_0000 else if n == 2 then 0x1_0000_0000_0000
               else if n == 4 then 0x1_0000_0000 else 1;
      assert p * q == TWO_64;
      assert p * (q - 1) == p * q - p;
      RemainderIs(x + TWO_64, p, q - 1, x + p);
    } else {
      RemainderIs(x, p, 0, x);
    }
  }

  /** The number that Read is asked for: in two's complement, or unsigned. */
  function Asked(bytes: seq<u8>, bigEndian: bool, isSigned: bool): int {
    if isSigned then TwosComplement(Unsigned(bytes, bigEndian), |bytes|) else Unsigned(bytes, bigEndian)
  }

  /** The pattern stored for up to n bytes is that of the number asked for, whatever the target's
      signedness; so where the target can hold the number it is the result. */
  lemma {:induction false} ReadIsRight(bytes: seq<u8>, bigEndian: bool, isSigned: bool, n: nat, signed: bool)
    requires IsTargetSize(n) && |bytes| <= n && (isSigned ==> bytes != [])
    ensures var asked := Asked(bytes, bigEndian, isSigned);
            var stored := ValueAs(Stored(Unsigned(bytes, bigEndian), |bytes|, n, isSigned), n, signed);
            && (stored == asked || stored == asked - Power(n) || stored == asked + Power(n))
            && (signed && 0 <= 2 * asked + Power(n) && 2 * asked < Power(n) ==> stored == asked)
            && (!signed && 0 <= asked ==> stored == asked)
            && (signed == isSigned ==> stored == asked)
  {
    hide Unsigned, Power;
    var v, size := Unsigned(bytes, bigEndian), |bytes|;
    if size < n {
      PowersGrow(size, n);
      var signBit := Power(size) / 2;
      RemainderIs(v, Power(n), 0, v);
      CutTwice(Flip(v, signBit) - signBit, n);
    } else {
      RemainderIs(v, Power(n), 0, v);
    }
  }

  // ----- the cursor -----

  /** Where the cursor is, and whether all reads so far were completed. */
  datatype State = State(here: nat, complete: bool)

  /** After an operation on size bytes of a buffer of the given length. */
  function After(length: nat, s: State, size: nat): State {
    if s.here + size <= length then State(s.here + size, s.complete) else State(length, false)
  }

  function AfterAll(length: nat, s: State, sizes: seq<nat>): State {
    if sizes == [] then s else After(length, AfterAll(length, s, sizes[..|sizes| - 1]), sizes[|sizes| - 1])
  }

  function Sum(sizes: seq<nat>): nat {
    if sizes == [] then 0 else Sum(sizes[..|sizes| - 1]) + sizes[|sizes| - 1]
  }

  /** Over any chain of operations of fixed sizes the cursor stays in the buffer, failure is
      permanent, and all are completed exactly if the sizes add up to at most what was available. */
  lemma {:induction false} ChainsComplete(length: nat, s: State, sizes: seq<nat>)
    requires s.here <= length
    ensures AfterAll(length, s, sizes)
            == if s.here + Sum(sizes) <= length then State(s.here + Sum(sizes), s.complete) else State(length, false)
  {
    if sizes != [] {
      ChainsComplete(length, s, sizes[..|sizes| - 1]);
    }
  }

  /** Where the bytes read so far begin, in the loop that counts down past zero. */
  function Next(i: u64, size: u64): (k: u64)
    ensures k <= size
  {
    if i < size then i + 1 else 0
  }

  /** The value that a failed Read stores. */
  function Dummy(n: nat): nat {
    0xdead_beef % Power(n)
  }

  /** The bytes before the first zero, or all of them. */
  function BeforeZero(bytes: seq<u8>): (r: seq<u8>)
    ensures |r| <= |bytes| && r == bytes[..|r|]
    ensures forall b <- r :: b != 0
    ensures |r| < |bytes| ==> bytes[|r|] == 0
  {
    if bytes == [] || bytes[0] == 0 then []
    else
      var r := BeforeZero(bytes[1..]);
      assert bytes == [bytes[0]] + bytes[1..];
      [bytes[0]] + r
  }

  class ByteCursor {
    const buffer: seq<u8>
    var here: nat
    var bigEndian: bool
    var complete: bool

    ghost predicate Valid()
      reads this
    {
      here <= |buffer| && |buffer| < TWO_64
    }

    ghost function Now(): State
      reads this
    {
      State(here, complete)
    }

    constructor (buffer: seq<u8>, bigEndian: bool)
      requires |buffer| < TWO_64
      ensures Valid() && this.buffer == buffer && this.bigEndian == bigEndian && Now() == State(0, true)
    {
      this.buffer, this.bigEndian, here, complete := buffer, bigEndian, 0, true;
    }

    method CheckAvailable(size: u64) returns (available: bool)
      requires Valid()
      modifies this`here, this`complete
      ensures Valid() && available == (old(here) + size <= |buffer|)
      ensures Now() == if available then old(Now()) else After(|buffer|, old(Now()), size)
    {
      if |buffer| - here >= size {
        return true;
      } else {
        here := |buffer|;
        complete := false;
        return false;
      }
    }

    /** Read, into a target of n bytes. A signed number needs at least one byte: for none the shift
        that makes the sign bit is undefined. */
    method Read(size: u64, isSigned: bool, n: nat) returns (result: nat)
      requires Valid() && IsTargetSize(n) && (isSigned ==> size > 0)
      modifies this`here, this`complete
      ensures Valid() && Now() == After(|buffer|, old(Now()), size)
      ensures result == if old(here) + size <= |buffer|
                        then Stored(Unsigned(buffer[old(here)..old(here) + size], bigEndian), size, n, isSigned)
                        else 0xdead_beef % Power(n)
    {
      hide Unsigned, Power, Flip;
      var available := CheckAvailable(size);
      if !available {
        return Dummy(n);
      }
      var v := ReadUnsigned(size, n);
      if isSigned && size < n {
        var signBit := Power(size) / 2;
        v := (Flip(v, signBit) - signBit) % TWO_64 % Power(n);
      }
      here := here + size;
      return v;
    }

    /** The two loops of Read, on wrapping numbers of n bytes. */
    method ReadUnsigned(size: u64, n: nat) returns (v: nat)
      requires Valid() && here + size <= |buffer|
      ensures v == Unsigned(buffer[here..here + size], bigEndian) % Power(n)
    {
      hide BigEndian, LittleEndian, Power;
      ghost var bytes := buffer[here..here + size];
      v := 0;
      NoBytes(n);
      if bigEndian {
        var i := 0;
        assert bytes[..0] == [];
        while i < size
          invariant i <= size && v == BigEndian(bytes[..i]) % Power(n)
        {
          BigEndianStep(bytes, i, n);
          v := (v * 256 + buffer[here + i]) % Power(n);
          i := i + 1;
        }
        assert bytes[..size] == bytes;
      } else {
        var i: u64 := Sub64(size, 1);
        assert bytes[Next(i, size)..] == [];
        while i < size
          invariant i < size || i == TWO_64 - 1
          invariant v == LittleEndian(bytes[Next(i, size)..]) % Power(n)
          decreases Next(i, size)
        {
          LittleEndianStep(bytes, i, n);
          v := (v * 256 + buffer[here + i]) % Power(n);
          i := Sub64(i, 1);
        }
        assert bytes[0..] == bytes;
      }
    }

    /** Read, into an array. */
    method ReadBytes(target: array<u8>, size: u64)
      requires Valid() && size <= target.Length
      modifies this`here, this`complete, target
      ensures Valid() && Now() == After(|buffer|, old(Now()), size)
      ensures target[..] == if old(here) + size <= |buffer|
                            then buffer[old(here)..old(here) + size] + old(target[size..]) else old(target[..])
    {
      var available := CheckAvailable(size);
      if available {
        forall i | 0 <= i < size { target[i] := buffer[here + i]; }
        here := here + size;
      }
    }

    /** CString: the bytes up to the next zero, which is skipped; without one the cursor fails. */
    method CString() returns (str: seq<u8>)
      requires Valid()
      modifies this`here, this`complete
      ensures var rest := buffer[old(here)..]; var s := BeforeZero(rest);
              && Valid()
              && str == (if |s| < |rest| then s else [])
              && Now() == After(|buffer|, old(Now()), |s| + 1)
    {
      var s := BeforeZero(buffer[here..]);
      if |s| < |buffer| - here {
        str := s;
        here := here + |s| + 1;
      } else {
        str := [];
        here := |buffer|;
        complete := false;
      }
    }

    /** CString in a field of limit bytes, of which it need not use all. */
    method CStringIn(limit: u64) returns (str: seq<u8>)
      requires Valid()
      modifies this`here, this`complete
      ensures Valid() && Now() == After(|buffer|, old(Now()), limit)
      ensures str == if old(here) + limit <= |buffer| then BeforeZero(buffer[old(here)..old(here) + limit]) else []
    {
      hide BeforeZero;
      var available := CheckAvailable(limit);
      if available {
        str := BeforeZero(buffer[here..here + limit]);
        here := here + limit;
      } else {
        str := [];
      }
    }

    /** PointTo: the position of the next size bytes. */
    method PointTo(size: u64) returns (pointer: Option<nat>)
      requires Valid()
      modifies this`here, this`complete
      ensures Valid() && Now() == After(|buffer|, old(Now()), size)
      ensures pointer == if old(here) + size <= |buffer| then Some(old(here)) else None
    {
      var available := CheckAvailable(size);
      if available {
        pointer := Some(here);
        here := here + size;
      } else {
        pointer := None;
      }
    }

    method Skip(size: u64)
      requires Valid()
      modifies this`here, this`complete
      ensures Valid() && Now() == After(|buffer|, old(Now()), size)
    {
      var available := CheckAvailable(size);
      if available {
        here := here + size;
      }
    }
  }

  lemma {:induction false} NoBytes(n: nat)
    ensures BigEndian([]) % Power(n) == 0 && LittleEndian([]) % Power(n) == 0
  {
    hide Power;
    RemainderIs(0, Power(n), 0, 0);
  }

  lemma {:induction false} BigEndianStep(bytes: seq<u8>, i: nat, n: nat)
    requires i < |bytes|
    ensures BigEndian(bytes[..i + 1]) % Power(n) == (BigEndian(bytes[..i]) % Power(n) * 256 + bytes[i]) % Power(n)
  {
    hide Power, BigEndian;
    BigEndianOfMore(bytes, i);
    CutStep(BigEndian(bytes[..i]), bytes[i], Power(n));
  }

  lemma {:induction false} BigEndianOfMore(bytes: seq<u8>, i: nat)
    requires i < |bytes|
    ensures BigEndian(bytes[..i + 1]) == 256 * BigEndian(bytes[..i]) + bytes[i]
  {
    hide Power;
    assert bytes[..i + 1][..i] == bytes[..i];
  }

  lemma {:induction false} LittleEndianStep(bytes: seq<u8>, i: nat, n: nat)
    requires i < |bytes|
    ensures LittleEndian(bytes[i..]) % Power(n) == (LittleEndian(bytes[i + 1..]) % Power(n) * 256 + bytes[i]) % Power(n)
  {
    assert bytes[i..][1..] == bytes[i + 1..];
    CutStep(LittleEndian(bytes[i + 1..]), bytes[i], Power(n));
  }

  lemma {:induction false} Distribute(m: nat, q: nat, p: nat)
    ensures m * (256 * q + p) == 256 * (m * q) + m * p
  {
  }

  /** Cutting to the target at each step or at the end is the same. */
  lemma {:induction false} CutStep(v: nat, b: u8, m: nat)
    requires m > 0
    ensures (256 * v + b) % m == (v % m * 256 + b) % m
  {
    var x := v % m * 256 + b;
    var q, p := v / m, x / m;
    Distribute(m, q, p);
    QuotientAndRemainder(v, m);
    QuotientAndRemainder(x, m);
    RemainderIs(256 * v + b, m, 256 * q + p, x % m);
  }

  lemma {:induction false} QuotientAndRemainder(v: nat, m: nat)
    requires m > 0
    ensures v == m * (v / m) + v % m && 0 <= v / m && 0 <= v % m < m
  {
  }
}
