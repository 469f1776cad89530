/** Exclusive or with a sign bit, as byte_cursor.h uses it to extend a sign: the sign bits are those of
    numbers of one to seven bytes. */
module SignBits {
  /** v ^ signBit, for v below twice the sign bit. */
  function Flip(v: int, signBit: int): int {
    if v < signBit then v + signBit else v - signBit
  }

  /** A bit that is not set is added. */
  lemma {:induction false} UnsetIsAdded(v: bv64)
    ensures v < 0x80 ==> (v ^ 0x80) as int == v as int + 0x80
    ensures v < 0x8000 ==> (v ^ 0x8000) as int == v as int + 0x8000
    ensures v < 0x80_0000 ==> (v ^ 0x80_0000) as int == v as int + 0x80_0000
    ensures v < 0x8000_0000 ==> (v ^ 0x8000_0000) as int == v as int + 0x8000_0000
    ensures v < 0x80_0000_0000 ==> (v ^ 0x80_0000_0000) as int == v as int + 0x80_0000_0000
    ensures v < 0x8000_0000_0000 ==> (v ^ 0x8000_0000_0000) as int == v as int + 0x8000_0000_0000
    ensures v < 0x80_0000_0000_0000 ==> (v ^ 0x80_0000_0000_0000) as int == v as int + 0x80_0000_0000_0000
  {
  }

  /** One that is set is taken away. */
  lemma {:induction false} SetIsDropped(v: bv64)
    ensures 0x80 <= v < 0x100 ==> (v ^ 0x80) as int == v as int - 0x80
    ensures 0x8000 <= v < 0x1_0000 ==> (v ^ 0x8000) as int == v as int - 0x8000
    ensures 0x80_0000 <= v < 0x100_0000 ==> (v ^ 0x80_0000) as int == v as int - 0x80_0000
    ensures 0x8000_0000 <= v < 0x1_0000_0000 ==> (v ^ 0x8000_0000) as int == v as int - 0x8000_0000
    ensures 0x80_0000_0000 <= v < 0x100_0000_0000 ==> (v ^ 0x80_0000_0000) as int == v as int - 0x80_0000_0000
    ensures 0x8000_0000_0000 <= v < 0x1_0000_0000_0000 ==> (v ^ 0x8000_0000_0000) as int == v as int - 0x8000_0000_0000
    ensures 0x80_0000_0000_0000 <= v < 0x100_0000_0000_0000 ==>
              (v ^ 0x80_0000_0000_0000) as int == v as int - 0x80_0000_0000_0000
  {
  }

  /** The value of a number with a bit set is as large. */
  lemma {:induction false} SetIsLarge(v: bv64)
    ensures 0x80 <= v ==> 0x80 <= v as int
    ensures 0x8000 <= v ==> 0x8000 <= v as int
    ensures 0x80_0000 <= v ==> 0x80_0000 <= v as int
    ensures 0x8000_0000 <= v ==> 0x8000_0000 <= v as int
    ensures 0x80_0000_0000 <= v ==> 0x80_0000_0000 <= v as int
    ensures 0x8000_0000_0000 <= v ==> 0x8000_0000_0000 <= v as int
    ensures 0x80_0000_0000_0000 <= v ==> 0x80_0000_0000_0000 <= v as int
  {
  }

  lemma {:induction false} HigherIsLarger(v: bv64)
    ensures 0x100 <= v ==> 0x100 <= v as int
    ensures 0x1_0000 <= v ==> 0x1_0000 <= v as int
    ensures 0x100_0000 <= v ==> 0x100_0000 <= v as int
    ensures 0x1_0000_0000 <= v ==> 0x1_0000_0000 <= v as int
    ensures 0x100_0000_0000 <= v ==> 0x100_0000_0000 <= v as int
    ensures 0x1_0000_0000_0000 <= v ==> 0x1_0000_0000_0000 <= v as int
    ensures 0x100_0000_0000_0000 <= v ==> 0x100_0000_0000_0000 <= v as int
  {
  }

  /** Setting all higher bits adds them, and the sum still fits in 64 bits. */
  lemma {:induction false} HigherBitsAreAdded(v: bv64)
    ensures v < 0x80 ==> (v ^ 0xFFFF_FFFF_FFFF_FF80) as int == v as int + 0xFFFF_FFFF_FFFF_FF80
    ensures v < 0x8000 ==> (v ^ 0xFFFF_FFFF_FFFF_8000) as int == v as int + 0xFFFF_FFFF_FFFF_8000
    ensures v < 0x80_0000 ==> (v ^ 0xFFFF_FFFF_FF80_0000) as int == v as int + 0xFFFF_FFFF_FF80_0000
    ensures v < 0x8000_0000 ==> (v ^ 0xFFFF_FFFF_8000_0000) as int == v as int + 0xFFFF_FFFF_8000_0000
    ensures v < 0x80_0000_0000 ==> (v ^ 0xFFFF_FF80_0000_0000) as int == v as int + 0xFFFF_FF80_0000_0000
    ensures v < 0x8000_0000_0000 ==> (v ^ 0xFFFF_8000_0000_0000) as int == v as int + 0xFFFF_8000_0000_0000
    ensures v < 0x80_0000_0000_0000 ==> (v ^ 0xFF80_0000_0000_0000) as int == v as int + 0xFF80_0000_0000_0000
  {
  }

  lemma {:induction false} UnsetIsSmall(v: bv64)
    ensures v < 0x80 ==> v as int < 0x80
    ensures v < 0x8000 ==> v as int < 0x8000
    ensures v < 0x80_0000 ==> v as int < 0x80_0000
    ensures v < 0x8000_0000 ==> v as int < 0x8000_0000
    ensures v < 0x80_0000_0000 ==> v as int < 0x80_0000_0000
    ensures v < 0x8000_0000_0000 ==> v as int < 0x8000_0000_0000
    ensures v < 0x80_0000_0000_0000 ==> v as int < 0x80_0000_0000_0000
  {
    HigherBitsAreAdded(v);
  }

  /** So exclusive or with the sign bit is Flip. */
  lemma {:induction false} FlipIsExclusiveOr(v: bv64)
    ensures v as int < 0x100 ==> (v ^ 0x80) as int == Flip(v as int, 0x80)
    ensures v as int < 0x1_0000 ==> (v ^ 0x8000) as int == Flip(v as int, 0x8000)
    ensures v as int < 0x100_0000 ==> (v ^ 0x80_0000) as int == Flip(v as int, 0x80_0000)
    ensures v as int < 0x1_0000_0000 ==> (v ^ 0x8000_0000) as int == Flip(v as int, 0x8000_0000)
    ensures v as int < 0x100_0000_0000 ==> (v ^ 0x80_0000_0000) as int == Flip(v as int, 0x80_0000_0000)
    ensures v as int < 0x1_0000_0000_0000 ==> (v ^ 0x8000_0000_0000) as int == Flip(v as int, 0x8000_0000_0000)
    ensures v as int < 0x100_0000_0000_0000 ==> (v ^ 0x80_0000_0000_0000) as int == Flip(v as int, 0x80_0000_0000_0000)
  {
    SetIsLarge(v);
    HigherIsLarger(v);
    UnsetIsAdded(v);
    SetIsDropped(v);
    UnsetIsSmall(v);
  }
}
