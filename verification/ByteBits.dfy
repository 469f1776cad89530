/** The two bit operations with which convert_UTF.c builds UTF-8 bytes, as arithmetic: each
    function is justified by the lemma after it. */
module ByteBits {
  import opened MachineWords

  /** The low byte of (ch | 0x80) & 0xBF. */
  function ContinuationByte(ch: u32): (b: u8) {
    0x80 + ch % 64
  }

  lemma {:induction false} ContinuationBits(low: bv8)
    ensures ((low | 0x80) & 0xBF) as int == ContinuationByte(low as int)
  {
  }

  /** It depends on the low byte of ch alone. */
  lemma {:induction false} OnlyTheLowByteCounts(ch: u32)
    ensures ContinuationByte(ch) == ContinuationByte(ch % 256)
  {
    var high, low := ch / 256, ch % 256;
    assert ch == 64 * (4 * high + low / 64) + low % 64;
  }

  /** The low byte of ch | firstByteMark[n], where ch is what is left for the first byte. */
  function FirstByte(ch: u8, n: nat): (b: u8)
    requires 1 <= n <= 4 && ch < if n == 1 then 0x80 else if n == 2 then 0x20 else if n == 3 then 0x10 else 0x08
  {
    ch + if n == 1 then 0x00 else if n == 2 then 0xC0 else if n == 3 then 0xE0 else 0xF0
  }

  lemma {:induction false} FirstByteBits(low: bv8)
    ensures low < 0x80 ==> (low | 0x00) as int == FirstByte(low as int, 1)
    ensures low < 0x20 ==> (low | 0xC0) as int == FirstByte(low as int, 2)
    ensures low < 0x10 ==> (low | 0xE0) as int == FirstByte(low as int, 3)
    ensures low < 0x08 ==> (low | 0xF0) as int == FirstByte(low as int, 4)
  {
  }
}
