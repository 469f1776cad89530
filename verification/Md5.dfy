/** MD5 as section 3 of RFC 1321 defines it: padding, length, and the compression function
    folded over the blocks. The compression function itself is in Md5Transform. */
module Md5 {
  import opened MachineWords
  import opened Md5Transform

  const INITIAL_STATE: State := State(0x67452301, 0xefcdab89, 0x98badcfe, 0x10325476)

  function Zeros(n: nat): (s: seq<u8>)
    ensures |s| == n && forall i :: 0 <= i < n ==> s[i] == 0
  {
    seq(n, _ => 0)
  }

  /** The eight bytes of the length in bits, low word first. */
  function LengthBytes(bytes: nat): (s: seq<u8>)
    ensures |s| == 8
  {
    var bits := 8 * bytes % TWO_64;
    WordBytes(bits % TWO_32) + WordBytes(bits / TWO_32)
  }

  /** They are the digits of the length in bits, the lowest first. */
  lemma {:induction false} LengthIsLowFirst(bytes: nat)
    ensures var s: seq<int> := LengthBytes(bytes);
            8 * bytes % TWO_64
            == s[0] + 0x100 * s[1] + 0x1_0000 * s[2] + 0x100_0000 * s[3]
               + 0x1_0000_0000 * (s[4] + 0x100 * s[5] + 0x1_0000 * s[6] + 0x100_0000 * s[7])
  {
    var bits := 8 * bytes % TWO_64;
    WordDigits(bits % TWO_32);
    WordDigits(bits / TWO_32);
    assert bits == bits % TWO_32 + TWO_32 * (bits / TWO_32);
  }

  /** How many zero bytes bring the length, with the 0x80 byte, to 56 modulo 64. */
  function ZeroCount(length: nat): (k: nat)
    ensures k < 64 && (length + 1 + k + 8) % 64 == 0
  {
    if length % 64 < 56 then 55 - length % 64 else 119 - length % 64
  }

  /** The message with its padding and length appended (sections 3.1 and 3.2). */
  function Padded(m: seq<u8>): (p: seq<u8>)
    ensures |p| == |m| + 1 + ZeroCount(|m|) + 8 && |p| % 64 == 0
  {
    m + [0x80] + Zeros(ZeroCount(|m|)) + LengthBytes(|m|)
  }

  /** The state after the first n blocks of m (sections 3.3 and 3.4). */
  function Chain(m: seq<u8>, n: nat): (s: State)
    requires 64 * n <= |m|
  {
    if n == 0 then INITIAL_STATE else Compress(Chain(m, n - 1), m[64 * (n - 1)..64 * n])
  }

  /** The digest of a message (section 3.5). */
  function Digest(m: seq<u8>): (d: seq<u8>)
    ensures |d| == 16
  {
    StateBytes(Chain(Padded(m), |Padded(m)| / 64))
  }

  /** What comes after n blocks does not change the state after them. */
  lemma {:induction false} ChainOfPrefix(m: seq<u8>, more: seq<u8>, n: nat)
    requires 64 * n <= |m|
    ensures Chain(m + more, n) == Chain(m, n)
  {
    hide Compress;
    if n > 0 {
      ChainOfPrefix(m, more, n - 1);
      assert (m + more)[64 * (n - 1)..64 * n] == m[64 * (n - 1)..64 * n];
    }
  }

  /** The two-word counter holds the number of bits modulo 2^64. */
  predicate Counts(low: u32, high: u32, bytes: nat) {
    low + TWO_32 * high == 8 * bytes % TWO_64
  }

  lemma {:induction false} Split64(n: nat, quotient: nat, remainder: nat)
    requires n == 64 * quotient + remainder && remainder < 64
    ensures n / 64 == quotient && n % 64 == remainder
  {
  }

  lemma {:induction false} SplitWord(n: nat, quotient: nat, remainder: nat)
    requires n == TWO_32 * quotient + remainder && remainder < TWO_32
    ensures n / TWO_32 == quotient && n % TWO_32 == remainder
  {
  }

  lemma {:induction false} SplitTwoWords(n: nat, quotient: nat, remainder: nat)
    requires n == TWO_64 * quotient + remainder && remainder < TWO_64
    ensures n / TWO_64 == quotient && n % TWO_64 == remainder
  {
  }

  /** The words after adding the length to them, as MD5Update computes them. */
  function LowAfter(low: u32, length: u32): u32 { (low + 8 * length % TWO_32) % TWO_32 }

  function HighAfter(low: u32, high: u32, length: u32): u32 {
    var carried := if LowAfter(low, length) < low then (high + 1) % TWO_32 else high;
    (carried + length / 0x2000_0000) % TWO_32
  }

  /** The low word loses c multiples of 2^32, and c is the carry into the high word. */
  lemma {:induction false} LowCarry(low: u32, length: u32) returns (c: nat)
    ensures c == if LowAfter(low, length) < low then 1 else 0
    ensures low + 8 * length == TWO_32 * (length / 0x2000_0000) + TWO_32 * c + LowAfter(low, length)
  {
    var q, r := length / 0x2000_0000, length % 0x2000_0000;
    SplitWord(8 * length, q, 8 * r);
    c := if low + 8 * r < TWO_32 then 0 else 1;
    SplitWord(low + 8 * r, c, low + 8 * r - TWO_32 * c);
  }

  lemma {:induction false} HighCarry(low: u32, high: u32, length: u32, c: nat) returns (k: nat)
    requires c == if LowAfter(low, length) < low then 1 else 0
    ensures high + c + length / 0x2000_0000 == TWO_32 * k + HighAfter(low, high, length)
  {
    hide LowAfter;
    var q := length / 0x2000_0000;
    var d := if high + c < TWO_32 then 0 else 1;
    var carried := high + c - TWO_32 * d;
    SplitWord(high + c, d, carried);
    var e := if carried + q < TWO_32 then 0 else 1;
    SplitWord(carried + q, e, carried + q - TWO_32 * e);
    k := d + e;
  }

  /** The two-word counter of MD5Update: both carries are taken into account. */
  lemma {:induction false} CounterAdds(low: u32, high: u32, bytes: nat, length: u32)
    requires Counts(low, high, bytes)
    ensures Counts(LowAfter(low, length), HighAfter(low, high, length), bytes + length)
  {
    hide LowAfter, HighAfter;
    var c := LowCarry(low, length);
    var k := HighCarry(low, high, length, c);
    var rounds := 8 * bytes / TWO_64;
    SplitTwoWords(8 * (bytes + length), rounds + k,
                  LowAfter(low, length) + TWO_32 * HighAfter(low, high, length));
  }

  /** The byte position within the current block, as the source takes it from the counter. */
  lemma {:induction false} PositionOfCounter(low: u32, high: u32, blocks: nat, rest: nat)
    requires rest < 64 && Counts(low, high, 64 * blocks + rest)
    ensures low / 8 % 64 == rest
  {
    var bytes := 64 * blocks + rest;
    var rounds := 8 * bytes / TWO_64;
    assert 8 * bytes == TWO_64 * rounds + (low + TWO_32 * high);
    var k := blocks - 0x80_0000_0000_0000 * rounds - 0x80_0000 * high;
    assert low == 8 * (64 * k + rest);
    Split64(64 * k + rest, k, rest);
  }

  /** The counter's words are the length bytes of the padding. */
  lemma {:induction false} CounterBytes(low: u32, high: u32, bytes: nat)
    requires Counts(low, high, bytes)
    ensures WordBytes(low) + WordBytes(high) == LengthBytes(bytes)
  {
    hide WordBytes;
    var bits := 8 * bytes % TWO_64;
    assert bits % TWO_32 == low && bits / TWO_32 == high;
  }

  /** One more block extends the chain. */
  lemma {:induction false} ChainStep(m: seq<u8>, n: nat, state: State, block: seq<u8>)
    requires 64 * n + 64 <= |m|
    requires state == Chain(m, n) && block == m[64 * n..64 * n + 64]
    ensures Chain(m, n + 1) == Compress(state, block)
  {
    hide Compress;
    assert 64 * (n + 1) == 64 * n + 64;
  }

  /** When the length fits, the last block is the tail, the 0x80 byte, zeros and the length. */
  lemma {:induction false} OneBlockOfPadding(m: seq<u8>, n: nat, tail: seq<u8>, block: seq<u8>)
    requires n == |m| / 64 && tail == m[64 * n..] && |tail| < 56
    requires block == tail + [0x80] + Zeros(55 - |tail|) + LengthBytes(|m|)
    ensures Digest(m) == StateBytes(Compress(Chain(m, n), block))
  {
    hide Compress, LengthBytes, Chain;
    var padding := [0x80] + Zeros(ZeroCount(|m|)) + LengthBytes(|m|);
    assert Padded(m) == m + padding;
    assert m == m[..64 * n] + tail;
    assert Padded(m)[64 * n..64 * n + 64] == block;
    ChainOfPrefix(m, padding, n);
    ChainStep(Padded(m), n, Chain(m, n), block);
  }

  /** Otherwise zeros end one block, and the last block is zeros and the length. */
  lemma {:induction false} TwoBlocksOfPadding(
    m: seq<u8>, n: nat, tail: seq<u8>, block: seq<u8>, last: seq<u8>)
    requires n == |m| / 64 && tail == m[64 * n..] && 56 <= |tail| < 64
    requires block == tail + [0x80] + Zeros(63 - |tail|) && last == Zeros(56) + LengthBytes(|m|)
    ensures Digest(m) == StateBytes(Compress(Compress(Chain(m, n), block), last))
  {
    hide Compress, LengthBytes, Chain;
    var padding := [0x80] + Zeros(ZeroCount(|m|)) + LengthBytes(|m|);
    assert Padded(m) == m + padding;
    assert m == m[..64 * n] + tail;
    assert Padded(m)[64 * n..64 * n + 64] == block;
    assert Padded(m)[64 * (n + 1)..64 * (n + 1) + 64] == last;
    ChainOfPrefix(m, padding, n);
    ChainStep(Padded(m), n, Chain(m, n), block);
    ChainStep(Padded(m), n + 1, Compress(Chain(m, n), block), last);
  }

  /** What a context with this state and these bytes in its buffer has taken in: the state follows
      the whole blocks, and the buffer starts with what is left of a block. */
  ghost predicate Holds(state: State, input: seq<u8>, seen: seq<u8>) {
    && |input| == 64
    && state == Chain(seen, |seen| / 64)
    && input[..|seen| % 64] == seen[64 * (|seen| / 64)..]
  }

  lemma {:induction false} HoldsBlocks(state: State, input: seq<u8>, seen: seq<u8>) returns (blocks: nat, rest: nat)
    requires Holds(state, input, seen)
    ensures rest < 64 && |seen| == 64 * blocks + rest && blocks == |seen| / 64
    ensures state == Chain(seen, blocks) && input[..rest] == seen[64 * blocks..]
  {
    hide Chain;
    blocks, rest := |seen| / 64, |seen| % 64;
  }

  lemma {:induction false} NothingHolds(input: seq<u8>)
    requires |input| == 64
    ensures Holds(INITIAL_STATE, input, [])
  {
    hide Compress;
  }

  lemma {:induction false} BlocksHold(state: State, input: seq<u8>, seen: seq<u8>, blocks: nat, rest: nat)
    requires |input| == 64 && rest < 64 && |seen| == 64 * blocks + rest
    requires state == Chain(seen, blocks) && input[..rest] == seen[64 * blocks..]
    ensures Holds(state, input, seen)
  {
    hide Chain;
    Split64(|seen|, blocks, rest);
  }

  lemma {:induction false} MiddleOf(seen: seq<u8>, data: seq<u8>, k: nat, n: nat)
    requires k <= n <= |data|
    ensures (seen + data)[|seen| + k..|seen| + n] == data[k..n]
  {
  }

  /** The part of a block that was waiting, with the bytes that follow it. */
  lemma {:induction false} TailOf(seen: seq<u8>, data: seq<u8>, k: nat, n: nat)
    requires k <= |seen| && n <= |data|
    ensures seen[k..] + data[..n] == (seen + data)[k..|seen| + n]
  {
    assert seen == seen[..k] + seen[k..];
  }
}
