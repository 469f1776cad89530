/** MD5's compression function: the definition in section 3.4 of RFC 1321, and the unrolled
    MD5Transform of md5.cc, which computes it. */
module Md5Transform {
  import opened MachineWords

  datatype State = State(a: u32, b: u32, c: u32, d: u32)

  /** A word as four bytes, low byte first. */
  function WordBytes(w: u32): (s: seq<u8>)
    ensures |s| == 4
  {
    [w % 0x100, w / 0x100 % 0x100, w / 0x1_0000 % 0x100, w / 0x100_0000]
  }

  /** The four words of a state as the sixteen bytes of a digest (section 3.5). */
  function StateBytes(s: State): (r: seq<u8>)
    ensures |r| == 16
  {
    WordBytes(s.a) + WordBytes(s.b) + WordBytes(s.c) + WordBytes(s.d)
  }

  /** Word k of a block, whose bytes come low byte first. */
  function Word(block: seq<u8>, k: nat): (w: u32)
    requires |block| == 64 && k < 16
  {
    var b0: int, b1: int, b2: int, b3: int := block[4 * k], block[4 * k + 1], block[4 * k + 2], block[4 * k + 3];
    b0 + 0x100 * b1 + 0x1_0000 * b2 + 0x100_0000 * b3
  }

  lemma {:induction false} WordDigits(w: u32)
    ensures w == w % 0x100 + 0x100 * (w / 0x100 % 0x100) + 0x1_0000 * (w / 0x1_0000 % 0x100)
                 + 0x100_0000 * (w / 0x100_0000)
  {
    var b, c := w / 0x100, w / 0x1_0000;
    assert c == b / 0x100 && w / 0x100_0000 == c / 0x100;
  }

  /** Reading a word undoes writing its bytes. */
  lemma {:induction false} WordOfItsBytes(block: seq<u8>, k: nat, w: u32)
    requires |block| == 64 && k < 16
    requires block[4 * k..4 * k + 4] == WordBytes(w)
    ensures Word(block, k) == w
  {
    var part := block[4 * k..4 * k + 4];
    assert part[0] == block[4 * k] && part[1] == block[4 * k + 1];
    assert part[2] == block[4 * k + 2] && part[3] == block[4 * k + 3];
    WordDigits(w);
  }

  /** Addition modulo 2^32. */
  function Plus(a: u32, b: u32): u32 {
    if a + b < TWO_32 then a + b else a + b - TWO_32
  }

  // ----- the definition in section 3.4 of RFC 1321 -----

  // The four auxiliary functions, on bit vectors and then on words.

  function Choose(x: bv32, y: bv32, z: bv32): bv32 { (x & y) | (!x & z) }

  function ChooseByLast(x: bv32, y: bv32, z: bv32): bv32 { (x & z) | (y & !z) }

  function Parity(x: bv32, y: bv32, z: bv32): bv32 { x ^ y ^ z }

  function Fourth(x: bv32, y: bv32, z: bv32): bv32 { y ^ (x | !z) }

  function F(x: u32, y: u32, z: u32): u32 { Choose(x as bv32, y as bv32, z as bv32) as int }

  function G(x: u32, y: u32, z: u32): u32 { ChooseByLast(x as bv32, y as bv32, z as bv32) as int }

  function H(x: u32, y: u32, z: u32): u32 { Parity(x as bv32, y as bv32, z as bv32) as int }

  function I(x: u32, y: u32, z: u32): u32 { Fourth(x as bv32, y as bv32, z as bv32) as int }

  /** Rotation to the left by s bits. */
  function Rotate(w: u32, s: nat): u32
    requires 0 < s < 32
  {
    ((w as bv32 << s) | (w as bv32 >> (32 - s))) as int
  }

  /** The auxiliary function of step i. */
  function Mixed(i: nat, x: u32, y: u32, z: u32): u32 {
    if i < 16 then F(x, y, z) else if i < 32 then G(x, y, z) else if i < 48 then H(x, y, z) else I(x, y, z)
  }

  /** The rotation of step i. */
  function Shift(i: nat): (s: nat)
    ensures 0 < s < 32
  {
    var column := i % 4;
    if i < 16 then (match column case 0 => 7 case 1 => 12 case 2 => 17 case _ => 22)
    else if i < 32 then (match column case 0 => 5 case 1 => 9 case 2 => 14 case _ => 20)
    else if i < 48 then (match column case 0 => 4 case 1 => 11 case 2 => 16 case _ => 23)
    else (match column case 0 => 6 case 1 => 10 case 2 => 15 case _ => 21)
  }

  /** The word of the block that step i uses. */
  function Index(i: nat): (k: nat)
    ensures k < 16
  {
    if i < 16 then i else if i < 32 then (5 * i + 1) % 16 else if i < 48 then (3 * i + 5) % 16 else (7 * i) % 16
  }

  /** Element i of the table T: the integer part of 4294967296 times abs(sin(i + 1)), i + 1 in radians. */
  function T(i: nat): u32
    requires i < 64
  {
    if i < 16 then
      (match i
      case 0 => 0xd76aa478 case 1 => 0xe8c7b756 case 2 => 0x242070db case 3 => 0xc1bdceee
      case 4 => 0xf57c0faf case 5 => 0x4787c62a case 6 => 0xa8304613 case 7 => 0xfd469501
      case 8 => 0x698098d8 case 9 => 0x8b44f7af case 10 => 0xffff5bb1 case 11 => 0x895cd7be
      case 12 => 0x6b901122 case 13 => 0xfd987193 case 14 => 0xa679438e case _ => 0x49b40821)
    else if i < 32 then
      (match i
      case 16 => 0xf61e2562 case 17 => 0xc040b340 case 18 => 0x265e5a51 case 19 => 0xe9b6c7aa
      case 20 => 0xd62f105d case 21 => 0x02441453 case 22 => 0xd8a1e681 case 23 => 0xe7d3fbc8
      case 24 => 0x21e1cde6 case 25 => 0xc33707d6 case 26 => 0xf4d50d87 case 27 => 0x455a14ed
      case 28 => 0xa9e3e905 case 29 => 0xfcefa3f8 case 30 => 0x676f02d9 case _ => 0x8d2a4c8a)
    else if i < 48 then
      (match i
      case 32 => 0xfffa3942 case 33 => 0x8771f681 case 34 => 0x6d9d6122 case 35 => 0xfde5380c
      case 36 => 0xa4beea44 case 37 => 0x4bdecfa9 case 38 => 0xf6bb4b60 case 39 => 0xbebfbc70
      case 40 => 0x289b7ec6 case 41 => 0xeaa127fa case 42 => 0xd4ef3085 case 43 => 0x04881d05
      case 44 => 0xd9d4d039 case 45 => 0xe6db99e5 case 46 => 0x1fa27cf8 case _ => 0xc4ac5665)
    else
      (match i
      case 48 => 0xf4292244 case 49 => 0x432aff97 case 50 => 0xab9423a7 case 51 => 0xfc93a039
      case 52 => 0x655b59c3 case 53 => 0x8f0ccc92 case 54 => 0xffeff47d case 55 => 0x85845dd1
      case 56 => 0x6fa87e4f case 57 => 0xfe2ce6e0 case 58 => 0xa3014314 case 59 => 0x4e0811a1
      case 60 => 0xf7537e82 case 61 => 0xbd3af235 case 62 => 0x2ad7d2bb case _ => 0xeb86d391)
  }

  /** One step: the new value takes the place of the first word, and the words change roles. */
  function Step(s: State, block: seq<u8>, i: nat): State
    requires |block| == 64 && i < 64
  {
    var sum := Plus(Plus(Plus(s.a, Mixed(i, s.b, s.c, s.d)), Word(block, Index(i))), T(i));
    State(s.d, Plus(s.b, Rotate(sum, Shift(i))), s.b, s.c)
  }

  /** The state after the first n steps. */
  function Steps(s: State, block: seq<u8>, n: nat): State
    requires |block| == 64 && n <= 64
  {
    if n == 0 then s else Step(Steps(s, block, n - 1), block, n - 1)
  }

  lemma {:induction false} NoSteps(s: State, block: seq<u8>)
    requires |block| == 64
    ensures Steps(s, block, 0) == s
  {
    hide Step;
  }

  function Sum(s: State, t: State): State {
    State(Plus(s.a, t.a), Plus(s.b, t.b), Plus(s.c, t.c), Plus(s.d, t.d))
  }

  /** The state after one more block. */
  function Compress(s: State, block: seq<u8>): State
    requires |block| == 64
  {
    Sum(s, Steps(s, block, 64))
  }

  // ----- MD5Transform -----

  function ChooseFast(x: bv32, y: bv32, z: bv32): bv32 { z ^ (x & (y ^ z)) }

  lemma {:induction false} ChooseFastIsChoose(x: bv32, y: bv32, z: bv32)
    ensures ChooseFast(x, y, z) == Choose(x, y, z)
  {
    assert z ^ (x & (y ^ z)) == (x & y) | (!x & z);
  }

  lemma {:induction false} ChooseTurned(x: bv32, y: bv32, z: bv32)
    ensures Choose(z, x, y) == ChooseByLast(x, y, z)
  {
    assert (z & x) | (!z & y) == (x & z) | (y & !z);
  }

  function F1(x: u32, y: u32, z: u32): u32 { ChooseFast(x as bv32, y as bv32, z as bv32) as int }

  function F2(x: u32, y: u32, z: u32): u32 { F1(z, x, y) }

  /** The macro F1, which is optimized somewhat, is F; and F2, which is F1 turned, is G. */
  lemma {:induction false} CoreFunctionsAgree(x: u32, y: u32, z: u32)
    ensures F1(x, y, z) == F(x, y, z)
    ensures F2(x, y, z) == G(x, y, z)
  {
    hide Choose, ChooseFast, ChooseByLast;
    ChooseFastIsChoose(x as bv32, y as bv32, z as bv32);
    ChooseFastIsChoose(z as bv32, x as bv32, y as bv32);
    ChooseTurned(x as bv32, y as bv32, z as bv32);
  }

  /** The macro that step i of MD5Transform uses. */
  function Core(i: nat, x: u32, y: u32, z: u32): u32 {
    if i < 16 then F1(x, y, z) else if i < 32 then F2(x, y, z) else if i < 48 then H(x, y, z) else I(x, y, z)
  }

  /** The new value of w in the macro MD5STEP, where f is the auxiliary function's value. */
  function Md5Step(f: u32, w: u32, x: u32, data: u32, s: nat): u32
    requires 0 < s < 32
  {
    Plus(Rotate(Plus(w, Plus(f, data)), s), x)
  }

  /** The macro as step i of MD5Transform uses it. */
  function MacroStep(block: seq<u8>, i: nat, w: u32, x: u32, y: u32, z: u32): u32
    requires |block| == 64 && i < 64
  {
    Md5Step(Core(i, x, y, z), w, x, Plus(Word(block, Index(i)), T(i)), Shift(i))
  }

  /** The macro's step is step i of the definition. */
  lemma {:induction false} StepIsDefinition(s: State, block: seq<u8>, i: nat)
    requires |block| == 64 && i < 64
    ensures State(s.d, MacroStep(block, i, s.a, s.b, s.c, s.d), s.b, s.c) == Step(s, block, i)
  {
    hide Index, T, Shift, Word, Rotate, F, G, H, I, F1, F2;
    CoreFunctionsAgree(s.b, s.c, s.d);
    var f, x, t := Mixed(i, s.b, s.c, s.d), Word(block, Index(i)), T(i);
    assert Plus(s.a, Plus(f, Plus(x, t))) == Plus(Plus(Plus(s.a, f), x), t);
  }

  /** After four steps the four words are back in their roles. */
  lemma {:induction false} FourSteps(first: State, block: seq<u8>, i: nat)
    requires |block| == 64 && i + 4 <= 64
    ensures var s := Steps(first, block, i);
            var a := MacroStep(block, i, s.a, s.b, s.c, s.d);
            var d := MacroStep(block, i + 1, s.d, a, s.b, s.c);
            var c := MacroStep(block, i + 2, s.c, d, a, s.b);
            var b := MacroStep(block, i + 3, s.b, c, d, a);
            Steps(first, block, i + 4) == State(a, b, c, d)
  {
    hide MacroStep, Step;
    StepIsDefinition(Steps(first, block, i), block, i);
    StepIsDefinition(Steps(first, block, i + 1), block, i + 1);
    StepIsDefinition(Steps(first, block, i + 2), block, i + 2);
    StepIsDefinition(Steps(first, block, i + 3), block, i + 3);
  }

  /** Round 1 of MD5Transform. */
  method FirstRound(start: State, block: seq<u8>, ghost first: State) returns (end: State)
    requires |block| == 64 && start == Steps(first, block, 0)
    ensures end == Steps(first, block, 16)
  {
    hide F, G, H, I, F1, F2, Word, Md5Step, Steps, Plus;
    var a, b, c, d := start.a, start.b, start.c, start.d;
    a := Md5Step(F1(b, c, d), a, b, Plus(Word(block, 0), 0xd76aa478), 7);
    d := Md5Step(F1(a, b, c), d, a, Plus(Word(block, 1), 0xe8c7b756), 12);
    c := Md5Step(F1(d, a, b), c, d, Plus(Word(block, 2), 0x242070db), 17);
    b := Md5Step(F1(c, d, a), b, c, Plus(Word(block, 3), 0xc1bdceee), 22);
    assert State(a, b, c, d) == Steps(first, block, 4) by { FourSteps(first, block, 0); }
    a := Md5Step(F1(b, c, d), a, b, Plus(Word(block, 4), 0xf57c0faf), 7);
    d := Md5Step(F1(a, b, c), d, a, Plus(Word(block, 5), 0x4787c62a), 12);
    c := Md5Step(F1(d, a, b), c, d, Plus(Word(block, 6), 0xa8304613), 17);
    b := Md5Step(F1(c, d, a), b, c, Plus(Word(block, 7), 0xfd469501), 22);
    assert State(a, b, c, d) == Steps(first, block, 8) by { FourSteps(first, block, 4); }
    a := Md5Step(F1(b, c, d), a, b, Plus(Word(block, 8), 0x698098d8), 7);
    d := Md5Step(F1(a, b, c), d, a, Plus(Word(block, 9), 0x8b44f7af), 12);
    c := Md5Step(F1(d, a, b), c, d, Plus(Word(block, 10), 0xffff5bb1), 17);
    b := Md5Step(F1(c, d, a), b, c, Plus(Word(block, 11), 0x895cd7be), 22);
    assert State(a, b, c, d) == Steps(first, block, 12) by { FourSteps(first, block, 8); }
    a := Md5Step(F1(b, c, d), a, b, Plus(Word(block, 12), 0x6b901122), 7);
    d := Md5Step(F1(a, b, c), d, a, Plus(Word(block, 13), 0xfd987193), 12);
    c := Md5Step(F1(d, a, b), c, d, Plus(Word(block, 14), 0xa679438e), 17);
    b := Md5Step(F1(c, d, a), b, c, Plus(Word(block, 15), 0x49b40821), 22);
    assert State(a, b, c, d) == Steps(first, block, 16) by { FourSteps(first, block, 12); }
    end := State(a, b, c, d);
  }

  /** The word, the constant and the rotation of each step of round 2. */
  lemma {:induction false} SecondTable()
    ensures Index(16) == 1 && T(16) == 0xf61e2562 && Shift(16) == 5
    ensures Index(17) == 6 && T(17) == 0xc040b340 && Shift(17) == 9
    ensures Index(18) == 11 && T(18) == 0x265e5a51 && Shift(18) == 14
    ensures Index(19) == 0 && T(19) == 0xe9b6c7aa && Shift(19) == 20
    ensures Index(20) == 5 && T(20) == 0xd62f105d && Shift(20) == 5
    ensures Index(21) == 10 && T(21) == 0x02441453 && Shift(21) == 9
    ensures Index(22) == 15 && T(22) == 0xd8a1e681 && Shift(22) == 14
    ensures Index(23) == 4 && T(23) == 0xe7d3fbc8 && Shift(23) == 20
    ensures Index(24) == 9 && T(24) == 0x21e1cde6 && Shift(24) == 5
    ensures Index(25) == 14 && T(25) == 0xc33707d6 && Shift(25) == 9
    ensures Index(26) == 3 && T(26) == 0xf4d50d87 && Shift(26) == 14
    ensures Index(27) == 8 && T(27) == 0x455a14ed && Shift(27) == 20
    ensures Index(28) == 13 && T(28) == 0xa9e3e905 && Shift(28) == 5
    ensures Index(29) == 2 && T(29) == 0xfcefa3f8 && Shift(29) == 9
    ensures Index(30) == 7 && T(30) == 0x676f02d9 && Shift(30) == 14
    ensures Index(31) == 12 && T(31) == 0x8d2a4c8a && Shift(31) == 20
  {
  }

  /** Round 2 of MD5Transform. */
  method SecondRound(start: State, block: seq<u8>, ghost first: State) returns (end: State)
    requires |block| == 64 && start == Steps(first, block, 16)
    ensures end == Steps(first, block, 32)
  {
    hide F, G, H, I, F1, F2, Word, Md5Step, Steps, Plus, Index, T, Shift;
    SecondTable();
    var a, b, c, d := start.a, start.b, start.c, start.d;
    a := Md5Step(F2(b, c, d), a, b, Plus(Word(block, 1), 0xf61e2562), 5);
    d := Md5Step(F2(a, b, c), d, a, Plus(Word(block, 6), 0xc040b340), 9);
    c := Md5Step(F2(d, a, b), c, d, Plus(Word(block, 11), 0x265e5a51), 14);
    b := Md5Step(F2(c, d, a), b, c, Plus(Word(block, 0), 0xe9b6c7aa), 20);
    assert State(a, b, c, d) == Steps(first, block, 20) by { FourSteps(first, block, 16); }
    a := Md5Step(F2(b, c, d), a, b, Plus(Word(block, 5), 0xd62f105d), 5);
    d := Md5Step(F2(a, b, c), d, a, Plus(Word(block, 10), 0x02441453), 9);
    c := Md5Step(F2(d, a, b), c, d, Plus(Word(block, 15), 0xd8a1e681), 14);
    b := Md5Step(F2(c, d, a), b, c, Plus(Word(block, 4), 0xe7d3fbc8), 20);
    assert State(a, b, c, d) == Steps(first, block, 24) by { FourSteps(first, block, 20); }
    a := Md5Step(F2(b, c, d), a, b, Plus(Word(block, 9), 0x21e1cde6), 5);
    d := Md5Step(F2(a, b, c), d, a, Plus(Word(block, 14), 0xc33707d6), 9);
    c := Md5Step(F2(d, a, b), c, d, Plus(Word(block, 3), 0xf4d50d87), 14);
    b := Md5Step(F2(c, d, a), b, c, Plus(Word(block, 8), 0x455a14ed), 20);
    assert State(a, b, c, d) == Steps(first, block, 28) by { FourSteps(first, block, 24); }
    a := Md5Step(F2(b, c, d), a, b, Plus(Word(block, 13), 0xa9e3e905), 5);
    d := Md5Step(F2(a, b, c), d, a, Plus(Word(block, 2), 0xfcefa3f8), 9);
    c := Md5Step(F2(d, a, b), c, d, Plus(Word(block, 7), 0x676f02d9), 14);
    b := Md5Step(F2(c, d, a), b, c, Plus(Word(block, 12), 0x8d2a4c8a), 20);
    assert State(a, b, c, d) == Steps(first, block, 32) by { FourSteps(first, block, 28); }
    end := State(a, b, c, d);
  }

  /** The word, the constant and the rotation of each step of round 3. */
  lemma {:induction false} ThirdTable()
    ensures Index(32) == 5 && T(32) == 0xfffa3942 && Shift(32) == 4
    ensures Index(33) == 8 && T(33) == 0x8771f681 && Shift(33) == 11
    ensures Index(34) == 11 && T(34) == 0x6d9d6122 && Shift(34) == 16
    ensures Index(35) == 14 && T(35) == 0xfde5380c && Shift(35) == 23
    ensures Index(36) == 1 && T(36) == 0xa4beea44 && Shift(36) == 4
    ensures Index(37) == 4 && T(37) == 0x4bdecfa9 && Shift(37) == 11
    ensures Index(38) == 7 && T(38) == 0xf6bb4b60 && Shift(38) == 16
    ensures Index(39) == 10 && T(39) == 0xbebfbc70 && Shift(39) == 23
    ensures Index(40) == 13 && T(40) == 0x289b7ec6 && Shift(40) == 4
    ensures Index(41) == 0 && T(41) == 0xeaa127fa && Shift(41) == 11
    ensures Index(42) == 3 && T(42) == 0xd4ef3085 && Shift(42) == 16
    ensures Index(43) == 6 && T(43) == 0x04881d05 && Shift(43) == 23
    ensures Index(44) == 9 && T(44) == 0xd9d4d039 && Shift(44) == 4
    ensures Index(45) == 12 && T(45) == 0xe6db99e5 && Shift(45) == 11
    ensures Index(46) == 15 && T(46) == 0x1fa27cf8 && Shift(46) == 16
    ensures Index(47) == 2 && T(47) == 0xc4ac5665 && Shift(47) == 23
  {
  }

  /** Round 3 of MD5Transform. */
  method ThirdRound(start: State, block: seq<u8>, ghost first: State) returns (end: State)
    requires |block| == 64 && start == Steps(first, block, 32)
    ensures end == Steps(first, block, 48)
  {
    hide F, G, H, I, F1, F2, Word, Md5Step, Steps, Plus, Index, T, Shift;
    ThirdTable();
    var a, b, c, d := start.a, start.b, start.c, start.d;
    a := Md5Step(H(b, c, d), a, b, Plus(Word(block, 5), 0xfffa3942), 4);
    d := Md5Step(H(a, b, c), d, a, Plus(Word(block, 8), 0x8771f681), 11);
    c := Md5Step(H(d, a, b), c, d, Plus(Word(block, 11), 0x6d9d6122), 16);
    b := Md5Step(H(c, d, a), b, c, Plus(Word(block, 14), 0xfde5380c), 23);
    assert State(a, b, c, d) == Steps(first, block, 36) by { FourSteps(first, block, 32); }
    a := Md5Step(H(b, c, d), a, b, Plus(Word(block, 1), 0xa4beea44), 4);
    d := Md5Step(H(a, b, c), d, a, Plus(Word(block, 4), 0x4bdecfa9), 11);
    c := Md5Step(H(d, a, b), c, d, Plus(Word(block, 7), 0xf6bb4b60), 16);
    b := Md5Step(H(c, d, a), b, c, Plus(Word(block, 10), 0xbebfbc70), 23);
    assert State(a, b, c, d) == Steps(first, block, 40) by { FourSteps(first, block, 36); }
    a := Md5Step(H(b, c, d), a, b, Plus(Word(block, 13), 0x289b7ec6), 4);
    d := Md5Step(H(a, b, c), d, a, Plus(Word(block, 0), 0xeaa127fa), 11);
    c := Md5Step(H(d, a, b), c, d, Plus(Word(block, 3), 0xd4ef3085), 16);
    b := Md5Step(H(c, d, a), b, c, Plus(Word(block, 6), 0x04881d05), 23);
    assert State(a, b, c, d) == Steps(first, block, 44) by { FourSteps(first, block, 40); }
    a := Md5Step(H(b, c, d), a, b, Plus(Word(block, 9), 0xd9d4d039), 4);
    d := Md5Step(H(a, b, c), d, a, Plus(Word(block, 12), 0xe6db99e5), 11);
    c := Md5Step(H(d, a, b), c, d, Plus(Word(block, 15), 0x1fa27cf8), 16);
    b := Md5Step(H(c, d, a), b, c, Plus(Word(block, 2), 0xc4ac5665), 23);
    assert State(a, b, c, d) == Steps(first, block, 48) by { FourSteps(first, block, 44); }
    end := State(a, b, c, d);
  }

  /** The word, the constant and the rotation of each step of round 4. */
  lemma {:induction false} FourthTable()
    ensures Index(48) == 0 && T(48) == 0xf4292244 && Shift(48) == 6
    ensures Index(49) == 7 && T(49) == 0x432aff97 && Shift(49) == 10
    ensures Index(50) == 14 && T(50) == 0xab9423a7 && Shift(50) == 15
    ensures Index(51) == 5 && T(51) == 0xfc93a039 && Shift(51) == 21
    ensures Index(52) == 12 && T(52) == 0x655b59c3 && Shift(52) == 6
    ensures Index(53) == 3 && T(53) == 0x8f0ccc92 && Shift(53) == 10
    ensures Index(54) == 10 && T(54) == 0xffeff47d && Shift(54) == 15
    ensures Index(55) == 1 && T(55) == 0x85845dd1 && Shift(55) == 21
    ensures Index(56) == 8 && T(56) == 0x6fa87e4f && Shift(56) == 6
    ensures Index(57) == 15 && T(57) == 0xfe2ce6e0 && Shift(57) == 10
    ensures Index(58) == 6 && T(58) == 0xa3014314 && Shift(58) == 15
    ensures Index(59) == 13 && T(59) == 0x4e0811a1 && Shift(59) == 21
    ensures Index(60) == 4 && T(60) == 0xf7537e82 && Shift(60) == 6
    ensures Index(61) == 11 && T(61) == 0xbd3af235 && Shift(61) == 10
    ensures Index(62) == 2 && T(62) == 0x2ad7d2bb && Shift(62) == 15
    ensures Index(63) == 9 && T(63) == 0xeb86d391 && Shift(63) == 21
  {
  }

  /** Round 4 of MD5Transform. */
  method FourthRound(start: State, block: seq<u8>, ghost first: State) returns (end: State)
    requires |block| == 64 && start == Steps(first, block, 48)
    ensures end == Steps(first, block, 64)
  {
    hide F, G, H, I, F1, F2, Word, Md5Step, Steps, Plus, Index, T, Shift;
    FourthTable();
    var a, b, c, d := start.a, start.b, start.c, start.d;
    a := Md5Step(I(b, c, d), a, b, Plus(Word(block, 0), 0xf4292244), 6);
    d := Md5Step(I(a, b, c), d, a, Plus(Word(block, 7), 0x432aff97), 10);
    c := Md5Step(I(d, a, b), c, d, Plus(Word(block, 14), 0xab9423a7), 15);
    b := Md5Step(I(c, d, a), b, c, Plus(Word(block, 5), 0xfc93a039), 21);
    assert State(a, b, c, d) == Steps(first, block, 52) by { FourSteps(first, block, 48); }
    a := Md5Step(I(b, c, d), a, b, Plus(Word(block, 12), 0x655b59c3), 6);
    d := Md5Step(I(a, b, c), d, a, Plus(Word(block, 3), 0x8f0ccc92), 10);
    c := Md5Step(I(d, a, b), c, d, Plus(Word(block, 10), 0xffeff47d), 15);
    b := Md5Step(I(c, d, a), b, c, Plus(Word(block, 1), 0x85845dd1), 21);
    assert State(a, b, c, d) == Steps(first, block, 56) by { FourSteps(first, block, 52); }
    a := Md5Step(I(b, c, d), a, b, Plus(Word(block, 8), 0x6fa87e4f), 6);
    d := Md5Step(I(a, b, c), d, a, Plus(Word(block, 15), 0xfe2ce6e0), 10);
    c := Md5Step(I(d, a, b), c, d, Plus(Word(block, 6), 0xa3014314), 15);
    b := Md5Step(I(c, d, a), b, c, Plus(Word(block, 13), 0x4e0811a1), 21);
    assert State(a, b, c, d) == Steps(first, block, 60) by { FourSteps(first, block, 56); }
    a := Md5Step(I(b, c, d), a, b, Plus(Word(block, 4), 0xf7537e82), 6);
    d := Md5Step(I(a, b, c), d, a, Plus(Word(block, 11), 0xbd3af235), 10);
    c := Md5Step(I(d, a, b), c, d, Plus(Word(block, 2), 0x2ad7d2bb), 15);
    b := Md5Step(I(c, d, a), b, c, Plus(Word(block, 9), 0xeb86d391), 21);
    assert State(a, b, c, d) == Steps(first, block, 64) by { FourSteps(first, block, 60); }
    end := State(a, b, c, d);
  }

  function StateOf(buf: array<u32>): State
    requires buf.Length == 4
    reads buf
  {
    State(buf[0], buf[1], buf[2], buf[3])
  }

  /** MD5Transform: replaces the state by the state after one more block. */
  method MD5Transform(buf: array<u32>, block: array<u8>)
    requires buf.Length == 4 && block.Length == 64
    modifies buf
    ensures StateOf(buf) == Compress(old(StateOf(buf)), old(block[..]))
  {
    hide Steps, Plus;
    var start, x := StateOf(buf), block[..];
    NoSteps(start, x);
    var s := FirstRound(start, x, start);
    s := SecondRound(s, x, start);
    s := ThirdRound(s, x, start);
    s := FourthRound(s, x, start);
    buf[0] := Plus(buf[0], s.a);
    buf[1] := Plus(buf[1], s.b);
    buf[2] := Plus(buf[2], s.c);
    buf[3] := Plus(buf[3], s.d);
  }
}
