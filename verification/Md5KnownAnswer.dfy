/** A known answer: the digest of "abc" that section A.5 of RFC 1321 lists. The steps of its one block
    are followed one by one. */
module Md5KnownAnswer {
  import opened MachineWords
  import opened Md5Transform
  import opened Md5

  /** The words of the block for "abc": the message, the 0x80 byte, zeros and the length in bits. */
  predicate IsAbc(block: seq<u8>) {
    && |block| == 64 && Word(block, 0) == 0x80636261 && Word(block, 14) == 24
    && forall k :: 0 < k < 16 && k != 14 ==> Word(block, k) == 0
  }

  lemma {:induction false} Advance(block: seq<u8>, n: nat, s: State, f: u32, sum: u32, rotated: u32, next: State)
    requires |block| == 64 && n < 64 && Steps(INITIAL_STATE, block, n) == s
    requires Mixed(n, s.b, s.c, s.d) == f && Plus(Plus(Plus(s.a, f), Word(block, Index(n))), T(n)) == sum
    requires Rotate(sum, Shift(n)) == rotated && next == State(s.d, Plus(s.b, rotated), s.b, s.c)
    ensures Steps(INITIAL_STATE, block, n + 1) == next
  {
    hide Mixed, Word, Index, T, Plus, Rotate, Shift;
  }

  lemma {:induction false} ValuesFrom0()
    ensures F(0xefcdab89, 0x98badcfe, 0x10325476) == 0x98badcfe && Rotate(0x57ce06d8, 7) == 0xe7036c2b
    ensures F(0xd6d117b4, 0xefcdab89, 0x98badcfe) == 0xceebcbca && Rotate(0xc7e5d796, 12) == 0x5d796c7e
    ensures F(0x344a8432, 0xd6d117b4, 0xefcdab89) == 0xdfc52fb9 && Rotate(0x9ca07d92, 17) == 0xfb253940
    ensures F(0x2f6fbd72, 0x344a8432, 0xd6d117b4) == 0xf4da86b6 && Rotate(0xa666012d, 22) == 0x4b699980
    ensures F(0x7ad956f2, 0x2f6fbd72, 0x344a8432) == 0x2e4b9472 && Rotate(0xfa98bbd5, 7) == 0x4c5deafd
    ensures F(0xc73741ef, 0x7ad956f2, 0x2f6fbd72) == 0x6a59fcf2 && Rotate(0xe62c474e, 12) == 0xc474ee62
    ensures F(0x8bac3051, 0xc73741ef, 0x7ad956f2) == 0xf37546e3 && Rotate(0xcb154a68, 17) == 0x94d1962a
    ensures F(0x207dc67b, 0x8bac3051, 0xc73741ef) == 0xc72e01d5 && Rotate(0x3f4dedc8, 22) == 0x720fd37b
  {
  }

  lemma {:induction false} StepsFrom0(block: seq<u8>)
    requires IsAbc(block) && Steps(INITIAL_STATE, block, 0) == State(0x67452301, 0xefcdab89, 0x98badcfe, 0x10325476)
    ensures Steps(INITIAL_STATE, block, 8) == State(0xc73741ef, 0x928d99f6, 0x207dc67b, 0x8bac3051)
  {
    hide Steps, Word, F, G, H, I, Rotate;
    ValuesFrom0();
    Advance(block, 0, State(0x67452301, 0xefcdab89, 0x98badcfe, 0x10325476), 0x98badcfe, 0x57ce06d8, 0xe7036c2b,
            State(0x10325476, 0xd6d117b4, 0xefcdab89, 0x98badcfe));
    Advance(block, 1, State(0x10325476, 0xd6d117b4, 0xefcdab89, 0x98badcfe), 0xceebcbca, 0xc7e5d796, 0x5d796c7e,
            State(0x98badcfe, 0x344a8432, 0xd6d117b4, 0xefcdab89));
    Advance(block, 2, State(0x98badcfe, 0x344a8432, 0xd6d117b4, 0xefcdab89), 0xdfc52fb9, 0x9ca07d92, 0xfb253940,
            State(0xefcdab89, 0x2f6fbd72, 0x344a8432, 0xd6d117b4));
    Advance(block, 3, State(0xefcdab89, 0x2f6fbd72, 0x344a8432, 0xd6d117b4), 0xf4da86b6, 0xa666012d, 0x4b699980,
            State(0xd6d117b4, 0x7ad956f2, 0x2f6fbd72, 0x344a8432));
    Advance(block, 4, State(0xd6d117b4, 0x7ad956f2, 0x2f6fbd72, 0x344a8432), 0x2e4b9472, 0xfa98bbd5, 0x4c5deafd,
            State(0x344a8432, 0xc73741ef, 0x7ad956f2, 0x2f6fbd72));
    Advance(block, 5, State(0x344a8432, 0xc73741ef, 0x7ad956f2, 0x2f6fbd72), 0x6a59fcf2, 0xe62c474e, 0xc474ee62,
            State(0x2f6fbd72, 0x8bac3051, 0xc73741ef, 0x7ad956f2));
    Advance(block, 6, State(0x2f6fbd72, 0x8bac3051, 0xc73741ef, 0x7ad956f2), 0xf37546e3, 0xcb154a68, 0x94d1962a,
            State(0x7ad956f2, 0x207dc67b, 0x8bac3051, 0xc73741ef));
    Advance(block, 7, State(0x7ad956f2, 0x207dc67b, 0x8bac3051, 0xc73741ef), 0xc72e01d5, 0x3f4dedc8, 0x720fd37b,
            State(0xc73741ef, 0x928d99f6, 0x207dc67b, 0x8bac3051));
  }

  lemma {:induction false} ValuesFrom8()
    ensures F(0x928d99f6, 0x207dc67b, 0x8bac3051) == 0x092da073 && Rotate(0x39e57b3a, 7) == 0xf2bd9d1c
    ensures F(0x854b3712, 0x928d99f6, 0x207dc67b) == 0xa03dd17b && Rotate(0xb72ef97b, 12) == 0xef97bb72
    ensures F(0x74e2f284, 0x854b3712, 0x928d99f6) == 0x864f3b72 && Rotate(0xa6cc5d9e, 17) == 0xbb3d4d98
    ensures F(0x3020401c, 0x74e2f284, 0x854b3712) == 0xb56b7706 && Rotate(0xd155e8ba, 22) == 0x2eb4557a
    ensures F(0x5ed49596, 0x3020401c, 0x74e2f284) == 0x30226214 && Rotate(0x20fdaa48, 7) == 0x7ed52410
    ensures F(0xdda9b9a6, 0x5ed49596, 0x3020401c) == 0x7c80d19e && Rotate(0xeefc35b5, 12) == 0xc35b5eef
    ensures F(0xa1051895, 0xdda9b9a6, 0x5ed49596) == 0xdfd19d86 && Rotate(0xb66b2148, 17) == 0x42916cd6
    ensures F(0xe396856b, 0xa1051895, 0xdda9b9a6) == 0xbd2d3885 && Rotate(0x65b5d63c, 22) == 0x8f196d75
  {
  }

  lemma {:induction false} StepsFrom8(block: seq<u8>)
    requires IsAbc(block) && Steps(INITIAL_STATE, block, 8) == State(0xc73741ef, 0x928d99f6, 0x207dc67b, 0x8bac3051)
    ensures Steps(INITIAL_STATE, block, 16) == State(0xdda9b9a6, 0x72aff2e0, 0xe396856b, 0xa1051895)
  {
    hide Steps, Word, F, G, H, I, Rotate;
    ValuesFrom8();
    Advance(block, 8, State(0xc73741ef, 0x928d99f6, 0x207dc67b, 0x8bac3051), 0x092da073, 0x39e57b3a, 0xf2bd9d1c,
            State(0x8bac3051, 0x854b3712, 0x928d99f6, 0x207dc67b));
    Advance(block, 9, State(0x8bac3051, 0x854b3712, 0x928d99f6, 0x207dc67b), 0xa03dd17b, 0xb72ef97b, 0xef97bb72,
            State(0x207dc67b, 0x74e2f284, 0x854b3712, 0x928d99f6));
    Advance(block, 10, State(0x207dc67b, 0x74e2f284, 0x854b3712, 0x928d99f6), 0x864f3b72, 0xa6cc5d9e, 0xbb3d4d98,
            State(0x928d99f6, 0x3020401c, 0x74e2f284, 0x854b3712));
    Advance(block, 11, State(0x928d99f6, 0x3020401c, 0x74e2f284, 0x854b3712), 0xb56b7706, 0xd155e8ba, 0x2eb4557a,
            State(0x854b3712, 0x5ed49596, 0x3020401c, 0x74e2f284));
    Advance(block, 12, State(0x854b3712, 0x5ed49596, 0x3020401c, 0x74e2f284), 0x30226214, 0x20fdaa48, 0x7ed52410,
            State(0x74e2f284, 0xdda9b9a6, 0x5ed49596, 0x3020401c));
    Advance(block, 13, State(0x74e2f284, 0xdda9b9a6, 0x5ed49596, 0x3020401c), 0x7c80d19e, 0xeefc35b5, 0xc35b5eef,
            State(0x3020401c, 0xa1051895, 0xdda9b9a6, 0x5ed49596));
    Advance(block, 14, State(0x3020401c, 0xa1051895, 0xdda9b9a6, 0x5ed49596), 0xdfd19d86, 0xb66b2148, 0x42916cd6,
            State(0x5ed49596, 0xe396856b, 0xa1051895, 0xdda9b9a6));
    Advance(block, 15, State(0x5ed49596, 0xe396856b, 0xa1051895, 0xdda9b9a6), 0xbd2d3885, 0x65b5d63c, 0x8f196d75,
            State(0xdda9b9a6, 0x72aff2e0, 0xe396856b, 0xa1051895));
  }

  lemma {:induction false} ValuesFrom16()
    ensures G(0x72aff2e0, 0xe396856b, 0xa1051895) == 0x629795ea && Rotate(0x365f74f2, 5) == 0xcbee9e46
    ensures G(0x3e9e9126, 0x72aff2e0, 0xe396856b) == 0x32bff3a2 && Rotate(0x9405bf77, 9) == 0x0b7eef28
    ensures G(0x4a1d804e, 0x3e9e9126, 0x72aff2e0) == 0x4e1d8146 && Rotate(0x58126102, 14) == 0x98409604
    ensures G(0xe25e1652, 0x4a1d804e, 0x3e9e9126) == 0x621f104a && Rotate(0x3ee92d35, 20) == 0xd353ee92
    ensures G(0xb5b204e4, 0xe25e1652, 0x4a1d804e) == 0xa0521654 && Rotate(0xb51fb7d7, 5) == 0xa3f6faf6
    ensures G(0x59a8ffda, 0xb5b204e4, 0xe25e1652) == 0x55a816f6 && Rotate(0xa209ab97, 9) == 0x13572f44
    ensures G(0x6d002f1e, 0x59a8ffda, 0xb5b204e4) == 0x6d08ff1e && Rotate(0x2808fbf1, 14) == 0x3efc4a02
    ensures G(0xabfc7920, 0x6d002f1e, 0x59a8ffda) == 0x2da87904 && Rotate(0xcb2e79b0, 20) == 0x9b0cb2e7
  {
  }

  lemma {:induction false} StepsFrom16(block: seq<u8>)
    requires IsAbc(block) && Steps(INITIAL_STATE, block, 16) == State(0xdda9b9a6, 0x72aff2e0, 0xe396856b, 0xa1051895)
    ensures Steps(INITIAL_STATE, block, 24) == State(0x59a8ffda, 0x47092c07, 0xabfc7920, 0x6d002f1e)
  {
    hide Steps, Word, F, G, H, I, Rotate, Index, T, Shift;
    ValuesFrom16();
    SecondTable();
    Advance(block, 16, State(0xdda9b9a6, 0x72aff2e0, 0xe396856b, 0xa1051895), 0x629795ea, 0x365f74f2, 0xcbee9e46,
            State(0xa1051895, 0x3e9e9126, 0x72aff2e0, 0xe396856b));
    Advance(block, 17, State(0xa1051895, 0x3e9e9126, 0x72aff2e0, 0xe396856b), 0x32bff3a2, 0x9405bf77, 0x0b7eef28,
            State(0xe396856b, 0x4a1d804e, 0x3e9e9126, 0x72aff2e0));
    Advance(block, 18, State(0xe396856b, 0x4a1d804e, 0x3e9e9126, 0x72aff2e0), 0x4e1d8146, 0x58126102, 0x98409604,
            State(0x72aff2e0, 0xe25e1652, 0x4a1d804e, 0x3e9e9126));
    Advance(block, 19, State(0x72aff2e0, 0xe25e1652, 0x4a1d804e, 0x3e9e9126), 0x621f104a, 0x3ee92d35, 0xd353ee92,
            State(0x3e9e9126, 0xb5b204e4, 0xe25e1652, 0x4a1d804e));
    Advance(block, 20, State(0x3e9e9126, 0xb5b204e4, 0xe25e1652, 0x4a1d804e), 0xa0521654, 0xb51fb7d7, 0xa3f6faf6,
            State(0x4a1d804e, 0x59a8ffda, 0xb5b204e4, 0xe25e1652));
    Advance(block, 21, State(0x4a1d804e, 0x59a8ffda, 0xb5b204e4, 0xe25e1652), 0x55a816f6, 0xa209ab97, 0x13572f44,
            State(0xe25e1652, 0x6d002f1e, 0x59a8ffda, 0xb5b204e4));
    Advance(block, 22, State(0xe25e1652, 0x6d002f1e, 0x59a8ffda, 0xb5b204e4), 0x6d08ff1e, 0x2808fbf1, 0x3efc4a02,
            State(0xb5b204e4, 0xabfc7920, 0x6d002f1e, 0x59a8ffda));
    Advance(block, 23, State(0xb5b204e4, 0xabfc7920, 0x6d002f1e, 0x59a8ffda), 0x2da87904, 0xcb2e79b0, 0x9b0cb2e7,
            State(0x59a8ffda, 0x47092c07, 0xabfc7920, 0x6d002f1e));
  }

  lemma {:induction false} ValuesFrom24()
    ensures G(0x47092c07, 0xabfc7920, 0x6d002f1e) == 0xc7fc7c26 && Rotate(0x438749e6, 5) == 0x70e93cc8
    ensures G(0xb7f268cf, 0x47092c07, 0xabfc7920) == 0xe7f16c07 && Rotate(0x1828a313, 9) == 0x51462630
    ensures G(0x09388eff, 0xb7f268cf, 0x47092c07) == 0xb1fa4ccf && Rotate(0x52cbd376, 14) == 0xf4dd94b2
    ensures G(0xfe1623b1, 0x09388eff, 0xb7f268cf) == 0xbe1aa6b1 && Rotate(0x4a7de7a5, 20) == 0x7a54a7de
    ensures G(0x786acb8f, 0xfe1623b1, 0x09388eff) == 0xfe2eab8f && Rotate(0x6004fd63, 5) == 0x009fac6c
    ensures G(0x790a77fb, 0x786acb8f, 0xfe1623b1) == 0x786aebbf && Rotate(0x7e931eb6, 9) == 0x263d6cfd
    ensures G(0x9f47e4f8, 0x790a77fb, 0x786acb8f) == 0x1942f4f8 && Rotate(0x7ec81b82, 14) == 0x06e09fb2
    ensures G(0xa62884aa, 0x9f47e4f8, 0x790a77fb) == 0xa64d84aa && Rotate(0xabe29cc3, 20) == 0xcc3abe29
  {
  }

  lemma {:induction false} StepsFrom24(block: seq<u8>)
    requires IsAbc(block) && Steps(INITIAL_STATE, block, 24) == State(0x59a8ffda, 0x47092c07, 0xabfc7920, 0x6d002f1e)
    ensures Steps(INITIAL_STATE, block, 32) == State(0x790a77fb, 0x726342d3, 0xa62884aa, 0x9f47e4f8)
  {
    hide Steps, Word, F, G, H, I, Rotate, Index, T, Shift;
    ValuesFrom24();
    SecondTable();
    Advance(block, 24, State(0x59a8ffda, 0x47092c07, 0xabfc7920, 0x6d002f1e), 0xc7fc7c26, 0x438749e6, 0x70e93cc8,
            State(0x6d002f1e, 0xb7f268cf, 0x47092c07, 0xabfc7920));
    Advance(block, 25, State(0x6d002f1e, 0xb7f268cf, 0x47092c07, 0xabfc7920), 0xe7f16c07, 0x1828a313, 0x51462630,
            State(0xabfc7920, 0x09388eff, 0xb7f268cf, 0x47092c07));
    Advance(block, 26, State(0xabfc7920, 0x09388eff, 0xb7f268cf, 0x47092c07), 0xb1fa4ccf, 0x52cbd376, 0xf4dd94b2,
            State(0x47092c07, 0xfe1623b1, 0x09388eff, 0xb7f268cf));
    Advance(block, 27, State(0x47092c07, 0xfe1623b1, 0x09388eff, 0xb7f268cf), 0xbe1aa6b1, 0x4a7de7a5, 0x7a54a7de,
            State(0xb7f268cf, 0x786acb8f, 0xfe1623b1, 0x09388eff));
    Advance(block, 28, State(0xb7f268cf, 0x786acb8f, 0xfe1623b1, 0x09388eff), 0xfe2eab8f, 0x6004fd63, 0x009fac6c,
            State(0x09388eff, 0x790a77fb, 0x786acb8f, 0xfe1623b1));
    Advance(block, 29, State(0x09388eff, 0x790a77fb, 0x786acb8f, 0xfe1623b1), 0x786aebbf, 0x7e931eb6, 0x263d6cfd,
            State(0xfe1623b1, 0x9f47e4f8, 0x790a77fb, 0x786acb8f));
    Advance(block, 30, State(0xfe1623b1, 0x9f47e4f8, 0x790a77fb, 0x786acb8f), 0x1942f4f8, 0x7ec81b82, 0x06e09fb2,
            State(0x786acb8f, 0xa62884aa, 0x9f47e4f8, 0x790a77fb));
    Advance(block, 31, State(0x786acb8f, 0xa62884aa, 0x9f47e4f8, 0x790a77fb), 0xa64d84aa, 0xabe29cc3, 0xcc3abe29,
            State(0x790a77fb, 0x726342d3, 0xa62884aa, 0x9f47e4f8));
  }

  lemma {:induction false} ValuesFrom32()
    ensures H(0x726342d3, 0xa62884aa, 0x9f47e4f8) == 0x4b0c2281 && Rotate(0xc410d3be, 4) == 0x410d3bec
    ensures H(0xb3707ebf, 0x726342d3, 0xa62884aa) == 0x673bb8c6 && Rotate(0x8df5943f, 11) == 0xaca1fc6f
    ensures H(0x60127b2e, 0xb3707ebf, 0x726342d3) == 0xa1014742 && Rotate(0xb4c72d0e, 16) == 0x2d0eb4c7
    ensures H(0x8d212ff5, 0x60127b2e, 0xb3707ebf) == 0x5e432a64 && Rotate(0xce8ba55b, 23) == 0xade745d2
    ensures H(0x3b0875c7, 0x8d212ff5, 0x60127b2e) == 0xd63b211c && Rotate(0x2e6a8a1f, 4) == 0xe6a8a1f2
    ensures H(0x21b117b9, 0x3b0875c7, 0x8d212ff5) == 0x97984d8b && Rotate(0x43899862, 11) == 0x4cc3121c
    ensures H(0x6e7429d5, 0x21b117b9, 0x3b0875c7) == 0x74cd4bab && Rotate(0xf8a9c700, 16) == 0xc700f8a9
    ensures H(0x3575227e, 0x6e7429d5, 0x21b117b9) == 0x7ab01c12 && Rotate(0x74784e49, 23) == 0x24ba3c27
  {
  }

  lemma {:induction false} StepsFrom32(block: seq<u8>)
    requires IsAbc(block) && Steps(INITIAL_STATE, block, 32) == State(0x790a77fb, 0x726342d3, 0xa62884aa, 0x9f47e4f8)
    ensures Steps(INITIAL_STATE, block, 40) == State(0x21b117b9, 0x5a2f5ea5, 0x3575227e, 0x6e7429d5)
  {
    hide Steps, Word, F, G, H, I, Rotate, Index, T, Shift;
    ValuesFrom32();
    ThirdTable();
    Advance(block, 32, State(0x790a77fb, 0x726342d3, 0xa62884aa, 0x9f47e4f8), 0x4b0c2281, 0xc410d3be, 0x410d3bec,
            State(0x9f47e4f8, 0xb3707ebf, 0x726342d3, 0xa62884aa));
    Advance(block, 33, State(0x9f47e4f8, 0xb3707ebf, 0x726342d3, 0xa62884aa), 0x673bb8c6, 0x8df5943f, 0xaca1fc6f,
            State(0xa62884aa, 0x60127b2e, 0xb3707ebf, 0x726342d3));
    Advance(block, 34, State(0xa62884aa, 0x60127b2e, 0xb3707ebf, 0x726342d3), 0xa1014742, 0xb4c72d0e, 0x2d0eb4c7,
            State(0x726342d3, 0x8d212ff5, 0x60127b2e, 0xb3707ebf));
    Advance(block, 35, State(0x726342d3, 0x8d212ff5, 0x60127b2e, 0xb3707ebf), 0x5e432a64, 0xce8ba55b, 0xade745d2,
            State(0xb3707ebf, 0x3b0875c7, 0x8d212ff5, 0x60127b2e));
    Advance(block, 36, State(0xb3707ebf, 0x3b0875c7, 0x8d212ff5, 0x60127b2e), 0xd63b211c, 0x2e6a8a1f, 0xe6a8a1f2,
            State(0x60127b2e, 0x21b117b9, 0x3b0875c7, 0x8d212ff5));
    Advance(block, 37, State(0x60127b2e, 0x21b117b9, 0x3b0875c7, 0x8d212ff5), 0x97984d8b, 0x43899862, 0x4cc3121c,
            State(0x8d212ff5, 0x6e7429d5, 0x21b117b9, 0x3b0875c7));
    Advance(block, 38, State(0x8d212ff5, 0x6e7429d5, 0x21b117b9, 0x3b0875c7), 0x74cd4bab, 0xf8a9c700, 0xc700f8a9,
            State(0x3b0875c7, 0x3575227e, 0x6e7429d5, 0x21b117b9));
    Advance(block, 39, State(0x3b0875c7, 0x3575227e, 0x6e7429d5, 0x21b117b9), 0x7ab01c12, 0x74784e49, 0x24ba3c27,
            State(0x21b117b9, 0x5a2f5ea5, 0x3575227e, 0x6e7429d5));
  }

  lemma {:induction false} ValuesFrom40()
    ensures H(0x5a2f5ea5, 0x3575227e, 0x6e7429d5) == 0x012e550e && Rotate(0x4b7aeb8d, 4) == 0xb7aeb8d4
    ensures H(0x11de1779, 0x5a2f5ea5, 0x3575227e) == 0x7e846ba2 && Rotate(0x57fd1fd2, 11) == 0xe8fe92bf
    ensures H(0xfadcaa38, 0x11de1779, 0x5a2f5ea5) == 0xb12de3e4 && Rotate(0xbb9236e7, 16) == 0x36e7bb92
    ensures H(0x31c465ca, 0xfadcaa38, 0x11de1779) == 0xdac6d88b && Rotate(0x397e5435, 23) == 0x1a9cbf2a
    ensures H(0x4c6124f4, 0x31c465ca, 0xfadcaa38) == 0x8779eb06 && Rotate(0x732cd2b8, 4) == 0x32cd2b87
    ensures H(0x7f2e507b, 0x4c6124f4, 0x31c465ca) == 0x028b1145 && Rotate(0xe4435562, 11) == 0x1aab1722
    ensures H(0x99d9679d, 0x7f2e507b, 0x4c6124f4) == 0xaa961312 && Rotate(0xfbfcf5d4, 16) == 0xf5d4fbfc
    ensures H(0x8fae6399, 0x99d9679d, 0x7f2e507b) == 0x6959547f && Rotate(0x7a66cfd8, 23) == 0xec3d3367
  {
  }

  lemma {:induction false} StepsFrom40(block: seq<u8>)
    requires IsAbc(block) && Steps(INITIAL_STATE, block, 40) == State(0x21b117b9, 0x5a2f5ea5, 0x3575227e, 0x6e7429d5)
    ensures Steps(INITIAL_STATE, block, 48) == State(0x7f2e507b, 0x7beb9700, 0x8fae6399, 0x99d9679d)
  {
    hide Steps, Word, F, G, H, I, Rotate, Index, T, Shift;
    ValuesFrom40();
    ThirdTable();
    Advance(block, 40, State(0x21b117b9, 0x5a2f5ea5, 0x3575227e, 0x6e7429d5), 0x012e550e, 0x4b7aeb8d, 0xb7aeb8d4,
            State(0x6e7429d5, 0x11de1779, 0x5a2f5ea5, 0x3575227e));
    Advance(block, 41, State(0x6e7429d5, 0x11de1779, 0x5a2f5ea5, 0x3575227e), 0x7e846ba2, 0x57fd1fd2, 0xe8fe92bf,
            State(0x3575227e, 0xfadcaa38, 0x11de1779, 0x5a2f5ea5));
    Advance(block, 42, State(0x3575227e, 0xfadcaa38, 0x11de1779, 0x5a2f5ea5), 0xb12de3e4, 0xbb9236e7, 0x36e7bb92,
            State(0x5a2f5ea5, 0x31c465ca, 0xfadcaa38, 0x11de1779));
    Advance(block, 43, State(0x5a2f5ea5, 0x31c465ca, 0xfadcaa38, 0x11de1779), 0xdac6d88b, 0x397e5435, 0x1a9cbf2a,
            State(0x11de1779, 0x4c6124f4, 0x31c465ca, 0xfadcaa38));
    Advance(block, 44, State(0x11de1779, 0x4c6124f4, 0x31c465ca, 0xfadcaa38), 0x8779eb06, 0x732cd2b8, 0x32cd2b87,
            State(0xfadcaa38, 0x7f2e507b, 0x4c6124f4, 0x31c465ca));
    Advance(block, 45, State(0xfadcaa38, 0x7f2e507b, 0x4c6124f4, 0x31c465ca), 0x028b1145, 0xe4435562, 0x1aab1722,
            State(0x31c465ca, 0x99d9679d, 0x7f2e507b, 0x4c6124f4));
    Advance(block, 46, State(0x31c465ca, 0x99d9679d, 0x7f2e507b, 0x4c6124f4), 0xaa961312, 0xfbfcf5d4, 0xf5d4fbfc,
            State(0x4c6124f4, 0x8fae6399, 0x99d9679d, 0x7f2e507b));
    Advance(block, 47, State(0x4c6124f4, 0x8fae6399, 0x99d9679d, 0x7f2e507b), 0x6959547f, 0x7a66cfd8, 0xec3d3367,
            State(0x7f2e507b, 0x7beb9700, 0x8fae6399, 0x99d9679d));
  }

  lemma {:induction false} ValuesFrom48()
    ensures I(0x7beb9700, 0x8fae6399, 0x99d9679d) == 0xf041fcfb && Rotate(0xe3fcd21b, 6) == 0xff3486f8
    ensures I(0x7b201df8, 0x7beb9700, 0x8fae6399) == 0x009a0afe && Rotate(0xdd9e7232, 10) == 0x79c8cb76
    ensures I(0xf4e8e96e, 0x7b201df8, 0x7beb9700) == 0x8fdcf407 && Rotate(0xcb1f7b5f, 15) == 0xbdafe58f
    ensures I(0xb298cefd, 0xf4e8e96e, 0x7b201df8) == 0x42370791 && Rotate(0xbab63eca, 21) == 0xd95756c7
    ensures I(0x8bf025c4, 0xb298cefd, 0xf4e8e96e) == 0x396ff928 && Rotate(0x19eb70e3, 6) == 0x7adc38c6
    ensures I(0x06cc5e8a, 0x8bf025c4, 0xb298cefd) == 0xc41f5a4e && Rotate(0x4815104e, 10) == 0x54413920
    ensures I(0x5b0d97aa, 0x06cc5e8a, 0x8bf025c4) == 0x79c38131 && Rotate(0x2c4c44ab, 15) == 0x22559626
    ensures I(0x7d632dd0, 0x5b0d97aa, 0x06cc5e8a) == 0xa67e3a5f && Rotate(0xb7f2bdf4, 21) == 0xbe96fe57
  {
  }

  lemma {:induction false} StepsFrom48(block: seq<u8>)
    requires IsAbc(block) && Steps(INITIAL_STATE, block, 48) == State(0x7f2e507b, 0x7beb9700, 0x8fae6399, 0x99d9679d)
    ensures Steps(INITIAL_STATE, block, 56) == State(0x06cc5e8a, 0x3bfa2c27, 0x7d632dd0, 0x5b0d97aa)
  {
    hide Steps, Word, F, G, H, I, Rotate, Index, T, Shift;
    ValuesFrom48();
    FourthTable();
    Advance(block, 48, State(0x7f2e507b, 0x7beb9700, 0x8fae6399, 0x99d9679d), 0xf041fcfb, 0xe3fcd21b, 0xff3486f8,
            State(0x99d9679d, 0x7b201df8, 0x7beb9700, 0x8fae6399));
    Advance(block, 49, State(0x99d9679d, 0x7b201df8, 0x7beb9700, 0x8fae6399), 0x009a0afe, 0xdd9e7232, 0x79c8cb76,
            State(0x8fae6399, 0xf4e8e96e, 0x7b201df8, 0x7beb9700));
    Advance(block, 50, State(0x8fae6399, 0xf4e8e96e, 0x7b201df8, 0x7beb9700), 0x8fdcf407, 0xcb1f7b5f, 0xbdafe58f,
            State(0x7beb9700, 0xb298cefd, 0xf4e8e96e, 0x7b201df8));
    Advance(block, 51, State(0x7beb9700, 0xb298cefd, 0xf4e8e96e, 0x7b201df8), 0x42370791, 0xbab63eca, 0xd95756c7,
            State(0x7b201df8, 0x8bf025c4, 0xb298cefd, 0xf4e8e96e));
    Advance(block, 52, State(0x7b201df8, 0x8bf025c4, 0xb298cefd, 0xf4e8e96e), 0x396ff928, 0x19eb70e3, 0x7adc38c6,
            State(0xf4e8e96e, 0x06cc5e8a, 0x8bf025c4, 0xb298cefd));
    Advance(block, 53, State(0xf4e8e96e, 0x06cc5e8a, 0x8bf025c4, 0xb298cefd), 0xc41f5a4e, 0x4815104e, 0x54413920,
            State(0xb298cefd, 0x5b0d97aa, 0x06cc5e8a, 0x8bf025c4));
    Advance(block, 54, State(0xb298cefd, 0x5b0d97aa, 0x06cc5e8a, 0x8bf025c4), 0x79c38131, 0x2c4c44ab, 0x22559626,
            State(0x8bf025c4, 0x7d632dd0, 0x5b0d97aa, 0x06cc5e8a));
    Advance(block, 55, State(0x8bf025c4, 0x7d632dd0, 0x5b0d97aa, 0x06cc5e8a), 0xa67e3a5f, 0xb7f2bdf4, 0xbe96fe57,
            State(0x06cc5e8a, 0x3bfa2c27, 0x7d632dd0, 0x5b0d97aa));
  }

  lemma {:induction false} ValuesFrom56()
    ensures I(0x3bfa2c27, 0x7d632dd0, 0x5b0d97aa) == 0xc29941a7 && Rotate(0x390e1e80, 6) == 0x4387a00e
    ensures I(0x7f81cc35, 0x3bfa2c27, 0x7d632dd0) == 0xc467f218 && Rotate(0x1da270a2, 10) == 0x89c28876
    ensures I(0x094454ab, 0x7f81cc35, 0x3bfa2c27) == 0xb2c41bce && Rotate(0xd3288cb2, 15) == 0x46596994
    ensures I(0x4f9dbe3f, 0x094454ab, 0x7f81cc35) == 0xc6bbeb54 && Rotate(0x50be291c, 21) == 0x238a17c5
    ensures I(0x7327d604, 0x4f9dbe3f, 0x094454ab) == 0xb822416b && Rotate(0x2ef78c22, 6) == 0xbde3088b
    ensures I(0x310ade8f, 0x7327d604, 0x4f9dbe3f) == 0xc24d09cb && Rotate(0x88cc50ab, 10) == 0x3142ae23
    ensures I(0x624d8cb2, 0x310ade8f, 0x7327d604) == 0xdfd77374 && Rotate(0x5a4d046e, 15) == 0x82372d26
    ensures I(0xe484b9d8, 0x624d8cb2, 0x310ade8f) == 0x8cb8354a && Rotate(0xeb66dedf, 21) == 0xdbfd6cdb
  {
  }

  lemma {:induction false} StepsFrom56(block: seq<u8>)
    requires IsAbc(block) && Steps(INITIAL_STATE, block, 56) == State(0x06cc5e8a, 0x3bfa2c27, 0x7d632dd0, 0x5b0d97aa)
    ensures Steps(INITIAL_STATE, block, 64) == State(0x310ade8f, 0xc08226b3, 0xe484b9d8, 0x624d8cb2)
  {
    hide Steps, Word, F, G, H, I, Rotate, Index, T, Shift;
    ValuesFrom56();
    FourthTable();
    Advance(block, 56, State(0x06cc5e8a, 0x3bfa2c27, 0x7d632dd0, 0x5b0d97aa), 0xc29941a7, 0x390e1e80, 0x4387a00e,
            State(0x5b0d97aa, 0x7f81cc35, 0x3bfa2c27, 0x7d632dd0));
    Advance(block, 57, State(0x5b0d97aa, 0x7f81cc35, 0x3bfa2c27, 0x7d632dd0), 0xc467f218, 0x1da270a2, 0x89c28876,
            State(0x7d632dd0, 0x094454ab, 0x7f81cc35, 0x3bfa2c27));
    Advance(block, 58, State(0x7d632dd0, 0x094454ab, 0x7f81cc35, 0x3bfa2c27), 0xb2c41bce, 0xd3288cb2, 0x46596994,
            State(0x3bfa2c27, 0x4f9dbe3f, 0x094454ab, 0x7f81cc35));
    Advance(block, 59, State(0x3bfa2c27, 0x4f9dbe3f, 0x094454ab, 0x7f81cc35), 0xc6bbeb54, 0x50be291c, 0x238a17c5,
            State(0x7f81cc35, 0x7327d604, 0x4f9dbe3f, 0x094454ab));
    Advance(block, 60, State(0x7f81cc35, 0x7327d604, 0x4f9dbe3f, 0x094454ab), 0xb822416b, 0x2ef78c22, 0xbde3088b,
            State(0x094454ab, 0x310ade8f, 0x7327d604, 0x4f9dbe3f));
    Advance(block, 61, State(0x094454ab, 0x310ade8f, 0x7327d604, 0x4f9dbe3f), 0xc24d09cb, 0x88cc50ab, 0x3142ae23,
            State(0x4f9dbe3f, 0x624d8cb2, 0x310ade8f, 0x7327d604));
    Advance(block, 62, State(0x4f9dbe3f, 0x624d8cb2, 0x310ade8f, 0x7327d604), 0xdfd77374, 0x5a4d046e, 0x82372d26,
            State(0x7327d604, 0xe484b9d8, 0x624d8cb2, 0x310ade8f));
    Advance(block, 63, State(0x7327d604, 0xe484b9d8, 0x624d8cb2, 0x310ade8f), 0x8cb8354a, 0xeb66dedf, 0xdbfd6cdb,
            State(0x310ade8f, 0xc08226b3, 0xe484b9d8, 0x624d8cb2));
  }

  lemma {:induction false} AbcCompresses(block: seq<u8>)
    requires IsAbc(block)
    ensures Compress(INITIAL_STATE, block) == State(0x98500190, 0xb04fd23c, 0x7d3f96d6, 0x727fe128)
  {
    NoSteps(INITIAL_STATE, block);
    hide Steps, IsAbc;
    StepsFrom0(block);
    StepsFrom8(block);
    StepsFrom16(block);
    StepsFrom24(block);
    StepsFrom32(block);
    StepsFrom40(block);
    StepsFrom48(block);
    StepsFrom56(block);
  }

  lemma {:induction false} AbcBlock()
    ensures var m := [0x61, 0x62, 0x63]; |Padded(m)| == 64 && IsAbc(Padded(m))
  {
    hide LengthBytes;
    ThreeBytes();
    var m := [0x61, 0x62, 0x63];
    var p := Padded(m);
    assert ZeroCount(3) == 52 && |p| == 64 && p[..4] == [0x61, 0x62, 0x63, 0x80];
    assert p[56..] == LengthBytes(3) && forall k :: 4 <= k < 56 ==> p[k] == 0;
  }

  lemma {:induction false} ThreeBytes()
    ensures LengthBytes(3) == [24, 0, 0, 0, 0, 0, 0, 0]
  {
  }

  /** MD5 ("abc") = 900150983cd24fb0d6963f7d28e17f72. */
  lemma {:induction false} KnownAnswer()
    ensures Digest([0x61, 0x62, 0x63])
            == [0x90, 0x01, 0x50, 0x98, 0x3c, 0xd2, 0x4f, 0xb0,
                0xd6, 0x96, 0x3f, 0x7d, 0x28, 0xe1, 0x7f, 0x72]
  {
    hide Compress, Padded, IsAbc;
    var m := [0x61, 0x62, 0x63];
    AbcBlock();
    assert Padded(m)[0..64] == Padded(m);
    AbcCompresses(Padded(m));
  }
}
