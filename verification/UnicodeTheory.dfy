/** What the conversions promise: legality, round trips and restarts. */
module UnicodeTheory {
  import opened Unicode

  // ---------------------------------------------------------------- legality of UTF-8

  /** The second byte after 0xED or 0xF4 that the legality check should refuse and does not. */
  predicate IsLax(s: seq<int>) {
    |s| >= 2 && (s[0] == 0xED || s[0] == 0xF4) && s[1] < 0x80
  }

  ghost predicate NoLaxPair(s: seq<int>) {
    forall i :: 0 <= i < |s| - 1 && (s[i] == 0xED || s[i] == 0xF4) ==> s[i + 1] >= 0x80
  }

  lemma {:induction false} PackedValue(s: seq<int>)
    requires 1 <= |s| <= 4
    ensures Packed(s)
            == match |s|
               case 1 => s[0]
               case 2 => s[0] * 64 + s[1]
               case 3 => s[0] * 4096 + s[1] * 64 + s[2]
               case _ => s[0] * 262144 + s[1] * 4096 + s[2] * 64 + s[3]
  {
    var last := s[|s| - 1];
    if |s| > 1 {
      PackedValue(s[..|s| - 1]);
    } else {
      assert s[..0] == [];
    }
  }

  /** The check accepts exactly the characters of section 4 of RFC 3629 and the lax ones. */
  lemma {:induction false} LegalityIsExact(s: seq<int>)
    requires s != [] && AreUnits(Utf8, s) && |s| == TrailingBytes(s[0]) + 1
    ensures IsLegalUtf8(s) && !IsLax(s) <==> IsRfc3629Char(s)
    ensures IsLegalUtf8(s) && IsLax(s)
            <==> IsLax(s) && IsTail(s[2]) && (|s| == 4 ==> IsTail(s[3]))
  {
    assert forall i :: 0 <= i < |s| ==> IsUnit(Utf8, s[i]);
  }

  /** A lax sequence that is not UTF-8 and is accepted, here as U+C040. */
  lemma {:induction false} LegalityIsTooWide()
    ensures IsLegalUtf8([0xED, 0x41, 0x80]) && !IsRfc3629Char([0xED, 0x41, 0x80])
    ensures Read8([0xED, 0x41, 0x80]) == Char(0xC040, 3)
    ensures Encode8(0xC040) == [0xEC, 0x81, 0x80]
  {
    var s := [0xED, 0x41, 0x80];
    assert s[..3] == s;
    PackedValue(s);
  }

  lemma {:induction false} Digits(h: int, d: int)
    requires 0 <= d < 64
    ensures (64 * h + d) / 64 == h && (64 * h + d) % 64 == d
  {
  }

  /** Sixty-four to the power of two and three, digit by digit. */
  lemma {:induction false} MoreDigits(v: int)
    ensures v / 4096 == v / 64 / 64 && v / 262144 == v / 64 / 64 / 64
  {
  }

  /** The value of an accepted character of each length. */
  lemma {:induction false} LegalValue(s: seq<int>)
    requires s != [] && AreUnits(Utf8, s) && |s| == TrailingBytes(s[0]) + 1 && IsLegalUtf8(s)
    ensures Packed(s) - OffsetFromUtf8(|s| - 1)
            == match |s|
               case 1 => s[0]
               case 2 => 64 * (s[0] - 0xC0) + (s[1] - 0x80)
               case 3 => 64 * (64 * (s[0] - 0xE0) + (s[1] - 0x80)) + (s[2] - 0x80)
               case _ => 64 * (64 * (64 * (s[0] - 0xF0) + (s[1] - 0x80)) + (s[2] - 0x80)) + (s[3] - 0x80)
  {
    PackedValue(s);
  }

  lemma {:induction false} LegalTwo(s: seq<int>)
    requires |s| == 2 && AreUnits(Utf8, s) && |s| == TrailingBytes(s[0]) + 1 && IsLegalUtf8(s)
    ensures IsScalar(Packed(s) - OffsetFromUtf8(1)) && s == Encode8(Packed(s) - OffsetFromUtf8(1))
  {
    LegalValue(s);
    assert IsUnit(Utf8, s[0]) && IsUnit(Utf8, s[1]);
    Digits(s[0] - 0xC0, s[1] - 0x80);
  }

  lemma {:induction false} LegalThree(s: seq<int>)
    requires |s| == 3 && AreUnits(Utf8, s) && |s| == TrailingBytes(s[0]) + 1 && IsLegalUtf8(s)
    ensures IsScalar(Packed(s) - OffsetFromUtf8(2)) && |Encode8(Packed(s) - OffsetFromUtf8(2))| == 3
    ensures s == Encode8(Packed(s) - OffsetFromUtf8(2)) <==> !IsLax(s)
  {
    var v := Packed(s) - OffsetFromUtf8(2);
    LegalValue(s);
    assert IsUnit(Utf8, s[0]) && IsUnit(Utf8, s[1]);
    MoreDigits(v);
    Digits(64 * (s[0] - 0xE0) + (s[1] - 0x80), s[2] - 0x80);
    assert 0x800 <= v < 0x10000 && !IsSurrogate(v);
    if !IsLax(s) {
      Digits(s[0] - 0xE0, s[1] - 0x80);
    }
  }

  lemma {:induction false} LegalFour(s: seq<int>)
    requires |s| == 4 && AreUnits(Utf8, s) && |s| == TrailingBytes(s[0]) + 1 && IsLegalUtf8(s)
    ensures IsScalar(Packed(s) - OffsetFromUtf8(3)) && |Encode8(Packed(s) - OffsetFromUtf8(3))| == 4
    ensures s == Encode8(Packed(s) - OffsetFromUtf8(3)) <==> !IsLax(s)
  {
    var v := Packed(s) - OffsetFromUtf8(3);
    LegalValue(s);
    assert IsUnit(Utf8, s[0]) && IsUnit(Utf8, s[1]);
    MoreDigits(v);
    Digits(64 * (64 * (s[0] - 0xF0) + (s[1] - 0x80)) + (s[2] - 0x80), s[3] - 0x80);
    Digits(64 * (s[0] - 0xF0) + (s[1] - 0x80), s[2] - 0x80);
    assert 0x10000 <= v < 0x110000;
    if !IsLax(s) {
      Digits(s[0] - 0xF0, s[1] - 0x80);
    }
  }

  /** Whatever the check accepts, subtracting the offset gives a scalar value, so the surrogate
      and out-of-range branches behind it are never taken; and the character is the standard
      encoding of that value exactly if it is not lax. */
  lemma {:induction false} LegalValueIsScalar(s: seq<int>)
    requires s != [] && AreUnits(Utf8, s) && |s| == TrailingBytes(s[0]) + 1 && IsLegalUtf8(s)
    ensures |s| <= 4 && IsScalar(Packed(s) - OffsetFromUtf8(|s| - 1))
    ensures |Encode8(Packed(s) - OffsetFromUtf8(|s| - 1))| == |s|
    ensures s == Encode8(Packed(s) - OffsetFromUtf8(|s| - 1)) <==> !IsLax(s)
  {
    match |s|
    case 1 => LegalValue(s); assert IsUnit(Utf8, s[0]);
    case 2 => LegalTwo(s);
    case 3 => LegalThree(s);
    case _ => LegalFour(s);
  }

  lemma {:induction false} EncodedPacks(ch: int)
    requires IsScalar(ch)
    ensures Packed(Encode8(ch)) - OffsetFromUtf8(|Encode8(ch)| - 1) == ch
  {
    PackedValue(Encode8(ch));
    hide Packed;
    MoreDigits(ch);
  }

  lemma {:induction false} EncodedIsLegal(ch: int)
    requires IsScalar(ch)
    ensures var s := Encode8(ch);
            && AreUnits(Utf8, s) && |s| == TrailingBytes(s[0]) + 1
            && IsRfc3629Char(s) && Packed(s) - OffsetFromUtf8(|s| - 1) == ch
  {
    EncodedPacks(ch);
    hide Packed;
    MoreDigits(ch);
  }

  /** The encoding of a scalar value is read back, whatever follows it. */
  lemma {:induction false} EncodedIsRead(ch: int, more: seq<int>)
    requires IsScalar(ch)
    ensures Read8(Encode8(ch) + more) == Char(ch, |Encode8(ch)|)
  {
    var s := Encode8(ch);
    EncodedIsLegal(ch);
    LegalityIsExact(s);
    assert (s + more)[..|s|] == s;
  }

  /** Examples from section 7 of RFC 3629 and section 5 of RFC 2781. */
  lemma {:induction false} KnownEncodings()
    ensures Encode8(0x41) == [0x41] && Encode8(0x391) == [0xCE, 0x91] && Encode8(0x2262) == [0xE2, 0x89, 0xA2]
    ensures Encode8(0x233B4) == [0xF0, 0xA3, 0x8E, 0xB4]
    ensures Encode16(0x12345) == [0xD808, 0xDF45] && Encode16(0x2262) == [0x2262]
  {
  }
}
