/** A conversion from UTF-8 or UTF-16 decodes characters and encodes them again; from this,
    the round trips. */
module UnicodeRoundTrips {
  import opened Unicode
  import opened UnicodeTheory
  import opened UnicodeConversions

  function ReadOne(from: Form, flags: Flags, src: seq<int>): (c: Character)
    requires src != []
    ensures c.Char? ==> 1 <= c.length <= |src|
  {
    match from
    case Utf8 => Read8(src)
    case Utf16 => Read16(src, flags)
    case Utf32 => if IsScalar(src[0]) then Char(src[0], 1) else Bad(SourceIllegal)
  }

  /** The characters at the front of src, how many units they take, and why they end. */
  datatype Decoding = Decoding(result: ConversionResult, consumed: nat, chars: seq<int>)

  function DecodeAll(from: Form, flags: Flags, src: seq<int>): (d: Decoding)
    ensures d.consumed <= |src|
    decreases |src|
  {
    if src == [] then Decoding(ConversionOK, 0, [])
    else
      match ReadOne(from, flags, src)
      case Bad(result) => Decoding(result, 0, [])
      case Char(ch, n) =>
        var rest := DecodeAll(from, flags, src[n..]);
        Decoding(rest.result, n + rest.consumed, [ch] + rest.chars)
  }

  /** One round reads one character and writes its encoding; the converters' surrogate and
      out-of-range branches behind the UTF-8 reader play no part. */
  lemma {:induction false} NextIsReadThenEncode(from: Form, to: Form, flags: Flags, src: seq<int>, room: nat)
    requires from != Utf32 && src != [] && AreUnits(from, src)
    ensures Next(from, to, flags, src, room)
            == match ReadOne(from, flags, src)
               case Bad(result) => Stop(result)
               case Char(ch, n) => Fit(n, Encode(to, ch), false, room)
  {
    ReadValueIsScalar(from, src);
  }

  lemma {:induction false} EncodeAllCons(form: Form, ch: int, cs: seq<int>)
    ensures EncodeAll(form, [ch] + cs) == Encode(form, ch) + EncodeAll(form, cs)
  {
    assert ([ch] + cs)[1..] == cs;
  }

  /** Reading a character looks at no unit behind it, except that lenient UTF-16 looks past an
      unpaired surrogate. */
  lemma {:induction false} ReadIsLocal(from: Form, flags: Flags, src: seq<int>, m: nat)
    requires from == Utf16 ==> flags == Strict
    requires src != [] && ReadOne(from, flags, src).Char? && ReadOne(from, flags, src).length <= m <= |src|
    ensures ReadOne(from, flags, src[..m]) == ReadOne(from, flags, src)
  {
    if from == Utf8 {
      var n := ReadOne(from, flags, src).length;
      assert src[..m][..n] == src[..n];
    }
  }

  lemma {:induction false} DecodeRound(from: Form, flags: Flags, src: seq<int>, ch: int, n: nat)
    requires src != [] && ReadOne(from, flags, src) == Char(ch, n)
    ensures var rest := DecodeAll(from, flags, src[n..]);
            DecodeAll(from, flags, src) == Decoding(rest.result, n + rest.consumed, [ch] + rest.chars)
  {
    hide ReadOne;
  }

  lemma {:induction false} FitsOrNot(to: Form, ch: int, cs: seq<int>, k: nat)
    requires k <= |cs|
    ensures EncodeAll(to, ([ch] + cs)[..k + 1]) == Encode(to, ch) + EncodeAll(to, cs[..k])
  {
    hide Encode;
    assert ([ch] + cs)[..k + 1] == [ch] + cs[..k];
    EncodeAllCons(to, ch, cs[..k]);
  }

  /** The units that the first k characters take, read one after the other. */
  function Units(from: Form, flags: Flags, src: seq<int>, k: nat): (u: nat)
    ensures u <= |src|
    decreases |src|
  {
    if k == 0 || src == [] then 0
    else
      match ReadOne(from, flags, src)
      case Bad(_) => 0
      case Char(_, n) => n + Units(from, flags, src[n..], k - 1)
  }

  lemma {:induction false} UnitsRound(from: Form, flags: Flags, src: seq<int>, k: nat, ch: int, n: nat)
    requires src != [] && ReadOne(from, flags, src) == Char(ch, n)
    ensures Units(from, flags, src, 1 + k) == n + Units(from, flags, src[n..], k)
  {
    hide ReadOne;
  }

  /** A call writes the encodings of the first k characters, and stops before the end of the
      decodable text only because the next encoding does not fit; what it reads is those k
      characters and nothing else, so it stops where they end. Read by themselves they are the same
      characters, except that lenient UTF-16 may take a high surrogate at their end to be
      unfinished. */
  ghost predicate Faithful(from: Form, to: Form, flags: Flags, src: seq<int>, room: nat, k: nat) {
    var d := DecodeAll(from, flags, src);
    var c := Convert(from, to, flags, src, room);
    && k <= |d.chars|
    && c.out == EncodeAll(to, d.chars[..k])
    && c.consumed == Units(from, flags, src, k)
    && (from == Utf8 || flags == Strict ==>
          DecodeAll(from, flags, src[..c.consumed]) == Decoding(ConversionOK, c.consumed, d.chars[..k]))
    && (k == |d.chars| ==> c.result == d.result && c.consumed == d.consumed)
    && (k < |d.chars| ==> c.result == TargetExhausted && |EncodeAll(to, d.chars[..k + 1])| > room)
  }

  lemma {:induction false} FaithfulStep(
    from: Form, to: Form, flags: Flags, src: seq<int>, room: nat, ch: int, n: nat, j: nat)
    requires from != Utf32 && src != [] && AreUnits(from, src)
    requires ReadOne(from, flags, src) == Char(ch, n) && |Encode(to, ch)| <= room
    requires Faithful(from, to, flags, src[n..], room - |Encode(to, ch)|, j)
    ensures Faithful(from, to, flags, src, room, 1 + j)
  {
    hide Next, ReadOne, Encode, Then, Convert, DecodeAll, EncodeAll, Units;
    NextIsReadThenEncode(from, to, flags, src, room);
    UnitsRound(from, flags, src, j, ch, n);
    var out := Encode(to, ch);
    assert Next(from, to, flags, src, room) == Take(n, out, false);
    ConvertRound(from, to, flags, src, room, n, out, false);
    DecodeRound(from, flags, src, ch, n);
    var cs := DecodeAll(from, flags, src[n..]).chars;
    var m := Convert(from, to, flags, src[n..], room - |out|).consumed;
    FitsOrNot(to, ch, cs, j);
    if j < |cs| {
      FitsOrNot(to, ch, cs, j + 1);
    }
    if from == Utf8 || flags == Strict {
      ReadIsLocal(from, flags, src, n + m);
      DecodeRound(from, flags, src[..n + m], ch, n);
      assert src[..n + m][n..] == src[n..][..m];
      assert ([ch] + cs)[..1 + j] == [ch] + cs[..j];
    }
  }

  lemma {:induction false} FaithfulStop(from: Form, to: Form, flags: Flags, src: seq<int>, room: nat)
    requires from != Utf32 && AreUnits(from, src)
    requires src != [] && ReadOne(from, flags, src).Char? ==> |Encode(to, ReadOne(from, flags, src).ch)| > room
    ensures Faithful(from, to, flags, src, room, 0)
  {
    hide Next, ReadOne, Encode;
    assert src[..0] == [];
    if src != [] {
      NextIsReadThenEncode(from, to, flags, src, room);
      if ReadOne(from, flags, src).Char? {
        var Char(ch, n) := ReadOne(from, flags, src);
        DecodeRound(from, flags, src, ch, n);
        FitsOrNot(to, ch, DecodeAll(from, flags, src[n..]).chars, 0);
      }
    }
  }

  /** Every call from UTF-8 or UTF-16 decodes and encodes again. */
  lemma {:induction false} ConvertIsDecodeThenEncode(from: Form, to: Form, flags: Flags, src: seq<int>, room: nat)
    returns (k: nat)
    requires from != Utf32 && AreUnits(from, src)
    ensures Faithful(from, to, flags, src, room, k)
    decreases |src|
  {
    hide Faithful, Encode;
    if src != [] && ReadOne(from, flags, src).Char? && |Encode(to, ReadOne(from, flags, src).ch)| <= room {
      var Char(ch, n) := ReadOne(from, flags, src);
      var j := ConvertIsDecodeThenEncode(from, to, flags, src[n..], room - |Encode(to, ch)|);
      FaithfulStep(from, to, flags, src, room, ch, n, j);
      k := 1 + j;
    } else {
      FaithfulStop(from, to, flags, src, room);
      k := 0;
    }
  }

  // ---------------------------------------------------------------- scalar values survive

  lemma {:induction false} Surrogates(ch: int)
    requires 0x10000 <= ch <= MAX_LEGAL_UTF32
    ensures var s := Encode16(ch);
            && |s| == 2 && 0xD800 <= s[0] <= 0xDBFF && 0xDC00 <= s[1] <= 0xDFFF
            && (s[0] - 0xD800) * 1024 + (s[1] - 0xDC00) + 0x10000 == ch
  {
  }

  /** The encoding of a scalar value is read back as one character. */
  lemma {:induction false} EncodedIsReadBack(from: Form, flags: Flags, ch: int, more: seq<int>)
    requires IsScalar(ch)
    ensures ReadOne(from, flags, Encode(from, ch) + more) == Char(ch, |Encode(from, ch)|)
  {
    match from
    case Utf8 => EncodedIsRead(ch, more);
    case Utf16 => if ch >= 0x10000 { Surrogates(ch); }
    case Utf32 =>
  }

  lemma {:induction false} EncodedIsTaken(from: Form, to: Form, flags: Flags, ch: int, more: seq<int>, room: nat)
    requires IsScalar(ch) && from != to && |Encode(to, ch)| <= room
    ensures Next(from, to, flags, Encode(from, ch) + more, room) == Take(|Encode(from, ch)|, Encode(to, ch), false)
  {
    EncodedIsReadBack(from, flags, ch, more);
  }

  /** Every conversion maps the encoding of a text to the encoding of the same text. */
  lemma {:induction false} EncodedConverts(from: Form, to: Form, flags: Flags, cs: seq<int>, room: nat)
    requires AreScalars(cs) && from != to && |EncodeAll(to, cs)| <= room
    ensures Convert(from, to, flags, EncodeAll(from, cs), room)
            == Conversion(ConversionOK, |EncodeAll(from, cs)|, EncodeAll(to, cs))
  {
    hide Next, Encode, Then;
    if cs != [] {
      var ch, rest := cs[0], EncodeAll(from, cs[1..]);
      var src, out := EncodeAll(from, cs), Encode(to, ch);
      assert src == Encode(from, ch) + rest;
      EncodedIsTaken(from, to, flags, ch, rest, room);
      ConvertRound(from, to, flags, src, room, |Encode(from, ch)|, out, false);
      assert src[|Encode(from, ch)|..] == rest;
      EncodedConverts(from, to, flags, cs[1..], room - |out|);
    }
  }

  // ---------------------------------------------------------------- what was decoded

  lemma {:induction false} DecodingEnds(from: Form, flags: Flags, src: seq<int>)
    ensures DecodeAll(from, flags, src).result == ConversionOK ==> DecodeAll(from, flags, src).consumed == |src|
    decreases |src|
  {
    if src != [] && ReadOne(from, flags, src).Char? {
      hide ReadOne;
      DecodingEnds(from, flags, src[ReadOne(from, flags, src).length..]);
    }
  }

  /** A strictly read character is a scalar value; its units are its encoding, unless they are lax. */
  lemma {:induction false} ReadIsEncoding(from: Form, src: seq<int>)
    requires from != Utf32 && src != [] && AreUnits(from, src) && ReadOne(from, Strict, src).Char?
    ensures var Char(ch, n) := ReadOne(from, Strict, src);
            && IsScalar(ch) && |Encode(from, ch)| == n
            && (src[..n] == Encode(from, ch) <==> from == Utf16 || !IsLax(src[..n]))
  {
    assert IsUnit(from, src[0]);
    if from == Utf8 {
      ReadValueIsScalar(from, src);
    }
  }

  lemma {:induction false} LaxPairSplits(src: seq<int>, n: nat)
    requires 1 <= n <= |src| && src[n - 1] != 0xED && src[n - 1] != 0xF4
    ensures NoLaxPair(src) <==> NoLaxPair(src[..n]) && NoLaxPair(src[n..])
  {
    assert forall i :: 0 <= i < |src| - n ==> src[n..][i] == src[n + i];
    if NoLaxPair(src[..n]) && NoLaxPair(src[n..]) {
      forall i | 0 <= i < |src| - 1 && (src[i] == 0xED || src[i] == 0xF4) ensures src[i + 1] >= 0x80 {
        if i < n - 1 {
          assert src[..n][i] == src[i] && src[..n][i + 1] == src[i + 1];
        } else {
          assert src[n..][i - n] == src[i] && src[n..][i - n + 1] == src[i + 1];
        }
      }
    }
    if NoLaxPair(src) {
      forall i | 0 <= i < |src| - n - 1 && (src[n..][i] == 0xED || src[n..][i] == 0xF4)
        ensures src[n..][i + 1] >= 0x80
      {
        assert src[n + i + 1] >= 0x80;
      }
    }
  }

  /** Within one accepted character only the first byte can be 0xED or 0xF4, and not the last. */
  lemma {:induction false} CharacterLaxPair(src: seq<int>)
    requires src != [] && AreUnits(Utf8, src) && ReadOne(Utf8, Strict, src).Char?
    ensures var s := src[..ReadOne(Utf8, Strict, src).length];
            (NoLaxPair(s) <==> !IsLax(s)) && s[|s| - 1] != 0xED && s[|s| - 1] != 0xF4
  {
    assert IsUnit(Utf8, src[0]);
    var s := src[..Read8(src).length];
    assert |s| >= 3 ==> IsTail(s[2]);
    assert |s| >= 4 ==> IsTail(s[3]);
    assert IsLax(s) ==> !(s[1] >= 0x80);
  }

  /** One more character in front. */
  lemma {:induction false} EncodingSplits(from: Form, src: seq<int>, ch: int, n: nat, rest: seq<int>, m: nat)
    requires n <= |src| && m <= |src| - n && |Encode(from, ch)| == n && |EncodeAll(from, rest)| == m
    ensures |EncodeAll(from, [ch] + rest)| == n + m
    ensures src[..n + m] == EncodeAll(from, [ch] + rest)
            <==> src[..n] == Encode(from, ch) && src[n..][..m] == EncodeAll(from, rest)
  {
    hide Encode;
    EncodeAllCons(from, ch, rest);
    hide EncodeAll;
    var all := src[..n + m];
    assert all == src[..n] + src[n..][..m];
    assert all[..n] == src[..n] && all[n..] == src[n..][..m];
  }

  /** What was decoded is scalar values, and their encoding is what was read, exactly if no lax pair
      was. */
  ghost predicate IsDecoded(from: Form, src: seq<int>, d: Decoding)
    requires d.consumed <= |src|
  {
    && AreScalars(d.chars) && |EncodeAll(from, d.chars)| == d.consumed
    && (src[..d.consumed] == EncodeAll(from, d.chars) <==> from == Utf16 || NoLaxPair(src[..d.consumed]))
  }

  lemma {:induction false} OneMoreDecoded(from: Form, src: seq<int>, ch: int, n: nat, d: Decoding)
    requires from != Utf32 && src != [] && AreUnits(from, src) && ReadOne(from, Strict, src) == Char(ch, n)
    requires n <= |src| && d.consumed <= |src| - n && IsDecoded(from, src[n..], d)
    ensures IsDecoded(from, src, Decoding(d.result, n + d.consumed, [ch] + d.chars))
  {
    hide Encode, ReadOne, EncodeAll, NoLaxPair, AreUnits;
    ReadIsEncoding(from, src);
    EncodingSplits(from, src, ch, n, d.chars, d.consumed);
    if from == Utf8 {
      CharacterLaxPair(src);
      LaxPairOfParts(src, n, d.consumed);
    }
  }

  /** Strictly decoded text is what its encoding says. */
  lemma {:induction false} DecodedIsEncoding(from: Form, src: seq<int>)
    requires from != Utf32 && AreUnits(from, src)
    ensures IsDecoded(from, src, DecodeAll(from, Strict, src))
    decreases |src|
  {
    hide Encode, ReadOne;
    if src != [] && ReadOne(from, Strict, src).Char? {
      var Char(ch, n) := ReadOne(from, Strict, src);
      DecodeRound(from, Strict, src, ch, n);
      DecodedIsEncoding(from, src[n..]);
      OneMoreDecoded(from, src, ch, n, DecodeAll(from, Strict, src[n..]));
    }
  }

  lemma {:induction false} LaxPairOfParts(src: seq<int>, n: nat, m: nat)
    requires 1 <= n <= |src| && m <= |src| - n && src[..n][n - 1] != 0xED && src[..n][n - 1] != 0xF4
    ensures NoLaxPair(src[..n + m]) <==> NoLaxPair(src[..n]) && NoLaxPair(src[n..][..m])
  {
    var all := src[..n + m];
    assert all[..n] == src[..n] && all[n..] == src[n..][..m];
    LaxPairSplits(all, n);
  }

  // ---------------------------------------------------------------- round trips

  /** A strict conversion from UTF-8 or UTF-16 that succeeds has read all of src as scalar
      values, and written their encoding. */
  lemma {:induction false} SuccessIsWhole(from: Form, to: Form, src: seq<int>, room: nat)
    requires from != Utf32 && AreUnits(from, src) && Convert(from, to, Strict, src, room).result == ConversionOK
    ensures var cs := DecodeAll(from, Strict, src).chars;
            && AreScalars(cs) && |EncodeAll(from, cs)| == |src|
            && Convert(from, to, Strict, src, room) == Conversion(ConversionOK, |src|, EncodeAll(to, cs))
            && (src == EncodeAll(from, cs) <==> from == Utf16 || NoLaxPair(src))
  {
    hide Convert, DecodeAll, EncodeAll;
    var k := ConvertIsDecodeThenEncode(from, to, Strict, src, room);
    var d := DecodeAll(from, Strict, src);
    DecodingEnds(from, Strict, src);
    DecodedIsEncoding(from, src);
    assert d.chars[..|d.chars|] == d.chars && src[..|src|] == src;
  }

  /** Converting strictly and back, into as much room as src took: always succeeds, and gives
      src again exactly if no 0xED or 0xF4 in src stands before a byte below 0x80. So it is
      the identity on well-formed UTF-16 and on RFC 3629 UTF-8. */
  lemma {:induction false} RoundTrip(from: Form, to: Form, src: seq<int>, room: nat, flags: Flags, back: nat)
    requires from != Utf32 && from != to && AreUnits(from, src) && |src| <= back
    requires Convert(from, to, Strict, src, room).result == ConversionOK
    ensures var out := Convert(from, to, Strict, src, room).out;
            var r := Convert(to, from, flags, out, back);
            && r.result == ConversionOK && r.consumed == |out| && |r.out| == |src|
            && (r.out == src <==> from == Utf16 || NoLaxPair(src))
  {
    SuccessIsWhole(from, to, src, room);
    hide Convert, DecodeAll, EncodeAll;
    EncodedConverts(to, from, flags, DecodeAll(from, Strict, src).chars, back);
  }

  lemma {:induction false} EncodedUtf32(cs: seq<int>)
    ensures EncodeAll(Utf32, cs) == cs
  {
    if cs != [] {
      EncodedUtf32(cs[1..]);
    }
  }

  /** A strict conversion from UTF-32 that succeeds was given scalar values only. */
  lemma {:induction false} SuccessMeansScalars(to: Form, src: seq<int>, room: nat)
    requires to != Utf32 && AreUnits(Utf32, src) && Convert(Utf32, to, Strict, src, room).result == ConversionOK
    ensures AreScalars(src)
    decreases |src|
  {
    hide Encode, Next;
    if src != [] {
      SuccessTakesScalar(to, src, room);
      var out := Next(Utf32, to, Strict, src, room).out;
      SuccessMeansScalars(to, src[1..], room - |out|);
      assert forall i :: 1 <= i < |src| ==> src[i] == src[1..][i - 1];
    }
  }

  lemma {:induction false} SuccessTakesScalar(to: Form, src: seq<int>, room: nat)
    requires to != Utf32 && AreUnits(Utf32, src) && src != []
    requires Convert(Utf32, to, Strict, src, room).result == ConversionOK
    ensures IsScalar(src[0])
    ensures Next(Utf32, to, Strict, src, room).Take? && Next(Utf32, to, Strict, src, room).length == 1
  {
    hide Encode;
    assert IsUnit(Utf32, src[0]);
  }

  /** From UTF-32 and back is the identity whenever the strict conversion succeeds. */
  lemma {:induction false} RoundTrip32(to: Form, src: seq<int>, room: nat, flags: Flags, back: nat)
    requires to != Utf32 && AreUnits(Utf32, src) && |src| <= back
    requires Convert(Utf32, to, Strict, src, room).result == ConversionOK && |EncodeAll(to, src)| <= room
    ensures var out := Convert(Utf32, to, Strict, src, room).out;
            Convert(to, Utf32, flags, out, back) == Conversion(ConversionOK, |out|, src)
  {
    SuccessMeansScalars(to, src, room);
    EncodedUtf32(src);
    hide Convert, EncodeAll;
    EncodedConverts(Utf32, to, Strict, src, room);
    EncodedConverts(to, Utf32, flags, src, back);
  }

  lemma {:induction false} Utf8IsLongest(form: Form, cs: seq<int>)
    requires AreScalars(cs)
    ensures |EncodeAll(form, cs)| <= |EncodeAll(Utf8, cs)|
  {
    if cs != [] {
      Utf8IsLongest(form, cs[1..]);
    }
  }

  lemma {:induction false} DecodedUtf8Fits(form: Form, flags: Flags, src: seq<int>)
    requires AreUnits(Utf8, src)
    ensures AreScalars(DecodeAll(Utf8, flags, src).chars)
    ensures |EncodeAll(form, DecodeAll(Utf8, flags, src).chars)| <= |src|
    decreases |src|
  {
    hide Encode, IsLegalUtf8, Packed;
    if src != [] && Read8(src).Char? {
      var Char(ch, n) := Read8(src);
      ReadIsEncoding(Utf8, src);
      DecodedUtf8Fits(form, flags, src[n..]);
      EncodeAllCons(form, ch, DecodeAll(Utf8, flags, src[n..]).chars);
      EncodingIsShort(form, ch);
    }
  }

  lemma {:induction false} EncodingIsShort(form: Form, ch: int)
    ensures |Encode(form, ch)| <= |Encode(Utf8, ch)|
  {
  }

  /** With as much room as the source has bytes, converting UTF-8 to UTF-16 and that to UTF-32
      gives what converting to UTF-32 directly gives, and stops at the same place for the same
      reason, well-formed or not. */
  lemma {:induction false} ThroughUtf16(
    flags: Flags, src: seq<int>, room16: nat, room32: nat, flags': Flags, room': nat)
    requires AreUnits(Utf8, src) && |src| <= room16 && |src| <= room32 && |src| <= room'
    ensures var via := Convert(Utf8, Utf16, flags, src, room16);
            var direct := Convert(Utf8, Utf32, flags, src, room32);
            && via.result == direct.result && via.consumed == direct.consumed
            && Convert(Utf16, Utf32, flags', via.out, room') == Conversion(ConversionOK, |via.out|, direct.out)
  {
    var cs := DecodeAll(Utf8, flags, src).chars;
    DecodedUtf8Fits(Utf16, flags, src);
    DecodedUtf8Fits(Utf32, flags, src);
    WholeFits(Utf16, flags, src, room16);
    WholeFits(Utf32, flags, src, room32);
    hide Convert, EncodeAll, DecodeAll;
    EncodedConverts(Utf16, Utf32, flags', cs, room');
  }

  lemma {:induction false} PrefixEncodesShorter(form: Form, cs: seq<int>, k: nat)
    requires k <= |cs|
    ensures |EncodeAll(form, cs[..k])| <= |EncodeAll(form, cs)|
  {
    hide Encode;
    if k > 0 {
      assert cs == [cs[0]] + cs[1..];
      FitsOrNot(form, cs[0], cs[1..], k - 1);
      PrefixEncodesShorter(form, cs[1..], k - 1);
    }
  }

  /** With room for everything, all that can be decoded is converted. */
  lemma {:induction false} WholeFits(to: Form, flags: Flags, src: seq<int>, room: nat)
    requires AreUnits(Utf8, src) && |EncodeAll(to, DecodeAll(Utf8, flags, src).chars)| <= room
    ensures var d := DecodeAll(Utf8, flags, src);
            Convert(Utf8, to, flags, src, room) == Conversion(d.result, d.consumed, EncodeAll(to, d.chars))
  {
    hide Convert, EncodeAll, DecodeAll;
    var k := ConvertIsDecodeThenEncode(Utf8, to, flags, src, room);
    var cs := DecodeAll(Utf8, flags, src).chars;
    if k < |cs| {
      PrefixEncodesShorter(to, cs, k + 1);
    }
    assert cs[..|cs|] == cs;
  }

  /** On UTF-8 input strict and lenient conversion are the same. */
  lemma {:induction false} StrictAgreesWithLenient(to: Form, src: seq<int>, room: nat)
    requires AreUnits(Utf8, src)
    ensures Convert(Utf8, to, Strict, src, room) == Convert(Utf8, to, Lenient, src, room)
    decreases |src|
  {
    hide Next, Read8, Encode, Then;
    if src != [] {
      NextIsReadThenEncode(Utf8, to, Strict, src, room);
      NextIsReadThenEncode(Utf8, to, Lenient, src, room);
      if Next(Utf8, to, Strict, src, room).Take? {
        var Take(n, out, _) := Next(Utf8, to, Strict, src, room);
        StrictAgreesWithLenient(to, src[n..], room - |out|);
      }
    }
  }

  /** With room for the text, strict conversion succeeds on exactly the sequences that encode
      some text; from UTF-8 also on those that are wrong in lax pairs only. */
  lemma {:induction false} SuccessIsWellFormedness(from: Form, to: Form, src: seq<int>, room: nat)
    requires from != Utf32 && from != to && AreUnits(from, src) && 4 * |src| <= room
    ensures (exists cs :: AreScalars(cs) && src == EncodeAll(from, cs))
            <==> && Convert(from, to, Strict, src, room).result == ConversionOK
                 && (from == Utf8 ==> NoLaxPair(src))
  {
    if cs :| AreScalars(cs) && src == EncodeAll(from, cs) {
      EncodingsAreBounded(to, from, cs);
      EncodedConverts(from, to, Strict, cs, room);
      assert Convert(from, to, Strict, src, room).result == ConversionOK;
      if from == Utf8 {
        EncodedHasNoLaxPair(cs);
      }
    }
    if Convert(from, to, Strict, src, room).result == ConversionOK && (from == Utf8 ==> NoLaxPair(src)) {
      SuccessIsWhole(from, to, src, room);
      assert src == EncodeAll(from, DecodeAll(from, Strict, src).chars);
    }
  }

  lemma {:induction false} EncodingsAreBounded(to: Form, from: Form, cs: seq<int>)
    ensures |EncodeAll(to, cs)| <= 4 * |EncodeAll(from, cs)|
  {
    hide Encode;
    if cs != [] {
      EncodingsAreBounded(to, from, cs[1..]);
    }
  }

  lemma {:induction false} EncodedHasNoLaxPair(cs: seq<int>)
    requires AreScalars(cs)
    ensures NoLaxPair(EncodeAll(Utf8, cs))
  {
    if cs != [] {
      var ch := cs[0];
      var s, rest := Encode8(ch), EncodeAll(Utf8, cs[1..]);
      EncodedIsLegal(ch);
      EncodedHasNoLaxPair(cs[1..]);
      assert (s + rest)[..|s|] == s && (s + rest)[|s|..] == rest;
      LaxPairSplits(s + rest, |s|);
    }
  }
}
