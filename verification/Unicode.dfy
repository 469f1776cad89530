/** The Unicode encoding forms and the conversions between them, as convert_UTF.c defines them.
    Encode follows section 3 of RFC 3629 and section 2.1 of RFC 2781; Next is one round of a
    converter's loop; Convert is a whole call. */
module Unicode {
  import opened MachineWords

  datatype Form = Utf8 | Utf16 | Utf32

  /** strictConversion and lenientConversion. */
  datatype Flags = Strict | Lenient

  datatype ConversionResult = ConversionOK | SourceExhausted | TargetExhausted | SourceIllegal

  const REPLACEMENT_CHAR: int := 0xFFFD
  const MAX_LEGAL_UTF32: int := 0x10FFFF

  predicate IsUnit(form: Form, u: int) {
    0 <= u < match form case Utf8 => TWO_8 case Utf16 => TWO_16 case Utf32 => TWO_32
  }

  ghost predicate AreUnits(form: Form, s: seq<int>) {
    forall i :: 0 <= i < |s| ==> IsUnit(form, s[i])
  }

  predicate IsSurrogate(ch: int) { 0xD800 <= ch <= 0xDFFF }

  predicate IsScalar(ch: int) { 0 <= ch <= MAX_LEGAL_UTF32 && !IsSurrogate(ch) }

  ghost predicate AreScalars(cs: seq<int>) {
    forall i :: 0 <= i < |cs| ==> IsScalar(cs[i])
  }

  // ---------------------------------------------------------------- encoding

  function Encode8(ch: int): (s: seq<int>)
    ensures 1 <= |s| <= 4
  {
    if ch < 0x80 then [ch]
    else if ch < 0x800 then [0xC0 + ch / 64, 0x80 + ch % 64]
    else if ch < 0x10000 then [0xE0 + ch / 4096, 0x80 + ch / 64 % 64, 0x80 + ch % 64]
    else [0xF0 + ch / 262144, 0x80 + ch / 4096 % 64, 0x80 + ch / 64 % 64, 0x80 + ch % 64]
  }

  function Encode16(ch: int): (s: seq<int>)
    ensures 1 <= |s| <= 2
  {
    if ch < 0x10000 then [ch]
    else [0xD800 + (ch - 0x10000) / 1024, 0xDC00 + (ch - 0x10000) % 1024]
  }

  function Encode(form: Form, ch: int): (s: seq<int>)
    ensures 1 <= |s| <= 4
  {
    match form
    case Utf8 => Encode8(ch)
    case Utf16 => Encode16(ch)
    case Utf32 => [ch]
  }

  function EncodeAll(form: Form, cs: seq<int>): (s: seq<int>) {
    if cs == [] then [] else Encode(form, cs[0]) + EncodeAll(form, cs[1..])
  }

  /** One UTF-8 character, by the syntax of section 4 of RFC 3629. */
  predicate IsRfc3629Char(s: seq<int>) {
    match |s|
    case 1 => 0x00 <= s[0] <= 0x7F
    case 2 => 0xC2 <= s[0] <= 0xDF && IsTail(s[1])
    case 3 =>
      && IsTail(s[2])
      && (|| (s[0] == 0xE0 && 0xA0 <= s[1] <= 0xBF)
          || (0xE1 <= s[0] <= 0xEC && IsTail(s[1]))
          || (s[0] == 0xED && 0x80 <= s[1] <= 0x9F)
          || (0xEE <= s[0] <= 0xEF && IsTail(s[1])))
    case 4 =>
      && IsTail(s[2]) && IsTail(s[3])
      && (|| (s[0] == 0xF0 && 0x90 <= s[1] <= 0xBF)
          || (0xF1 <= s[0] <= 0xF3 && IsTail(s[1]))
          || (s[0] == 0xF4 && 0x80 <= s[1] <= 0x8F))
    case _ => false
  }

  predicate IsTail(b: int) { 0x80 <= b <= 0xBF }

  // ---------------------------------------------------------------- reading one character

  /** The table trailingBytesForUTF8. */
  function TrailingBytes(b: int): (n: nat) {
    if b < 0xC0 then 0 else if b < 0xE0 then 1 else if b < 0xF0 then 2
    else if b < 0xF8 then 3 else if b < 0xFC then 4 else 5
  }

  /** isLegalUTF8, with the length given by s. After 0xED and 0xF4 the source does not check
      that the second byte is at least 0x80. */
  predicate IsLegalUtf8(s: seq<int>)
    requires s != []
  {
    && |s| <= 4
    && (|s| >= 4 ==> IsTail(s[3]))
    && (|s| >= 3 ==> IsTail(s[2]))
    && (|s| >= 2 ==>
          && s[1] <= 0xBF
          && match s[0]
             case 0xE0 => s[1] >= 0xA0
             case 0xED => s[1] <= 0x9F
             case 0xF0 => s[1] >= 0x90
             case 0xF4 => s[1] <= 0x8F
             case _ => s[1] >= 0x80)
    && !(0x80 <= s[0] < 0xC2)
    && s[0] <= 0xF4
  }

  /** The table offsetsFromUTF8, for lengths the legality check lets through. */
  function OffsetFromUtf8(extra: nat): int {
    if extra == 0 then 0 else if extra == 1 then 0x3080 else if extra == 2 then 0xE2080 else 0x3C82080
  }

  /** The bytes shifted together, before the offset is subtracted. */
  function Packed(s: seq<int>): int {
    if s == [] then 0 else 64 * Packed(s[..|s| - 1]) + s[|s| - 1]
  }

  datatype Character = Bad(result: ConversionResult) | Char(ch: int, length: nat)

  function Read8(src: seq<int>): (c: Character)
    requires src != []
    ensures c.Char? ==> 1 <= c.length <= |src|
  {
    var extra := TrailingBytes(src[0]);
    if extra >= |src| then Bad(SourceExhausted)
    else if !IsLegalUtf8(src[..extra + 1]) then Bad(SourceIllegal)
    else Char(Packed(src[..extra + 1]) - OffsetFromUtf8(extra), extra + 1)
  }

  function Read16(src: seq<int>, flags: Flags): (c: Character)
    requires src != []
    ensures c.Char? ==> 1 <= c.length <= |src|
  {
    if 0xD800 <= src[0] <= 0xDBFF then
      if |src| == 1 then Bad(SourceExhausted)
      else if 0xDC00 <= src[1] <= 0xDFFF then
        Char((src[0] - 0xD800) * 1024 + (src[1] - 0xDC00) + 0x10000, 2)
      else if flags == Strict then Bad(SourceIllegal)
      else Char(src[0], 1)
    else if flags == Strict && 0xDC00 <= src[0] <= 0xDFFF then Bad(SourceIllegal)
    else Char(src[0], 1)
  }

  // ---------------------------------------------------------------- one round of a converter

  /** Take: read length units and write out; a round may also set the result to sourceIllegal
      and go on (lines 87 and 434). */
  datatype Round = Stop(result: ConversionResult) | Take(length: nat, out: seq<int>, flagged: bool)

  function Fit(length: nat, out: seq<int>, flagged: bool, room: nat): Round {
    if |out| > room then Stop(TargetExhausted) else Take(length, out, flagged)
  }

  function Next(from: Form, to: Form, flags: Flags, src: seq<int>, room: nat): (r: Round)
    requires src != []
    ensures r.Take? ==> 1 <= r.length <= |src| && |r.out| <= room
  {
    match from
    case Utf8 => (
      match Read8(src)
      case Bad(result) => Stop(result)
      case Char(ch, n) =>
        if room == 0 then Stop(TargetExhausted)
        else if IsSurrogate(ch) then
          if flags == Strict then Stop(SourceIllegal) else Fit(n, Encode(to, REPLACEMENT_CHAR), false, room)
        else if ch > MAX_LEGAL_UTF32 then
          if to == Utf16 && flags == Strict then Stop(SourceIllegal)
          else Fit(n, Encode(to, REPLACEMENT_CHAR), to == Utf32, room)
        else Fit(n, Encode(to, ch), false, room))
    case Utf16 => (
      match Read16(src, flags)
      case Bad(result) => Stop(result)
      case Char(ch, n) => Fit(n, Encode(to, ch), false, room))
    case Utf32 =>
      var ch := src[0];
      if to == Utf16 then
        if room == 0 then Stop(TargetExhausted)
        else if IsSurrogate(ch) then
          if flags == Strict then Stop(SourceIllegal) else Take(1, [REPLACEMENT_CHAR], false)
        else if ch > MAX_LEGAL_UTF32 then
          if flags == Strict then Take(1, [], true) else Take(1, [REPLACEMENT_CHAR], false)
        else Fit(1, Encode16(ch), false, room)
      else if flags == Strict && IsSurrogate(ch) then Stop(SourceIllegal)
      else if ch > MAX_LEGAL_UTF32 then Fit(1, Encode(to, REPLACEMENT_CHAR), true, room)
      else Fit(1, Encode(to, ch), false, room)
  }

  // ---------------------------------------------------------------- a whole call

  /** What a call returns: its result, how many source units it read and what it wrote. */
  datatype Conversion = Conversion(result: ConversionResult, consumed: nat, out: seq<int>)

  /** Going on after first, whose rounds raised the sourceIllegal flag or did not. */
  function Then(first: Conversion, flagged: bool, second: Conversion): (c: Conversion) {
    Conversion(if flagged && second.result == ConversionOK then SourceIllegal else second.result,
               first.consumed + second.consumed, first.out + second.out)
  }

  function Convert(from: Form, to: Form, flags: Flags, src: seq<int>, room: nat): (c: Conversion)
    ensures c.consumed <= |src| && |c.out| <= room
    decreases |src|
  {
    if src == [] then Conversion(ConversionOK, 0, [])
    else
      match Next(from, to, flags, src, room)
      case Stop(result) => Conversion(result, 0, [])
      case Take(n, out, flagged) => Then(Conversion(ConversionOK, n, out), flagged,
                                         Convert(from, to, flags, src[n..], room - |out|))
  }
}
