/** The six converters of convert_UTF.c, each proved to compute Unicode.Convert. The source is
    the units from *sourceStart to sourceEnd; the target is a stretch of an array. */
module UnicodeConverters {
  import opened MachineWords
  import opened ByteBits
  import opened Unicode
  import opened UnicodeTheory
  import opened UnicodeConversions
  import opened UnicodeRoundTrips

  // ---------------------------------------------------------------- shared pieces of the loops

  /** ch shifted right by six bits, k times. */
  function Shifted(ch: u32, k: nat): (r: u32) {
    if k == 0 then ch else Shifted(ch, k - 1) / 64
  }

  /** The bytes of a character as the source computes them. */
  lemma {:induction false} BytesFromTheBack(ch: u32, j: nat)
    requires ch <= MAX_LEGAL_UTF32 && j < |Encode8(ch)|
    ensures var n := |Encode8(ch)|;
            && Shifted(ch, n - 1) < (if n == 1 then 0x80 else if n == 2 then 0x20 else if n == 3 then 0x10 else 0x08)
            && Encode8(ch)[j] == if j == 0 then FirstByte(Shifted(ch, n - 1), n)
                                 else ContinuationByte(Shifted(ch, n - 1 - j))
  {
    MoreDigits(ch);
    assert Shifted(ch, 1) == ch / 64;
    assert Shifted(ch, 2) == ch / 64 / 64;
    assert Shifted(ch, 3) == ch / 64 / 64 / 64;
  }

  /** Fills n bytes from the back (lines 261-272 and 437-448). */
  method PutUtf8(ch: u32, n: nat, target: array<u8>, at: nat)
    requires ch <= MAX_LEGAL_UTF32 && n == |Encode8(ch)| && at + n <= target.Length
    modifies target
    ensures target[at..at + n] == Encode8(ch)
    ensures forall i :: 0 <= i < target.Length && !(at <= i < at + n) ==> target[i] == old(target[i])
  {
    hide Encode8, ContinuationByte, FirstByte;
    var rest, k := ch, n;
    // The switch falls through: it is an unrolled loop (lines 530-531).
    while k > 1
      invariant 1 <= k <= n && rest == Shifted(ch, n - k)
      invariant forall j :: k <= j < n ==> target[at + j] == Encode8(ch)[j]
      invariant forall i :: 0 <= i < target.Length && !(at <= i < at + n) ==> target[i] == old(target[i])
    {
      k := k - 1;
      BytesFromTheBack(ch, k);
      target[at + k] := ContinuationByte(rest);
      rest := rest / 64;
    }
    BytesFromTheBack(ch, 0);
    target[at] := FirstByte(rest, n);
    assert forall j :: 0 <= j < n ==> target[at..at + n][j] == Encode8(ch)[j];
  }

  /** How many bytes the result will require (lines 253-259 and 428-435). */
  function BytesToWrite(ch: u32): (n: nat)
    requires ch <= MAX_LEGAL_UTF32
    ensures n == |Encode8(ch)|
  {
    if ch < 0x80 then 1 else if ch < 0x800 then 2 else if ch < 0x10000 then 3 else 4
  }

  /** Reads one character at position at (lines 339-360 and 463-484). */
  method GetUtf8(source: seq<u8>, at: nat) returns (c: Character)
    requires at < |source|
    ensures c == Read8(source[at..])
    ensures c.Char? ==> IsScalar(c.ch)
    ensures c.Bad? ==> c.result == SourceExhausted || c.result == SourceIllegal
    ensures c == Bad(SourceExhausted) <==> |source| <= at + TrailingBytes(source[at])
  {
    hide IsLegalUtf8, Packed, IsScalar, Encode8;
    var extra := TrailingBytes(source[at]);
    if at + extra >= |source| {
      return Bad(SourceExhausted);
    }
    ghost var s := source[at..][..extra + 1];
    assert s == source[at..at + extra + 1];
    if !IsLegalUtf8(source[at..at + extra + 1]) {
      return Bad(SourceIllegal);
    }
    LegalValueIsScalar(s);
    PackedValue(s);
    var ch: u32, p := 0, at;
    if extra >= 3 {
      ch := ch + source[p];
      p, ch := p + 1, ch * 64;
    }
    if extra >= 2 {
      ch := ch + source[p];
      p, ch := p + 1, ch * 64;
    }
    if extra >= 1 {
      ch := ch + source[p];
      p, ch := p + 1, ch * 64;
    }
    ch := ch + source[p];
    ch := ch - OffsetFromUtf8(extra);
    c := Char(ch, extra + 1);
  }

  /** isLegalUTF8Sequence: whether the sequence starts with a character that the readers accept,
      which means one of RFC 3629 or a lax one. */
  method IsLegalUtf8Sequence(source: seq<u8>) returns (legal: bool)
    requires source != []
    ensures legal <==> Read8(source).Char?
    ensures legal ==> var s := source[..Read8(source).length]; IsRfc3629Char(s) || IsLax(s)
  {
    hide IsLax, IsRfc3629Char, Packed;
    var length := TrailingBytes(source[0]) + 1;
    if length > |source| {
      return false;
    }
    LegalityIsExact(source[..length]);
    return IsLegalUtf8(source[..length]);
  }

  /** Reads one character at position at (lines 116-145 and 222-251). */
  method GetUtf16(source: seq<u16>, at: nat, flags: Flags) returns (c: Character)
    requires at < |source|
    ensures c == Read16(source[at..], flags)
    ensures c.Char? ==> 0 <= c.ch <= MAX_LEGAL_UTF32
    ensures c.Bad? ==> c.result != ConversionOK
  {
    var ch: u32 := source[at];
    var n := 1;
    if 0xD800 <= ch <= 0xDBFF {
      if at + 1 < |source| {
        var ch2 := source[at + 1];
        if 0xDC00 <= ch2 <= 0xDFFF {
          ch := (ch - 0xD800) * 1024 + (ch2 - 0xDC00) + 0x10000;
          n := 2;
        } else if flags == Strict {
          return Bad(SourceIllegal);
        }
      } else {
        return Bad(SourceExhausted);
      }
    } else if flags == Strict {
      if 0xDC00 <= ch <= 0xDFFF {
        return Bad(SourceIllegal);
      }
    }
    c := Char(ch, n);
  }

  /** Writes one or two units (lines 377, 393-395 and 83, 97-99). */
  method PutUtf16(ch: u32, target: array<u16>, at: nat) returns (t: nat)
    requires ch <= MAX_LEGAL_UTF32 && at + |Encode16(ch)| <= target.Length
    modifies target
    ensures t == at + |Encode16(ch)| && target[at..t] == Encode16(ch)
    ensures forall i :: 0 <= i < target.Length && !(at <= i < t) ==> target[i] == old(target[i])
  {
    t := at;
    if ch <= 0xFFFF {
      target[t] := ch;
      t := t + 1;
    } else {
      var rest := ch - 0x10000;
      target[t] := rest / 1024 + 0xD800;
      t := t + 1;
      target[t] := rest % 1024 + 0xDC00;
      t := t + 1;
    }
  }

  /** One round from UTF-32, in terms of the unit at hand. */
  lemma {:induction false} NextFromUtf32(to: Form, flags: Flags, src: seq<int>, room: nat)
    requires to != Utf32 && src != []
    ensures var ch := src[0];
            Next(Utf32, to, flags, src, room)
            == if to == Utf16 && room == 0 then Stop(TargetExhausted)
               else if IsSurrogate(ch) && flags == Strict then Stop(SourceIllegal)
               else if to == Utf16 && IsSurrogate(ch) then Take(1, [REPLACEMENT_CHAR], false)
               else if to == Utf16 && ch > MAX_LEGAL_UTF32 then
                 Take(1, if flags == Strict then [] else [REPLACEMENT_CHAR], flags == Strict)
               else if ch > MAX_LEGAL_UTF32 then Fit(1, Encode(to, REPLACEMENT_CHAR), true, room)
               else Fit(1, Encode(to, ch), false, room)
  {
  }

  lemma {:induction false} Extended(was: seq<int>, now: seq<int>, start: nat, at: nat, t: nat, out: seq<int>)
    requires start <= at <= t <= |now| == |was| && now[at..t] == out
    requires forall i :: start <= i < at ==> now[i] == was[i]
    ensures now[start..t] == was[start..at] + out
  {
  }

  // ---------------------------------------------------------------- the loops

  /** Having read at units and written the given ones, with or without the sourceIllegal flag,
      the rest of the conversion is what is left to do of the whole. */
  ghost predicate Progress(from: Form, to: Form, flags: Flags, src: seq<int>, room: nat,
                           at: nat, flagged: bool, written: seq<int>)
  {
    && at <= |src| && |written| <= room
    && Convert(from, to, flags, src, room)
       == Then(Conversion(ConversionOK, at, written), flagged,
               Convert(from, to, flags, src[at..], room - |written|))
  }

  lemma {:induction false} ProgressStarts(from: Form, to: Form, flags: Flags, src: seq<int>, room: nat)
    ensures Progress(from, to, flags, src, room, 0, false, [])
  {
    hide Convert;
    assert src[0..] == src;
    assert [] + Convert(from, to, flags, src, room).out == Convert(from, to, flags, src, room).out;
  }

  lemma {:induction false} ProgressTakes(from: Form, to: Form, flags: Flags, src: seq<int>, room: nat,
                                         at: nat, flagged: bool, written: seq<int>, n: nat, out: seq<int>, flag: bool)
    requires Progress(from, to, flags, src, room, at, flagged, written) && at < |src|
    requires Next(from, to, flags, src[at..], room - |written|) == Take(n, out, flag)
    ensures n <= |src| - at && |out| <= room - |written|
    ensures Progress(from, to, flags, src, room, at + n, flagged || flag, written + out)
  {
    hide Next, Convert;
    ConvertRound(from, to, flags, src[at..], room - |written|, n, out, flag);
    assert src[at..][n..] == src[at + n..];
    ThenAssociates(Conversion(ConversionOK, at, written), flagged, Conversion(ConversionOK, n, out), flag,
                   Convert(from, to, flags, src[at + n..], room - |written + out|));
  }

  lemma {:induction false} ProgressStops(from: Form, to: Form, flags: Flags, src: seq<int>, room: nat,
                                         at: nat, flagged: bool, written: seq<int>, result: ConversionResult)
    requires Progress(from, to, flags, src, room, at, flagged, written) && at < |src|
    requires Next(from, to, flags, src[at..], room - |written|) == Stop(result) && result != ConversionOK
    ensures Convert(from, to, flags, src, room) == Conversion(result, at, written)
  {
    hide Next;
    assert Convert(from, to, flags, src[at..], room - |written|) == Conversion(result, 0, []);
    assert written + [] == written;
  }

  lemma {:induction false} ProgressEnds(from: Form, to: Form, flags: Flags, src: seq<int>, room: nat,
                                        at: nat, flagged: bool, written: seq<int>)
    requires Progress(from, to, flags, src, room, at, flagged, written) && at == |src|
    ensures Convert(from, to, flags, src, room)
            == Conversion(if flagged then SourceIllegal else ConversionOK, at, written)
  {
    assert written + [] == written;
  }

  method ConvertUTF8toUTF32(source: seq<u8>, target: array<u32>, targetStart: nat, targetEnd: nat, flags: Flags)
    returns (result: ConversionResult, at: nat, t: nat)
    requires targetStart <= targetEnd <= target.Length
    modifies target
    ensures targetStart <= t <= targetEnd
    ensures Convert(Utf8, Utf32, flags, source, targetEnd - targetStart)
            == Conversion(result, at, target[targetStart..t])
    ensures forall i :: 0 <= i < target.Length && !(targetStart <= i < t) ==> target[i] == old(target[i])
  {
    hide Next, Convert, Read8, Progress;
    ghost var room := targetEnd - targetStart;
    result, at, t := ConversionOK, 0, targetStart;
    ProgressStarts(Utf8, Utf32, flags, source, room);
    assert target[targetStart..t] == [];
    while at < |source|
      invariant at <= |source| && targetStart <= t <= targetEnd && result == ConversionOK
      invariant Progress(Utf8, Utf32, flags, source, room, at, false, target[targetStart..t])
      invariant forall i :: 0 <= i < target.Length && !(targetStart <= i < t) ==> target[i] == old(target[i])
    {
      ghost var written := target[targetStart..t];
      NextIsReadThenEncode(Utf8, Utf32, flags, source[at..], room - |written|);
      var c := GetUtf8(source, at);
      if c.Bad? {
        result := c.result;
        ProgressStops(Utf8, Utf32, flags, source, room, at, false, written, result);
        return;
      }
      // ch is a scalar value: the branches at lines 495-502 and 506-509 are never taken.
      if t >= targetEnd {
        result := TargetExhausted;
        ProgressStops(Utf8, Utf32, flags, source, room, at, false, written, result);
        return;
      }
      ProgressTakes(Utf8, Utf32, flags, source, room, at, false, written, c.length, [c.ch], false);
      target[t] := c.ch;
      at, t := at + c.length, t + 1;
      assert target[targetStart..t] == written + [c.ch];
    }
    ProgressEnds(Utf8, Utf32, flags, source, room, at, false, target[targetStart..t]);
  }

  method ConvertUTF8toUTF16(source: seq<u8>, target: array<u16>, targetStart: nat, targetEnd: nat, flags: Flags)
    returns (result: ConversionResult, at: nat, t: nat)
    requires targetStart <= targetEnd <= target.Length
    modifies target
    ensures targetStart <= t <= targetEnd
    ensures Convert(Utf8, Utf16, flags, source, targetEnd - targetStart)
            == Conversion(result, at, target[targetStart..t])
    ensures forall i :: 0 <= i < target.Length && !(targetStart <= i < t) ==> target[i] == old(target[i])
  {
    hide Next, Convert, Progress, Then, Flagged, Read8;
    ghost var room := targetEnd - targetStart;
    result, at, t := ConversionOK, 0, targetStart;
    ProgressStarts(Utf8, Utf16, flags, source, room);
    assert target[targetStart..t] == [];
    while at < |source|
      invariant at <= |source| && targetStart <= t <= targetEnd && result == ConversionOK
      invariant Progress(Utf8, Utf16, flags, source, room, at, false, target[targetStart..t])
      invariant forall i :: 0 <= i < target.Length && !(targetStart <= i < t) ==> target[i] == old(target[i])
    {
      ghost var written := target[targetStart..t];
      NextIsReadThenEncode(Utf8, Utf16, flags, source[at..], room - |written|);
      var c := GetUtf8(source, at);
      if c.Bad? {
        result := c.result;
        ProgressStops(Utf8, Utf16, flags, source, room, at, false, written, result);
        return;
      }
      var ch: u32 := c.ch;
      // ch is a scalar value: the branches at lines 368-375 and 379-386 are never taken.
      if t >= targetEnd || (ch > 0xFFFF && t + 1 >= targetEnd) {
        result := TargetExhausted;
        ProgressStops(Utf8, Utf16, flags, source, room, at, false, written, result);
        return;
      }
      ProgressTakes(Utf8, Utf16, flags, source, room, at, false, written, c.length, Encode16(ch), false);
      ghost var before, from := target[..], t;
      at := at + c.length;
      t := PutUtf16(ch, target, t);
      Extended(before, target[..], targetStart, from, t, Encode16(ch));
    }
    ProgressEnds(Utf8, Utf16, flags, source, room, at, false, target[targetStart..t]);
  }

  method ConvertUTF16toUTF32(source: seq<u16>, target: array<u32>, targetStart: nat, targetEnd: nat, flags: Flags)
    returns (result: ConversionResult, at: nat, t: nat)
    requires targetStart <= targetEnd <= target.Length
    modifies target
    ensures targetStart <= t <= targetEnd
    ensures Convert(Utf16, Utf32, flags, source, targetEnd - targetStart)
            == Conversion(result, at, target[targetStart..t])
    ensures forall i :: 0 <= i < target.Length && !(targetStart <= i < t) ==> target[i] == old(target[i])
  {
    hide Next, Convert, Progress, Then, Flagged, Read16;
    ghost var room := targetEnd - targetStart;
    result, at, t := ConversionOK, 0, targetStart;
    ProgressStarts(Utf16, Utf32, flags, source, room);
    assert target[targetStart..t] == [];
    while at < |source|
      invariant at <= |source| && targetStart <= t <= targetEnd && result == ConversionOK
      invariant Progress(Utf16, Utf32, flags, source, room, at, false, target[targetStart..t])
      invariant forall i :: 0 <= i < target.Length && !(targetStart <= i < t) ==> target[i] == old(target[i])
    {
      ghost var written := target[targetStart..t];
      assert AreUnits(Utf16, source[at..]);
      NextIsReadThenEncode(Utf16, Utf32, flags, source[at..], room - |written|);
      var c := GetUtf16(source, at, flags);
      if c.Bad? {
        result := c.result;
        ProgressStops(Utf16, Utf32, flags, source, room, at, false, written, result);
        return;
      }
      if t >= targetEnd {
        result := TargetExhausted;
        ProgressStops(Utf16, Utf32, flags, source, room, at, false, written, result);
        return;
      }
      ProgressTakes(Utf16, Utf32, flags, source, room, at, false, written, c.length, [c.ch], false);
      target[t] := c.ch;
      at, t := at + c.length, t + 1;
      assert target[targetStart..t] == written + [c.ch];
    }
    ProgressEnds(Utf16, Utf32, flags, source, room, at, false, target[targetStart..t]);
  }

  method ConvertUTF16toUTF8(source: seq<u16>, target: array<u8>, targetStart: nat, targetEnd: nat, flags: Flags)
    returns (result: ConversionResult, at: nat, t: nat)
    requires targetStart <= targetEnd <= target.Length
    modifies target
    ensures targetStart <= t <= targetEnd
    ensures Convert(Utf16, Utf8, flags, source, targetEnd - targetStart)
            == Conversion(result, at, target[targetStart..t])
    ensures forall i :: 0 <= i < target.Length && !(targetStart <= i < t) ==> target[i] == old(target[i])
  {
    hide Next, Convert, Progress, Then, Flagged, Read16, Encode8, BytesToWrite;
    ghost var room := targetEnd - targetStart;
    result, at, t := ConversionOK, 0, targetStart;
    ProgressStarts(Utf16, Utf8, flags, source, room);
    assert target[targetStart..t] == [];
    while at < |source|
      invariant at <= |source| && targetStart <= t <= targetEnd && result == ConversionOK
      invariant Progress(Utf16, Utf8, flags, source, room, at, false, target[targetStart..t])
      invariant forall i :: 0 <= i < target.Length && !(targetStart <= i < t) ==> target[i] == old(target[i])
    {
      ghost var written := target[targetStart..t];
      assert AreUnits(Utf16, source[at..]);
      NextIsReadThenEncode(Utf16, Utf8, flags, source[at..], room - |written|);
      var c := GetUtf16(source, at, flags);
      if c.Bad? {
        result := c.result;
        ProgressStops(Utf16, Utf8, flags, source, room, at, false, written, result);
        return;
      }
      // A UTF-16 source cannot give a value above 0x10FFFF, so line 258 is never reached.
      var ch: u32 := c.ch;
      var bytesToWrite := BytesToWrite(ch);
      if t + bytesToWrite > targetEnd {
        result := TargetExhausted;
        ProgressStops(Utf16, Utf8, flags, source, room, at, false, written, result);
        return;
      }
      ProgressTakes(Utf16, Utf8, flags, source, room, at, false, written, c.length, Encode8(ch), false);
      ghost var before := target[..];
      PutUtf8(ch, bytesToWrite, target, t);
      Extended(before, target[..], targetStart, t, t + bytesToWrite, Encode8(ch));
      at, t := at + c.length, t + bytesToWrite;
    }
    ProgressEnds(Utf16, Utf8, flags, source, room, at, false, target[targetStart..t]);
  }

  method ConvertUTF32toUTF16(source: seq<u32>, target: array<u16>, targetStart: nat, targetEnd: nat, flags: Flags)
    returns (result: ConversionResult, at: nat, t: nat)
    requires targetStart <= targetEnd <= target.Length
    modifies target
    ensures targetStart <= t <= targetEnd
    ensures Convert(Utf32, Utf16, flags, source, targetEnd - targetStart)
            == Conversion(result, at, target[targetStart..t])
    ensures forall i :: 0 <= i < target.Length && !(targetStart <= i < t) ==> target[i] == old(target[i])
  {
    hide Next, Convert, Progress, Then, Flagged;
    ghost var room := targetEnd - targetStart;
    result, at, t := ConversionOK, 0, targetStart;
    ProgressStarts(Utf32, Utf16, flags, source, room);
    assert target[targetStart..t] == [];
    while at < |source|
      invariant at <= |source| && targetStart <= t <= targetEnd && (result == ConversionOK || result == SourceIllegal)
      invariant Progress(Utf32, Utf16, flags, source, room, at, result == SourceIllegal, target[targetStart..t])
      invariant forall i :: 0 <= i < target.Length && !(targetStart <= i < t) ==> target[i] == old(target[i])
    {
      ghost var written := target[targetStart..t];
      ghost var flagged := result == SourceIllegal;
      var ch := source[at];
      NextFromUtf32(Utf16, flags, source[at..], room - |written|);
      if t >= targetEnd {
        result := TargetExhausted;
        ProgressStops(Utf32, Utf16, flags, source, room, at, flagged, written, result);
        return;
      }
      if ch <= 0xFFFF {
        if 0xD800 <= ch <= 0xDFFF {
          if flags == Strict {
            result := SourceIllegal;
            ProgressStops(Utf32, Utf16, flags, source, room, at, flagged, written, result);
            return;
          } else {
            ProgressTakes(Utf32, Utf16, flags, source, room, at, flagged, written, 1, [REPLACEMENT_CHAR], false);
            target[t] := REPLACEMENT_CHAR;
            at, t := at + 1, t + 1;
            assert target[targetStart..t] == written + [REPLACEMENT_CHAR];
          }
        } else {
          ProgressTakes(Utf32, Utf16, flags, source, room, at, flagged, written, 1, [ch], false);
          target[t] := ch;
          at, t := at + 1, t + 1;
          assert target[targetStart..t] == written + [ch];
        }
      } else if ch > MAX_LEGAL_UTF32 {
        if flags == Strict {
          ProgressTakes(Utf32, Utf16, flags, source, room, at, flagged, written, 1, [], true);
          result, at := SourceIllegal, at + 1;
          assert written + [] == written;
        } else {
          ProgressTakes(Utf32, Utf16, flags, source, room, at, flagged, written, 1, [REPLACEMENT_CHAR], false);
          target[t] := REPLACEMENT_CHAR;
          at, t := at + 1, t + 1;
          assert target[targetStart..t] == written + [REPLACEMENT_CHAR];
        }
      } else {
        if t + 1 >= targetEnd {
          result := TargetExhausted;
          ProgressStops(Utf32, Utf16, flags, source, room, at, flagged, written, result);
          return;
        }
        ProgressTakes(Utf32, Utf16, flags, source, room, at, flagged, written, 1, Encode16(ch), false);
        ghost var before, from := target[..], t;
        at := at + 1;
        t := PutUtf16(ch, target, t);
        Extended(before, target[..], targetStart, from, t, Encode16(ch));
      }
    }
    ProgressEnds(Utf32, Utf16, flags, source, room, at, result == SourceIllegal, target[targetStart..t]);
  }

  method ConvertUTF32toUTF8(source: seq<u32>, target: array<u8>, targetStart: nat, targetEnd: nat, flags: Flags)
    returns (result: ConversionResult, at: nat, t: nat)
    requires targetStart <= targetEnd <= target.Length
    modifies target
    ensures targetStart <= t <= targetEnd
    ensures Convert(Utf32, Utf8, flags, source, targetEnd - targetStart)
            == Conversion(result, at, target[targetStart..t])
    ensures forall i :: 0 <= i < target.Length && !(targetStart <= i < t) ==> target[i] == old(target[i])
  {
    hide Next, Convert, Progress, Then, Flagged, Encode8, BytesToWrite;
    ghost var room := targetEnd - targetStart;
    result, at, t := ConversionOK, 0, targetStart;
    ProgressStarts(Utf32, Utf8, flags, source, room);
    assert target[targetStart..t] == [];
    while at < |source|
      invariant at <= |source| && targetStart <= t <= targetEnd && (result == ConversionOK || result == SourceIllegal)
      invariant Progress(Utf32, Utf8, flags, source, room, at, result == SourceIllegal, target[targetStart..t])
      invariant forall i :: 0 <= i < target.Length && !(targetStart <= i < t) ==> target[i] == old(target[i])
    {
      ghost var written := target[targetStart..t];
      ghost var flagged := result == SourceIllegal;
      var ch := source[at];
      NextFromUtf32(Utf8, flags, source[at..], room - |written|);
      if flags == Strict {
        if 0xD800 <= ch <= 0xDFFF {
          result := SourceIllegal;
          ProgressStops(Utf32, Utf8, flags, source, room, at, flagged, written, result);
          return;
        }
      }
      ghost var flag := ch > MAX_LEGAL_UTF32;
      if ch > MAX_LEGAL_UTF32 {
        ch := REPLACEMENT_CHAR;
        result := SourceIllegal;
      }
      var bytesToWrite := BytesToWrite(ch);
      if t + bytesToWrite > targetEnd {
        result := TargetExhausted;
        ProgressStops(Utf32, Utf8, flags, source, room, at, flagged, written, result);
        return;
      }
      ProgressTakes(Utf32, Utf8, flags, source, room, at, flagged, written, 1, Encode8(ch), flag);
      ghost var before := target[..];
      PutUtf8(ch, bytesToWrite, target, t);
      Extended(before, target[..], targetStart, t, t + bytesToWrite, Encode8(ch));
      at, t := at + 1, t + bytesToWrite;
    }
    ProgressEnds(Utf32, Utf8, flags, source, room, at, result == SourceIllegal, target[targetStart..t]);
  }
}
