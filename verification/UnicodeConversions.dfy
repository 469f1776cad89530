/** Whole conversions: restarts, decoding then encoding, and round trips. */
module UnicodeConversions {
  import opened Unicode
  import opened UnicodeTheory

  // ---------------------------------------------------------------- restarting

  /** More source and more room do not change a round that reads a character. */
  lemma {:induction false} NextIsStable(
    from: Form, to: Form, flags: Flags, src: seq<int>, more: seq<int>, room: nat, extra: nat)
    requires src != [] && Next(from, to, flags, src, room).Take?
    ensures Next(from, to, flags, src + more, room + extra) == Next(from, to, flags, src, room)
  {
    hide Encode, IsSurrogate, TrailingBytes;
    if from == Utf8 {
      var n := TrailingBytes(src[0]) + 1;
      assert (src + more)[..n] == src[..n];
    }
  }

  /** The rounds of this call set the result to sourceIllegal and went on. */
  function Flagged(from: Form, to: Form, flags: Flags, src: seq<int>, room: nat): bool
    decreases |src|
  {
    src != []
    && match Next(from, to, flags, src, room)
       case Stop(_) => false
       case Take(n, out, flagged) => flagged || Flagged(from, to, flags, src[n..], room - |out|)
  }

  /** The first round ends the call. */
  lemma {:induction false} ConvertStops(from: Form, to: Form, flags: Flags, src: seq<int>, room: nat)
    requires src == [] || Next(from, to, flags, src, room).Stop?
    ensures var c := Convert(from, to, flags, src, room); c == Conversion(c.result, 0, [])
    ensures !Flagged(from, to, flags, src, room)
  {
    hide Next;
  }

  /** One round and the rest of the call. */
  lemma {:induction false} ConvertRound(
    from: Form, to: Form, flags: Flags, src: seq<int>, room: nat, n: nat, out: seq<int>, flagged: bool)
    requires src != [] && Next(from, to, flags, src, room) == Take(n, out, flagged)
    ensures 1 <= n <= |src| && |out| <= room
    ensures Convert(from, to, flags, src, room)
            == Then(Conversion(ConversionOK, n, out), flagged, Convert(from, to, flags, src[n..], room - |out|))
    ensures Convert(from, to, flags, src, room).consumed
            == n + Convert(from, to, flags, src[n..], room - |out|).consumed
    ensures !flagged ==>
              Convert(from, to, flags, src, room).result == Convert(from, to, flags, src[n..], room - |out|).result
    ensures Convert(from, to, flags, src, room).out == out + Convert(from, to, flags, src[n..], room - |out|).out
    ensures Flagged(from, to, flags, src, room) == (flagged || Flagged(from, to, flags, src[n..], room - |out|))
  {
    hide Next, Convert, Flagged;
    RoundOf(from, to, flags, src, room, n, out, flagged);
    FlagOf(from, to, flags, src, room, n, out, flagged);
  }

  lemma {:induction false} FlagOf(
    from: Form, to: Form, flags: Flags, src: seq<int>, room: nat, n: nat, out: seq<int>, flagged: bool)
    requires src != [] && Next(from, to, flags, src, room) == Take(n, out, flagged)
    ensures Flagged(from, to, flags, src, room) == (flagged || Flagged(from, to, flags, src[n..], room - |out|))
  {
    hide Next;
  }

  lemma {:induction false} RoundOf(
    from: Form, to: Form, flags: Flags, src: seq<int>, room: nat, n: nat, out: seq<int>, flagged: bool)
    requires src != [] && Next(from, to, flags, src, room) == Take(n, out, flagged)
    ensures Convert(from, to, flags, src, room)
            == Then(Conversion(ConversionOK, n, out), flagged, Convert(from, to, flags, src[n..], room - |out|))
  {
    hide Next, Then;
  }

  lemma {:induction false} ThenAssociates(a: Conversion, f: bool, b: Conversion, g: bool, c: Conversion)
    ensures Then(a, f, Then(b, g, c)) == Then(Then(a, f, b), f || g, c)
  {
    assert a.out + (b.out + c.out) == (a.out + b.out) + c.out;
  }

  lemma {:induction false} ThenFromStart(a: Conversion, c: Conversion)
    requires a.consumed == 0 && a.out == []
    ensures Then(a, false, c) == c
  {
    assert [] + c.out == c.out;
  }

  /** Resuming at the pointers a call returned, with more source or more room, gives what one
      call on everything gives; only a flag raised on the way is lost. */
  lemma {:induction false} Restart(
    from: Form, to: Form, flags: Flags, src: seq<int>, more: seq<int>, room: nat, extra: nat)
    ensures var first := Convert(from, to, flags, src, room);
            Convert(from, to, flags, src + more, room + extra)
            == Then(first, Flagged(from, to, flags, src, room),
                    Convert(from, to, flags, (src + more)[first.consumed..], room + extra - |first.out|))
    decreases |src|
  {
    hide *;
    var all := src + more;
    var call := Convert(from, to, flags, src, room);
    if src == [] || Next(from, to, flags, src, room).Stop? {
      ConvertStops(from, to, flags, src, room);
      assert all[0..] == all;
      ThenFromStart(call, Convert(from, to, flags, all, room + extra));
    } else {
      var Take(n, out, flagged) := Next(from, to, flags, src, room);
      NextIsStable(from, to, flags, src, more, room, extra);
      ConvertRound(from, to, flags, src, room, n, out, flagged);
      ConvertRound(from, to, flags, all, room + extra, n, out, flagged);
      Restart(from, to, flags, src[n..], more, room - |out|, extra);
      assert all[n..] == src[n..] + more;
      var left := room + extra - |out|;
      var first := Convert(from, to, flags, src[n..], room - |out|);
      assert all[call.consumed..] == all[n..][first.consumed..];
      ThenAssociates(Conversion(ConversionOK, n, out), flagged, first, Flagged(from, to, flags, src[n..], room - |out|),
                     Convert(from, to, flags, all[n..][first.consumed..], left - |first.out|));
    }
  }

  lemma {:induction false} SmallUtf32Rounds(src: seq<int>, room: nat)
    requires src != []
    ensures src[0] == 0x110000 ==> Next(Utf32, Utf16, Strict, src, room) == Take(1, [], true) || room == 0
    ensures 0 <= src[0] < 0x80 ==>
              Next(Utf32, Utf16, Strict, src, room)
              == if room == 0 then Stop(TargetExhausted) else Take(1, [src[0]], false)
  {
  }

  /** Such a flag: this call stops for lack of room, resuming ends well, and one call with room ends
      with sourceIllegal. */
  lemma {:induction false} RestartForgets()
    ensures var src := [0x110000, 0x41, 0x42];
            && Convert(Utf32, Utf16, Strict, src, 1) == Conversion(TargetExhausted, 2, [0x41])
            && Convert(Utf32, Utf16, Strict, src[2..], 1) == Conversion(ConversionOK, 1, [0x42])
            && Convert(Utf32, Utf16, Strict, src, 2) == Conversion(SourceIllegal, 3, [0x41, 0x42])
  {
    hide Next, Convert;
    var all, ab, b := [0x110000, 0x41, 0x42], [0x41, 0x42], [0x42];
    assert all[1..] == ab && all[2..] == b && ab[1..] == b && b[1..] == [];
    LettersConvert(ab, b, 1);
    SmallUtf32Rounds(all, 1);
    SmallUtf32Rounds(all, 2);
    RoundOf(Utf32, Utf16, Strict, all, 1, 1, [], true);
    RoundOf(Utf32, Utf16, Strict, all, 2, 1, [], true);
  }

  lemma {:induction false} LettersConvert(ab: seq<int>, b: seq<int>, room: nat)
    requires |ab| == 2 && |b| == 1 && ab[1..] == b && room == 1
    requires 0 <= ab[0] < 0x80 && 0 <= b[0] < 0x80
    ensures Convert(Utf32, Utf16, Strict, b, room) == Conversion(ConversionOK, 1, b)
    ensures Convert(Utf32, Utf16, Strict, ab, room) == Conversion(TargetExhausted, 1, [ab[0]])
    ensures Convert(Utf32, Utf16, Strict, ab, room + 1) == Conversion(ConversionOK, 2, ab)
  {
    hide Next;
    SmallUtf32Rounds(ab, room);
    SmallUtf32Rounds(ab, room + 1);
    SmallUtf32Rounds(b, 0);
    SmallUtf32Rounds(b, room);
    assert b[1..] == [];
  }

  lemma {:induction false} RoundFlagIsExact(from: Form, to: Form, flags: Flags, src: seq<int>, room: nat)
    requires src != [] && AreUnits(from, src) && Next(from, to, flags, src, room).Take?
    ensures Next(from, to, flags, src, room).flagged
            <==> from == Utf32 && (to == Utf16 ==> flags == Strict) && src[0] > MAX_LEGAL_UTF32
    ensures from == Utf32 ==> Next(from, to, flags, src, room).length == 1
  {
    ReadValueIsScalar(from, src);
  }

  /** Only UTF-32 values above 0x10FFFF raise the flag. */
  lemma {:induction false} FlagIsExact(from: Form, to: Form, flags: Flags, src: seq<int>, room: nat)
    requires AreUnits(from, src)
    ensures Flagged(from, to, flags, src, room)
            <==> && from == Utf32 && (to == Utf16 ==> flags == Strict)
                 && exists i :: 0 <= i < Convert(from, to, flags, src, room).consumed && src[i] > MAX_LEGAL_UTF32
    decreases |src|
  {
    hide Next, Convert, Flagged, Then;
    if src == [] || Next(from, to, flags, src, room).Stop? {
      ConvertStops(from, to, flags, src, room);
    } else {
      var Take(n, out, flagged) := Next(from, to, flags, src, room);
      ConvertRound(from, to, flags, src, room, n, out, flagged);
      RoundFlagIsExact(from, to, flags, src, room);
      FlagIsExact(from, to, flags, src[n..], room - |out|);
      var rest := Convert(from, to, flags, src[n..], room - |out|).consumed;
      assert forall i :: 0 <= i < rest ==> src[n..][i] == src[n + i];
      if i :| 0 <= i < n + rest && src[i] > MAX_LEGAL_UTF32 {
        assert i >= n ==> src[n..][i - n] > MAX_LEGAL_UTF32;
      }
    }
  }

  /** What the UTF-8 readers subtract down to is a scalar value. */
  lemma {:induction false} ReadValueIsScalar(from: Form, src: seq<int>)
    requires src != [] && AreUnits(from, src)
    ensures from == Utf8 && Read8(src).Char? ==>
              var s := src[..Read8(src).length];
              && IsScalar(Read8(src).ch) && |Encode8(Read8(src).ch)| == |s|
              && (s == Encode8(Read8(src).ch) <==> !IsLax(s))
  {
    if from == Utf8 && Read8(src).Char? {
      LegalValueIsScalar(src[..Read8(src).length]);
    }
  }
}
