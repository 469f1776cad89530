/** Why conversions end early: what sourceExhausted and sourceIllegal mean, and what becomes of units that
    are no characters. */
module UnicodeFailures {
  import opened Unicode
  import opened UnicodeTheory
  import opened UnicodeConversions
  import opened UnicodeRoundTrips

  // ---------------------------------------------------------------- cut short

  /** A text that ends inside a character is converted up to that character, and the source is then
      exhausted. */
  lemma {:induction false} CutShortIsExhausted(
    from: Form, to: Form, flags: Flags, cs: seq<int>, ch: int, k: nat, room: nat)
    requires from != Utf32 && from != to && AreScalars(cs) && IsScalar(ch) && 0 < k < |Encode(from, ch)|
    requires |EncodeAll(to, cs)| <= room
    ensures Convert(from, to, flags, EncodeAll(from, cs) + Encode(from, ch)[..k], room)
            == Conversion(SourceExhausted, |EncodeAll(from, cs)|, EncodeAll(to, cs))
  {
    hide Next, Encode, Then, IsScalar, Convert;
    var part := Encode(from, ch)[..k];
    var src := EncodeAll(from, cs) + part;
    if cs == [] {
      assert src == part;
      PartIsNotRead(from, to, flags, ch, k, room);
      StopIsResult(from, to, flags, src, room);
    } else {
      var rest, out := EncodeAll(from, cs[1..]) + part, Encode(to, cs[0]);
      assert src == Encode(from, cs[0]) + rest;
      EncodedIsTaken(from, to, flags, cs[0], rest, room);
      ConvertRound(from, to, flags, src, room, |Encode(from, cs[0])|, out, false);
      assert src[|Encode(from, cs[0])|..] == rest;
      CutShortIsExhausted(from, to, flags, cs[1..], ch, k, room - |out|);
    }
  }

  lemma {:induction false} PartIsNotRead(from: Form, to: Form, flags: Flags, ch: int, k: nat, room: nat)
    requires from != Utf32 && IsScalar(ch) && 0 < k < |Encode(from, ch)|
    ensures Next(from, to, flags, Encode(from, ch)[..k], room) == Stop(SourceExhausted)
  {
    if from == Utf8 {
      EncodedIsLegal(ch);
      hide Encode8;
    }
  }

  // ---------------------------------------------------------------- illegal means for good

  lemma {:induction false} IllegalIsLocal(from: Form, flags: Flags, src: seq<int>, more: seq<int>)
    requires from != Utf32 && src != [] && ReadOne(from, flags, src) == Bad(SourceIllegal)
    ensures ReadOne(from, flags, src + more) == Bad(SourceIllegal)
  {
    if from == Utf8 {
      var n := TrailingBytes(src[0]) + 1;
      assert (src + more)[..n] == src[..n];
    }
  }

  /** Whatever follows and however much room there is, an illegal source stays illegal, with the same
      units read and written. */
  lemma {:induction false} IllegalStays(
    from: Form, to: Form, flags: Flags, src: seq<int>, more: seq<int>, room: nat, extra: nat)
    requires from != Utf32 && AreUnits(from, src) && AreUnits(from, more)
    requires Convert(from, to, flags, src, room).result == SourceIllegal
    ensures Convert(from, to, flags, src + more, room + extra) == Convert(from, to, flags, src, room)
    decreases |src|
  {
    hide Next, Encode, ReadOne, Convert, Then;
    var all := src + more;
    NothingConverts(from, to, flags, room);
    NextIsReadThenEncode(from, to, flags, src, room);
    if Next(from, to, flags, src, room).Stop? {
      StopIsResult(from, to, flags, src, room);
      IllegalIsLocal(from, flags, src, more);
      NextIsReadThenEncode(from, to, flags, all, room + extra);
      StopIsResult(from, to, flags, all, room + extra);
    } else {
      var Take(n, out, flagged) := Next(from, to, flags, src, room);
      NextIsStable(from, to, flags, src, more, room, extra);
      ConvertRound(from, to, flags, src, room, n, out, flagged);
      ConvertRound(from, to, flags, all, room + extra, n, out, flagged);
      assert all[n..] == src[n..] + more;
      IllegalStays(from, to, flags, src[n..], more, room - |out|, extra);
    }
  }

  lemma {:induction false} NothingConverts(from: Form, to: Form, flags: Flags, room: nat)
    ensures Convert(from, to, flags, [], room) == Conversion(ConversionOK, 0, [])
  {
  }

  lemma {:induction false} StopIsResult(from: Form, to: Form, flags: Flags, src: seq<int>, room: nat)
    requires src != [] && Next(from, to, flags, src, room).Stop?
    ensures Convert(from, to, flags, src, room) == Conversion(Next(from, to, flags, src, room).result, 0, [])
  {
    hide Next;
  }

  /** Source that completes a character, or shows that there is none. */
  function Completion(from: Form): (more: seq<int>) {
    if from == Utf8 then [0x80, 0x80, 0x80, 0x80, 0x80] else [0xDC00]
  }

  lemma {:induction false} CompletionIsRead(from: Form, flags: Flags, src: seq<int>)
    requires from != Utf32 && src != []
    ensures AreUnits(from, Completion(from))
    ensures var c := ReadOne(from, flags, src + Completion(from)); c.Char? || c == Bad(SourceIllegal)
    ensures ReadOne(from, flags, src) != Bad(TargetExhausted)
  {
    hide IsLegalUtf8, Packed;
  }

  /** A call that ended for lack of source or room does something else when given more of both. */
  lemma {:induction false} ExhaustedGoesOn(from: Form, to: Form, flags: Flags, src: seq<int>, room: nat)
    requires from != Utf32 && AreUnits(from, src)
    requires var r := Convert(from, to, flags, src, room).result; r == SourceExhausted || r == TargetExhausted
    ensures AreUnits(from, Completion(from))
    ensures Convert(from, to, flags, src + Completion(from), room + 4) != Convert(from, to, flags, src, room)
    decreases |src|
  {
    hide Next, Encode, ReadOne, Convert, Then, Completion, IsUnit;
    var more := Completion(from);
    var all := src + more;
    NothingConverts(from, to, flags, room);
    CompletionIsRead(from, flags, src);
    NextIsReadThenEncode(from, to, flags, src, room);
    NextIsReadThenEncode(from, to, flags, all, room + 4);
    if Next(from, to, flags, src, room).Stop? {
      StopIsResult(from, to, flags, src, room);
      if ReadOne(from, flags, src).Char? {
        ReadMoreOrElse(from, flags, src, more);
      }
      FourAreEnough(from, to, flags, all, room);
      match Next(from, to, flags, all, room + 4)
      case Stop(_) => StopIsResult(from, to, flags, all, room + 4);
      case Take(n, out, flagged) => ConvertRound(from, to, flags, all, room + 4, n, out, flagged);
    } else {
      var Take(n, out, flagged) := Next(from, to, flags, src, room);
      NextIsStable(from, to, flags, src, more, room, 4);
      ConvertRound(from, to, flags, src, room, n, out, flagged);
      ConvertRound(from, to, flags, all, room + 4, n, out, flagged);
      assert all[n..] == src[n..] + more;
      ExhaustedGoesOn(from, to, flags, src[n..], room - |out|);
      SameWithFront(out, Convert(from, to, flags, src[n..], room - |out|).out,
                    Convert(from, to, flags, all[n..], room + 4 - |out|).out);
    }
  }

  lemma {:induction false} FourAreEnough(from: Form, to: Form, flags: Flags, src: seq<int>, room: nat)
    requires from != Utf32 && src != [] && AreUnits(from, src)
    ensures ReadOne(from, flags, src).Char? ==> Next(from, to, flags, src, room + 4).Take?
    ensures ReadOne(from, flags, src).Bad? ==>
              Next(from, to, flags, src, room + 4) == Stop(ReadOne(from, flags, src).result)
  {
    hide ReadOne, Next;
    NextIsReadThenEncode(from, to, flags, src, room + 4);
  }

  lemma {:induction false} ReadMoreOrElse(from: Form, flags: Flags, src: seq<int>, more: seq<int>)
    requires src != [] && ReadOne(from, flags, src).Char?
    ensures ReadOne(from, flags, src + more).Char?
  {
    if from == Utf8 {
      var n := TrailingBytes(src[0]) + 1;
      assert (src + more)[..n] == src[..n];
    }
  }

  lemma {:induction false} SameWithFront(front: seq<int>, a: seq<int>, b: seq<int>)
    ensures front + a == front + b ==> a == b
  {
    assert a == (front + a)[|front|..] && b == (front + b)[|front|..];
  }

  /** More source and more room change nothing. */
  ghost predicate StaysWith(
    from: Form, to: Form, flags: Flags, src: seq<int>, room: nat, more: seq<int>, extra: nat)
  {
    AreUnits(from, more) ==>
      Convert(from, to, flags, src + more, room + extra) == Convert(from, to, flags, src, room)
  }

  /** sourceIllegal means that no more source and no more room would help, and it is the only failure
      that means this: the others go away with more of what they ask for. */
  lemma {:induction false} IllegalIsPermanent(from: Form, to: Form, flags: Flags, src: seq<int>, room: nat)
    requires from != Utf32 && AreUnits(from, src)
    ensures var result := Convert(from, to, flags, src, room).result;
            result == SourceIllegal
            <==> result != ConversionOK
                 && forall more, extra :: StaysWith(from, to, flags, src, room, more, extra)
  {
    hide Convert, AreUnits;
    var result := Convert(from, to, flags, src, room).result;
    if result == SourceIllegal {
      forall more, extra ensures StaysWith(from, to, flags, src, room, more, extra) {
        if AreUnits(from, more) {
          IllegalStays(from, to, flags, src, more, room, extra);
        }
      }
    } else if result != ConversionOK {
      ExhaustedGoesOn(from, to, flags, src, room);
      assert !StaysWith(from, to, flags, src, room, Completion(from), 4);
    }
  }

  /** The first byte says how many must follow before UTF-8 is looked at, also where none would do. */
  lemma {:induction false} LongFormsAreAwaited(src: seq<int>, to: Form, flags: Flags, room: nat)
    requires 1 <= |src| <= 6 && AreUnits(Utf8, src) && src[0] >= 0xF5
    ensures var length := if src[0] < 0xF8 then 4 else if src[0] < 0xFC then 5 else 6;
            Convert(Utf8, to, flags, src, room)
            == Conversion(if |src| < length then SourceExhausted else SourceIllegal, 0, [])
  {
    hide Packed, Encode8;
    assert IsUnit(Utf8, src[0]);
  }

  // ---------------------------------------------------------------- units that are no characters

  /** Lenient UTF-16 units that form no pair are written like characters, surrogates or not. */
  lemma {:induction false} LoneSurrogatesPass(to: Form, src: seq<int>, room: nat)
    requires to != Utf16 && AreUnits(Utf16, src) && |EncodeAll(to, src)| <= room
    requires forall i :: 0 <= i < |src| && 0xD800 <= src[i] <= 0xDBFF ==>
                           i + 1 < |src| && !(0xDC00 <= src[i + 1] <= 0xDFFF)
    ensures Convert(Utf16, to, Lenient, src, room) == Conversion(ConversionOK, |src|, EncodeAll(to, src))
    decreases |src|
  {
    hide Next, Encode, Then, Convert;
    NothingConverts(Utf16, to, Lenient, room);
    if src != [] {
      var out := Encode(to, src[0]);
      LoneUnitIsTaken(to, src, room);
      ConvertRound(Utf16, to, Lenient, src, room, 1, out, false);
      assert forall i :: 0 <= i < |src| - 1 ==> src[1..][i] == src[i + 1];
      LoneSurrogatesPass(to, src[1..], room - |out|);
    }
  }

  lemma {:induction false} LoneUnitIsTaken(to: Form, src: seq<int>, room: nat)
    requires src != [] && |Encode(to, src[0])| <= room
    requires 0xD800 <= src[0] <= 0xDBFF ==> 1 < |src| && !(0xDC00 <= src[1] <= 0xDFFF)
    ensures Next(Utf16, to, Lenient, src, room) == Take(1, Encode(to, src[0]), false)
  {
  }

  /** What is written for a UTF-32 value: 0xFFFD instead of one above 0x10FFFF, except that strict UTF-16
      leaves it out; lenient UTF-16 replaces surrogates too. */
  function Written(to: Form, flags: Flags, v: int): (cs: seq<int>) {
    if v > 0x10FFFF then (if to == Utf16 && flags == Strict then [] else [0xFFFD])
    else if to == Utf16 && 0xD800 <= v <= 0xDFFF then [0xFFFD]
    else [v]
  }

  function AllWritten(to: Form, flags: Flags, values: seq<int>): (cs: seq<int>) {
    if values == [] then [] else Written(to, flags, values[0]) + AllWritten(to, flags, values[1..])
  }

  lemma {:induction false} SurrogateStops(to: Form, src: seq<int>, room: nat)
    requires to != Utf32 && src != [] && 0xD800 <= src[0] <= 0xDFFF && room > 0
    ensures Next(Utf32, to, Strict, src, room) == Stop(SourceIllegal)
  {
  }

  lemma {:induction false} ValueIsTaken(to: Form, flags: Flags, src: seq<int>, room: nat)
    requires to != Utf32 && src != [] && 0 <= src[0] && (flags == Strict ==> !(0xD800 <= src[0] <= 0xDFFF))
    requires |EncodeAll(to, Written(to, flags, src[0]))| <= room && room > 0
    ensures Next(Utf32, to, flags, src, room)
            == Take(1, EncodeAll(to, Written(to, flags, src[0])),
                    src[0] > 0x10FFFF && !(to == Utf16 && flags == Lenient))
  {
    hide Encode8;
    var cs := Written(to, flags, src[0]);
    if cs != [] {
      assert cs[1..] == [];
    }
  }

  lemma {:induction false} EncodeAllJoins(to: Form, a: seq<int>, b: seq<int>)
    requires |a| <= 1
    ensures EncodeAll(to, a + b) == EncodeAll(to, a) + EncodeAll(to, b)
  {
    hide Encode;
    if a == [] {
      assert a + b == b;
    } else {
      assert a == [a[0]] && a[1..] == [];
      EncodeAllCons(to, a[0], b);
    }
  }

  /** With room, a conversion from UTF-32 reads everything, or everything before the first surrogate if it
      is strict; the values above 0x10FFFF make its result sourceIllegal, except in lenient UTF-16. */
  lemma {:induction false} FromUtf32(to: Form, flags: Flags, src: seq<int>, rest: seq<int>, room: nat)
    requires to != Utf32 && AreUnits(Utf32, src) && |EncodeAll(to, AllWritten(to, flags, src))| < room
    requires flags == Strict ==> forall i :: 0 <= i < |src| ==> !(0xD800 <= src[i] <= 0xDFFF)
    requires rest == [] || (flags == Strict && 0xD800 <= rest[0] <= 0xDFFF)
    ensures var flagged := !(to == Utf16 && flags == Lenient) && exists i :: 0 <= i < |src| && src[i] > 0x10FFFF;
            Convert(Utf32, to, flags, src + rest, room)
            == Conversion(if rest != [] || flagged then SourceIllegal else ConversionOK,
                          |src|, EncodeAll(to, AllWritten(to, flags, src)))
    decreases |src|
  {
    hide Next, Encode, EncodeAll, Convert, Written;
    var all := src + rest;
    if src == [] {
      assert all == rest;
      NothingConverts(Utf32, to, flags, room);
      NothingIsWritten(to);
      if rest != [] {
        SurrogateStops(to, rest, room);
        StopIsResult(Utf32, to, flags, rest, room);
      }
    } else {
      var v, more := src[0], AllWritten(to, flags, src[1..]);
      assert IsUnit(Utf32, v);
      WrittenIsShort(to, flags, v);
      EncodeAllJoins(to, Written(to, flags, v), more);
      var out := EncodeAll(to, Written(to, flags, v));
      ValueIsTaken(to, flags, all, room);
      assert all[1..] == src[1..] + rest;
      assert forall i :: 0 <= i < |src| - 1 ==> src[1..][i] == src[i + 1];
      RoundRead(to, flags, all, room, out, v > 0x10FFFF && !(to == Utf16 && flags == Lenient));
      FromUtf32(to, flags, src[1..], rest, room - |out|);
      OneOrLater(src);
    }
  }

  lemma {:induction false} WrittenIsShort(to: Form, flags: Flags, v: int)
    ensures |Written(to, flags, v)| <= 1
  {
  }

  lemma {:induction false} NothingIsWritten(to: Form)
    ensures EncodeAll(to, []) == []
  {
  }

  lemma {:induction false} OneOrLater(src: seq<int>)
    requires src != []
    ensures (exists i :: 0 <= i < |src| && src[i] > 0x10FFFF)
            <==> src[0] > 0x10FFFF || exists i :: 0 <= i < |src[1..]| && src[1..][i] > 0x10FFFF
  {
    assert forall i :: 0 <= i < |src| - 1 ==> src[1..][i] == src[i + 1];
    if i :| 0 <= i < |src| && src[i] > 0x10FFFF {
      assert i > 0 ==> src[1..][i - 1] == src[i];
    }
  }

  lemma {:induction false} RoundRead(to: Form, flags: Flags, src: seq<int>, room: nat, out: seq<int>, flagged: bool)
    requires src != [] && Next(Utf32, to, flags, src, room) == Take(1, out, flagged) && |out| <= room
    ensures var rest := Convert(Utf32, to, flags, src[1..], room - |out|);
            Convert(Utf32, to, flags, src, room)
            == Conversion(if flagged && rest.result == ConversionOK then SourceIllegal else rest.result,
                          1 + rest.consumed, out + rest.out)
  {
    hide Next;
  }
}
