/** NTP timestamps (section 6 of RFC 5905) and milliseconds, as ntpcontroller.cpp converts them. */
module NtpTimestamp {
  import opened MachineWords
  import opened Calendar

  /** A timestamp in host byte order: seconds since 1900, and a binary fraction of a second. */
  datatype NtpTimestamp = NtpTimestamp(seconds: u32, fraction: u32)

  /** The milliseconds between the starts of 1900 and of 1970. */
  const EPOCH: int := 2_208_988_800_000

  /** The milliseconds of era 0. */
  const ERA: int := 1000 * TWO_32

  /** Division and remainder of signed integers, cut off toward zero. */
  function Quotient(a: int, b: int): int
    requires b > 0
  {
    if a >= 0 then a / b else -(-a / b)
  }

  function Remainder(a: int, b: int): int
    requires b > 0
  {
    a - b * Quotient(a, b)
  }

  /** The milliseconds since 1970. */
  function ToDateTime(t: NtpTimestamp): int {
    t.seconds * 1000 + t.fraction * 1000 / TWO_32 - EPOCH
  }

  /** From the milliseconds since 1970; both parts are cut to 32 bits. */
  function FromDateTime(msecs: int): NtpTimestamp {
    var ms := msecs + EPOCH;
    NtpTimestamp(Quotient(ms, 1000) % TWO_32, Quotient(TWO_32 * Remainder(ms, 1000), 1000) % TWO_32)
  }

  function RoundTrip(msecs: int): int {
    ToDateTime(FromDateTime(msecs))
  }

  /** The fraction of a millisecond count, and back. */
  lemma {:induction false} FractionRoundTrip(m: int)
    requires 0 <= m < 1000
    ensures var f := TWO_32 * m / 1000;
            0 <= f < TWO_32 && f * 1000 / TWO_32 == if m % 125 == 0 then m else m - 1
  {
    var x := 0x2000_0000 * m;
    var f, r := x / 125, x % 125;
    assert TWO_32 * m == 8 * x && 8 * x / 1000 == f;
    assert f * 1000 == 8 * (x - r) && f * 1000 / TWO_32 == (x - r) / 0x2000_0000;
    if r == 0 {
      // 37 is 2^29 modulo 125, and 98 is its inverse
      var k := f - 4_294_967 * m;
      assert 37 * m == 125 * k;
      assert m == 125 * (98 * k - 29 * m);
    }
  }

  lemma {:induction false} PartsInEra0(msecs: int)
    requires 0 <= msecs + EPOCH < ERA
    ensures var ms := msecs + EPOCH;
            0 <= ms / 1000 < TWO_32 && FromDateTime(msecs).seconds == ms / 1000
            && (0 <= TWO_32 * (ms % 1000) / 1000 < TWO_32 ==>
                  FromDateTime(msecs).fraction == TWO_32 * (ms % 1000) / 1000)
  {
    var ms := msecs + EPOCH;
    assert Quotient(ms, 1000) == ms / 1000 && Remainder(ms, 1000) == ms % 1000;
  }

  lemma {:induction false} SameRemainder(ms: nat)
    ensures ms % 1000 % 125 == ms % 125
  {
    var q, m := ms / 1000, ms % 1000;
    assert ms == 125 * (8 * q + m / 125) + m % 125;
  }

  /** In era 0 the round trip gives the same millisecond or one less, and the same one exactly for
      multiples of 125. */
  lemma {:induction false} RoundTripInEra0(msecs: int)
    requires 0 <= msecs + EPOCH < ERA
    ensures RoundTrip(msecs) == if (msecs + EPOCH) % 125 == 0 then msecs else msecs - 1
  {
    hide FromDateTime;
    var ms := msecs + EPOCH;
    FractionRoundTrip(ms % 1000);
    PartsInEra0(msecs);
    SameRemainder(ms);
  }

  /** Outside era 0 it gives neither. */
  lemma {:induction false} RoundTripNeedsEra0(msecs: int)
    ensures (RoundTrip(msecs) == msecs || RoundTrip(msecs) == msecs - 1) <==> 0 <= msecs + EPOCH < ERA
  {
    var ms := msecs + EPOCH;
    if 0 <= ms < ERA {
      RoundTripInEra0(msecs);
    } else {
      var t := FromDateTime(msecs);
      assert 0 <= RoundTrip(msecs) + EPOCH < ERA;
    }
  }

  /** The other way round a timestamp keeps its seconds, and loses less than a millisecond. */
  lemma {:induction false} TimestampRoundTrip(t: NtpTimestamp)
    ensures var u := FromDateTime(ToDateTime(t));
            u.seconds == t.seconds && u.fraction <= t.fraction < u.fraction + 4_294_969
  {
    var m := t.fraction * 1000 / TWO_32;
    assert 0 <= m < 1000;
    var ms := t.seconds * 1000 + m;
    assert Quotient(ms, 1000) == t.seconds && Remainder(ms, 1000) == m;
    FractionRoundTrip(m);
  }

  lemma {:induction false} EpochIsRight()
    ensures EPOCH == Milliseconds(Instant(Date(1970, 1, 1), 0)) - Milliseconds(Instant(Date(1900, 1, 1), 0))
  {
  }

  /** A timestamp is its seconds and its fraction after the start of 1900, cut to milliseconds. */
  lemma {:induction false} TimestampIsSince1900(t: NtpTimestamp)
    ensures var passed := ToDateTime(t) + Milliseconds(Instant(Date(1970, 1, 1), 0))
                          - Milliseconds(Instant(Date(1900, 1, 1), 0));
            TWO_32 * passed <= 1000 * (TWO_32 * t.seconds + t.fraction) < TWO_32 * (passed + 1)
  {
    hide Milliseconds;
    EpochIsRight();
    var m := t.fraction * 1000 / TWO_32;
    assert TWO_32 * m <= t.fraction * 1000 < TWO_32 * (m + 1);
  }
}
