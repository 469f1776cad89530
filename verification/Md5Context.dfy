/** The hashing context of md5.h: messages arrive in pieces of any size. */
module Md5Context {
  import opened MachineWords
  import opened Md5Transform
  import opened Md5

  class Md5Context {
    const buf: array<u32>
    var low: u32
    var high: u32
    const input: array<u8>
    ghost var seen: seq<u8>

    ghost predicate Shape()
      reads this
    {
      buf.Length == 4 && input.Length == 64
    }

    /** The state follows the whole blocks seen, the buffer starts with what is left of a block,
        and the two counter words hold the number of bits seen modulo 2^64. */
    ghost predicate Valid()
      reads this, buf, input
    {
      && Shape()
      && Counts(low, high, |seen|)
      && Holds(StateOf(buf), input[..], seen)
    }

    constructor ()
      ensures Shape() && fresh(buf) && fresh(input)
    {
      buf, input := new u32[4](_ => 0), new u8[64](_ => 0);
      low, high, seen := 0, 0, [];
    }

    /** MD5Init. */
    method Init()
      requires Shape()
      modifies this, buf
      ensures Valid() && seen == []
    {
      hide Holds;
      buf[0], buf[1], buf[2], buf[3] := 0x67452301, 0xefcdab89, 0x98badcfe, 0x10325476;
      low, high, seen := 0, 0, [];
      NothingHolds(input[..]);
    }

    /** memcpy into the buffer. */
    method Copy(at: nat, data: seq<u8>)
      requires Shape() && at + |data| <= 64
      modifies input
      ensures input[..] == old(input[..at]) + data + old(input[at + |data|..])
    {
      forall k | 0 <= k < |data| { input[at + k] := data[k]; }
    }

    /** The start of MD5Update: counts the bits of length more bytes, and returns how many bytes
        are waiting in the buffer. */
    method AddToCounter(length: u32, ghost blocks: nat, ghost rest: nat) returns (t: u32)
      requires Counts(low, high, |seen|) && |seen| == 64 * blocks + rest && rest < 64
      modifies `low, `high
      ensures Counts(low, high, |seen| + length)
      ensures t == rest
    {
      hide Counts;
      CounterAdds(low, high, |seen|, length);
      PositionOfCounter(low, high, blocks, rest);
      t := low;
      low := (t + 8 * length % TWO_32) % TWO_32;
      if low < t { high := (high + 1) % TWO_32; }
      high := (high + length / 0x2000_0000) % TWO_32;
      t := t / 8 % 64;
    }

    /** The end of MD5Update: bytes that do not fill a block wait in the buffer, behind the t that
        are there. */
    method Wait(t: nat, data: seq<u8>, ghost total: seq<u8>, ghost blocks: nat)
      requires Shape() && t + |data| < 64 && |total| == 64 * blocks + t + |data|
      requires StateOf(buf) == Chain(total, blocks) && Counts(low, high, |total|)
      requires total[64 * blocks..] == input[..t] + data
      modifies this`seen, input
      ensures Valid() && seen == total
    {
      hide Chain, Compress, StateOf, Counts, Holds;
      Copy(t, data);
      seen := total;
      BlocksHold(StateOf(buf), input[..], seen, blocks, t + |data|);
    }

    /** The bytes that fill the block of which t bytes are in the buffer, and the block's transform. */
    method TakeBlock(t: nat, data: seq<u8>, ghost total: seq<u8>, ghost blocks: nat)
      requires Shape() && t + |data| == 64 && 64 * blocks + 64 <= |total|
      requires StateOf(buf) == Chain(total, blocks)
      requires total[64 * blocks..64 * blocks + 64] == input[..t] + data
      modifies buf, input
      ensures StateOf(buf) == Chain(total, blocks + 1)
    {
      hide Chain, Compress, StateOf;
      Copy(t, data);
      ChainStep(total, blocks, StateOf(buf), input[..]);
      MD5Transform(buf, input);
    }

    /** MD5Update: appends data to the message. */
    method Update(data: seq<u8>)
      requires Valid() && |data| < TWO_32
      modifies this, buf, input
      ensures Valid() && seen == old(seen) + data
    {
      hide Chain, Compress, StateOf, Counts, Holds;
      ghost var before, total := seen, seen + data;
      ghost var done, rest := HoldsBlocks(StateOf(buf), input[..], seen);
      ChainOfPrefix(seen, data, done);
      var t := AddToCounter(|data|, done, rest);
      var at := 0;
      if t > 0 {
        if |data| < 64 - t {
          TailOf(seen, data, 64 * done, |data|);
          Wait(t, data, total, done);
          return;
        }
        at := 64 - t;
        TailOf(seen, data, 64 * done, at);
        TakeBlock(t, data[..at], total, done);
        done := done + 1;
      }
      while |data| - at >= 64
        invariant 0 <= at <= |data| && 0 <= done && 64 * done == |before| + at
        invariant StateOf(buf) == Chain(total, done) && Counts(low, high, |total|)
      {
        MiddleOf(before, data, at, at + 64);
        TakeBlock(0, data[at..at + 64], total, done);
        at, done := at + 64, done + 1;
      }
      MiddleOf(before, data, at, |data|);
      Wait(0, data[at..], total, done);
    }

    /** The end of MD5Final's padding: a counter word as four bytes of the buffer. */
    method PutWord(k: nat, w: u32)
      requires Shape() && k < 16
      modifies input
      ensures input[..] == old(input[..4 * k]) + WordBytes(w) + old(input[4 * k + 4..])
    {
      Copy(4 * k, WordBytes(w));
    }

    /** MD5Final: returns the digest of everything seen, and clears the context. */
    method Final() returns (digest: seq<u8>)
      requires Valid()
      modifies this, buf, input
      ensures digest == Digest(old(seen))
      ensures buf[..] == Zeros(4) && low == 0 && high == 0 && input[..] == Zeros(64)
    {
      hide Chain, Compress, StateOf, Counts, Digest, Holds;
      ghost var done, rest := HoldsBlocks(StateOf(buf), input[..], seen);
      ghost var tail := seen[64 * done..];
      PositionOfCounter(low, high, done, rest);
      var count := low / 8 % 64;
      var p := count + 1;
      Copy(count, [0x80]);
      count := 64 - 1 - count;
      ghost var first := input[..];
      if count < 8 {
        Copy(p, Zeros(count));
        first := input[..];
        MD5Transform(buf, input);
        Copy(0, Zeros(56));
      } else {
        Copy(p, Zeros(count - 8));
      }
      CounterBytes(low, high, |seen|);
      PutWord(14, low);
      PutWord(15, high);
      if count < 8 {
        TwoBlocksOfPadding(seen, done, tail, first, input[..]);
      } else {
        OneBlockOfPadding(seen, done, tail, input[..]);
      }
      MD5Transform(buf, input);
      digest := StateBytes(StateOf(buf));
      Clear();
    }

    /** memset of the whole context. */
    method Clear()
      requires Shape()
      modifies this, buf, input
      ensures buf[..] == Zeros(4) && low == 0 && high == 0 && input[..] == Zeros(64)
    {
      forall k | 0 <= k < 4 { buf[k] := 0; }
      forall k | 0 <= k < 64 { input[k] := 0; }
      low, high := 0, 0;
    }
  }

  function Joined(pieces: seq<seq<u8>>): seq<u8> {
    if pieces == [] then [] else Joined(pieces[..|pieces| - 1]) + pieces[|pieces| - 1]
  }

  /** The use that md5.cc describes: however a message is cut into pieces, the digest is that of
      the whole message. */
  method HashPieces(pieces: seq<seq<u8>>) returns (digest: seq<u8>)
    requires forall piece <- pieces :: |piece| < TWO_32
    ensures digest == Digest(Joined(pieces))
  {
    hide Digest, Holds, Counts, StateOf;
    var context := new Md5Context();
    context.Init();
    for i := 0 to |pieces|
      invariant context.Valid() && context.seen == Joined(pieces[..i])
      invariant fresh(context) && fresh(context.buf) && fresh(context.input)
    {
      context.Update(pieces[i]);
      assert pieces[..i + 1][..i] == pieces[..i];
    }
    assert pieces[..|pieces|] == pieces;
    digest := context.Final();
  }
}
