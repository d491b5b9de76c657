/** The DW1000 timestamp accumulator (software/squarepoint/firmware/dw1000.c).
    The radio reports 40-bit tick counts that wrap; the driver keeps the last raw
    value seen and a running overflow, and every timestamp source (RX, TX, the
    explicit correction call) goes through the same pair. */
module Dw1000Clock {
  import opened Common

  /** The pair `_last_dw_timestamp`, `_dw_timestamp_overflow`. */
  datatype Clock = Clock(last: nat, overflow: nat)

  /** A corrected reading together with the accumulator after it. */
  datatype Reading = Reading(clock: Clock, value: nat)

  /** Raw timestamps are 40 bits wide and the overflow is a whole number of wraps. */
  ghost predicate Valid(c: Clock) {
    c.last < TWO_40 && c.overflow % TWO_40 == 0
  }

  /** `dw1000_init` clears both halves of the accumulator. */
  function InitClock(): (c: Clock)
    ensures Valid(c)
    ensures c.overflow + c.last == 0
  {
    Clock(0, 0)
  }

  /** `dw1000_correct_timestamp`: a raw value below the last one means the
      counter wrapped once more. */
  function Correct(c: Clock, raw: nat): (r: Reading)
    ensures r.clock.last == raw
    ensures r.value == r.clock.overflow + raw
    ensures r.clock.overflow == c.overflow || r.clock.overflow == c.overflow + TWO_40
    ensures r.clock.overflow == c.overflow + TWO_40 <==> raw < c.last
    ensures Valid(c) && raw < TWO_40 ==> Valid(r.clock) && r.value % TWO_40 == raw
    ensures c.last < TWO_40 && raw < TWO_40 ==>
              c.overflow + c.last <= r.value < c.overflow + c.last + TWO_40
  {
    var overflow := if raw < c.last then c.overflow + TWO_40 else c.overflow;
    Reading(Clock(raw, overflow), overflow + raw)
  }

  datatype Source = RxStamp | TxStamp

  /** `dw1000_readrxtimestamp` / `dw1000_readtxtimestamp`: the radio writes five
      bytes into a zeroed 64-bit word, which is then corrected with the same
      accumulator whatever the source. */
  function ReadTimestamp(c: Clock, src: Source, radioBytes: seq<u8>): (r: Reading)
    requires |radioBytes| == 5
    ensures r == Correct(c, LeValue(radioBytes))
    ensures Valid(c) ==> Valid(r.clock) && r.value % TWO_40 == LeValue(radioBytes)
  {
    var raw := LeValue(radioBytes);
    PowersOf256();
    Correct(c, raw)
  }

  /** The tick value the radio will use for a delayed TX/RX: the 32-bit
      register value with bit 0 cleared, shifted left by 8. */
  function DelayTicks(delay: u32): (t: nat)
    ensures t < TWO_40 && t % 512 == 0
  {
    var t := (delay - delay % 2) * 256;
    assert t == 512 * (delay / 2);
    Aligned(0, delay / 2);
    t
  }

  /** A whole number of wraps plus a multiple of 512 is a multiple of 512:
      2^40 is itself one. */
  lemma Aligned(k: nat, j: nat)
    ensures (TWO_40 * k + 512 * j) % 512 == 0
  {
    assert TWO_40 * k + 512 * j == 512 * (0x8000_0000 * k + j);
  }

  /** `dw1000_setdelayedtrxtime`: projects the delay onto the corrected time
      line without touching the accumulator (the result carries no clock). */
  function SetDelayedTrxTime(c: Clock, delay: u32): (r: nat)
    ensures Valid(c) ==> r % TWO_40 == DelayTicks(delay) && r % 512 == 0
    ensures c.last < TWO_40 ==> c.overflow + c.last <= r < c.overflow + c.last + TWO_40
  {
    var ticks := DelayTicks(delay);
    var projected := if ticks < c.last then ticks + TWO_40 else ticks;
    var r := c.overflow + projected;
    if c.overflow % TWO_40 == 0 then
      var k := c.overflow / TWO_40 + (if ticks < c.last then 1 else 0);
      assert r == TWO_40 * k + ticks;
      WrapMultiple(k, ticks);
      Aligned(k, ticks / 512);
      r
    else r
  }

  /** The projection is exactly the value the correction would return if the
      radio next reported that tick count, yet the accumulator is not advanced. */
  lemma ProjectionMatchesCorrection(c: Clock, delay: u32)
    ensures SetDelayedTrxTime(c, delay) == Correct(c, DelayTicks(delay)).value
  {
  }

  /** Feeding a sequence of raw reads through the accumulator, in order. */
  function CorrectAll(c: Clock, raws: seq<nat>): (r: (Clock, seq<nat>))
    ensures |r.1| == |raws|
    decreases |raws|
  {
    if |raws| == 0 then (c, [])
    else
      var first := Correct(c, raws[0]);
      var rest := CorrectAll(first.clock, raws[1..]);
      (rest.0, [first.value] + rest.1)
  }

  ghost predicate AllRaw(raws: seq<nat>) {
    forall i :: 0 <= i < |raws| ==> raws[i] < TWO_40
  }

  /** Number of times the raw sequence (preceded by `last`) goes down: the
      number of wraps the accumulator must account for. */
  function Descents(last: nat, raws: seq<nat>): nat
    decreases |raws|
  {
    if |raws| == 0 then 0
    else (if raws[0] < last then 1 else 0) + Descents(raws[0], raws[1..])
  }

  /** Every element is at least `lo`, and the sequence never decreases. */
  ghost predicate NonDecreasingFrom(lo: nat, outs: seq<nat>) {
    (forall i :: 0 <= i < |outs| ==> lo <= outs[i]) &&
    (forall i, j :: 0 <= i <= j < |outs| ==> outs[i] <= outs[j])
  }

  /** Clock monotonicity: the corrected sequence never decreases and never
      falls below the last corrected value before it. */
  lemma {:induction false} CorrectAllMonotone(c: Clock, raws: seq<nat>)
    requires c.last < TWO_40 && AllRaw(raws)
    ensures NonDecreasingFrom(c.overflow + c.last, CorrectAll(c, raws).1)
    decreases |raws|
  {
    if |raws| > 0 {
      var first := Correct(c, raws[0]);
      var tail := raws[1..];
      assert AllRaw(tail) by {
        forall i | 0 <= i < |tail| ensures tail[i] < TWO_40 {
          assert tail[i] == raws[i + 1];
        }
      }
      CorrectAllMonotone(first.clock, tail);
      var outs := CorrectAll(c, raws).1;
      var rest := CorrectAll(first.clock, tail).1;
      assert outs == [first.value] + rest;
      assert first.value == first.clock.overflow + first.clock.last;
      assert c.overflow + c.last <= first.value;
      assert first.clock.overflow + first.clock.last == first.value;
      forall i | 0 <= i < |outs| ensures c.overflow + c.last <= outs[i] {
        if i == 0 {
          assert outs[0] == first.value;
        } else {
          assert outs[i] == rest[i - 1];
        }
      }
      forall i, j | 0 <= i <= j < |outs| ensures outs[i] <= outs[j] {
        if i > 0 {
          assert outs[i] == rest[i - 1] && outs[j] == rest[j - 1];
        } else if j > 0 {
          assert outs[0] == first.value && outs[j] == rest[j - 1];
        }
      }
    }
  }

  /** Reference definition of the accumulator: each corrected value is the raw
      value plus one wrap period per descent seen so far, and the final
      overflow grows only in whole wrap periods. */
  lemma {:induction false} CorrectAllClosedForm(c: Clock, raws: seq<nat>)
    ensures var r := CorrectAll(c, raws);
            r.0.overflow == c.overflow + TWO_40 * Descents(c.last, raws) &&
            (|raws| > 0 ==> r.0.last == raws[|raws| - 1]) &&
            (|raws| == 0 ==> r.0 == c) &&
            forall i :: 0 <= i < |raws| ==>
              r.1[i] == c.overflow + TWO_40 * Descents(c.last, raws[..i + 1]) + raws[i]
    decreases |raws|
  {
    if |raws| > 0 {
      var first := Correct(c, raws[0]);
      var tail := raws[1..];
      CorrectAllClosedForm(first.clock, tail);
      var r := CorrectAll(c, raws);
      var rest := CorrectAll(first.clock, tail);
      assert r.1 == [first.value] + rest.1;
      var d0 := if raws[0] < c.last then 1 else 0;
      assert first.clock.overflow == c.overflow + TWO_40 * d0;
      forall i | 0 <= i < |raws|
        ensures r.1[i] == c.overflow + TWO_40 * Descents(c.last, raws[..i + 1]) + raws[i]
      {
        var pre := raws[..i + 1];
        assert pre[0] == raws[0] && pre[1..] == tail[..i];
        assert Descents(c.last, pre) == d0 + Descents(raws[0], tail[..i]);
        if i > 0 {
          assert r.1[i] == rest.1[i - 1];
          assert tail[..i - 1 + 1] == tail[..i];
        }
      }
    }
  }

  lemma WrapMultiple(k: nat, r: nat)
    requires r < TWO_40
    ensures (TWO_40 * k + r) % TWO_40 == r
  {
  }

  /** Every corrected value is congruent to its raw input modulo 2^40. */
  lemma CorrectAllCongruent(c: Clock, raws: seq<nat>)
    requires c.overflow % TWO_40 == 0 && AllRaw(raws)
    ensures var outs := CorrectAll(c, raws).1;
            forall i :: 0 <= i < |raws| ==> outs[i] % TWO_40 == raws[i]
  {
    CorrectAllClosedForm(c, raws);
    var outs := CorrectAll(c, raws).1;
    var base := c.overflow / TWO_40;
    assert c.overflow == TWO_40 * base;
    forall i | 0 <= i < |raws| ensures outs[i] % TWO_40 == raws[i] {
      var k := base + Descents(c.last, raws[..i + 1]);
      assert outs[i] == TWO_40 * k + raws[i];
      WrapMultiple(k, raws[i]);
    }
  }
}
