/** The polling loop run over a finite sequence of samples: the states it passes
    through, the records it writes, the pulses it counts, and what the trace as a
    whole guarantees (pulses pair with accepted rising levels, the counter is the
    restored reading plus one step per pulse, heartbeats come only after a quiet
    hour, and pulses are spaced by the hysteresis sleeps). */
module Traces {
  import opened GasRecords
  import opened Debounce

  /** The states before each sample and after the last: `ss[i]` is the state in
      which sample `t[i]` is read. */
  function States(s0: State, t: seq<Sample>): (ss: seq<State>)
    ensures |ss| == |t| + 1 && ss[0] == s0
    ensures forall i :: 0 <= i < |t| ==> ss[i + 1] == Next(ss[i], t[i]).next
    decreases |t|
  {
    if t == [] then [s0]
    else
      var p := States(s0, t[..|t| - 1]);
      p + [Next(p[|t| - 1], t[|t| - 1]).next]
  }

  /** What the iteration reading sample `t[i]` does. */
  function At(s0: State, t: seq<Sample>, i: nat): Outcome
    requires i < |t|
  {
    Next(States(s0, t)[i], t[i])
  }

  /** The records one iteration hands to the database, in order. */
  function Emitted(o: Outcome): seq<Update> {
    if o.write.Some? then [o.write.value] else []
  }

  /** The records written while reading the first `k` samples. */
  function WritesUpTo(s0: State, t: seq<Sample>, k: nat): seq<Update>
    requires k <= |t|
  {
    if k == 0 then [] else WritesUpTo(s0, t, k - 1) + Emitted(At(s0, t, k - 1))
  }

  /** The pulses counted while reading the first `k` samples. */
  function PulsesUpTo(s0: State, t: seq<Sample>, k: nat): nat
    requires k <= |t|
  {
    if k == 0 then 0 else PulsesUpTo(s0, t, k - 1) + (if At(s0, t, k - 1).event == Pulse then 1 else 0)
  }

  /** The sum of the increments of a sequence of records. */
  function Total(ws: seq<Update>): real {
    if ws == [] then 0.0 else Total(ws[..|ws| - 1]) + ws[|ws| - 1].increment
  }

  // ---------------------------------------------------------------------------
  // Reference definition of pulses, from the levels alone

  function LevelOf(wasHigh: bool): Level {
    if wasHigh then High else Low
  }

  function Levels(t: seq<Sample>): (ls: seq<Level>)
    ensures |ls| == |t| && forall i :: 0 <= i < |t| ==> ls[i] == t[i].level
  {
    seq(|t|, i requires 0 <= i < |t| => t[i].level)
  }

  /** The accepted level before the first sample, followed by the sampled levels. */
  function Accepted(s0: State, t: seq<Sample>): seq<Level> {
    [LevelOf(s0.wasHigh)] + Levels(t)
  }

  /** The number of places where a high level is immediately followed by a low one. */
  function HighLowPairs(ls: seq<Level>): nat {
    if |ls| < 2 then 0
    else HighLowPairs(ls[..|ls| - 1]) + (if ls[|ls| - 2] == High && ls[|ls| - 1] == Low then 1 else 0)
  }

  // ---------------------------------------------------------------------------
  // The debounce flag and the pulses

  /** After any sample the flag records whether that sample was high. */
  lemma FlagFollowsSamples(s0: State, t: seq<Sample>, k: nat)
    requires k <= |t|
    ensures States(s0, t)[k].wasHigh == (Accepted(s0, t)[k] == High)
  {
    if k > 0 {
      StepFacts(States(s0, t)[k - 1], t[k - 1]);
    }
  }

  /** Sample `k` counts a pulse exactly when it is low and the level before it
      (the previous sample, or the start-up level) is high. */
  lemma PulseIffFallingLevel(s0: State, t: seq<Sample>, k: nat)
    requires k < |t|
    ensures At(s0, t, k).event == Pulse <==> Accepted(s0, t)[k] == High && Accepted(s0, t)[k + 1] == Low
  {
    FlagFollowsSamples(s0, t, k);
    PulseRule(States(s0, t)[k], t[k]);
  }

  /** The pulses counted over the first `k` samples are the high-to-low pairs among
      the start-up level and those samples. */
  lemma {:induction false} PulsesAreHighLowPairs(s0: State, t: seq<Sample>, k: nat)
    requires k <= |t|
    ensures PulsesUpTo(s0, t, k) == HighLowPairs(Accepted(s0, t)[..k + 1])
  {
    if k > 0 {
      PulsesAreHighLowPairs(s0, t, k - 1);
      PulseIffFallingLevel(s0, t, k - 1);
      var ls := Accepted(s0, t)[..k + 1];
      assert ls[..|ls| - 1] == Accepted(s0, t)[..k];
    }
  }

  /** A leading low level adds no high-to-low pair. */
  lemma {:induction false} LeadingLowAddsNoPair(ls: seq<Level>)
    ensures HighLowPairs([Low] + ls) == HighLowPairs(ls)
  {
    if ls != [] {
      var n := |ls|;
      assert ([Low] + ls)[..n] == [Low] + ls[..n - 1];
      LeadingLowAddsNoPair(ls[..n - 1]);
    }
  }

  /** From start-up (flag clear) the pulses of a whole trace are exactly the
      high-to-low pairs among its samples. */
  lemma StartupPulseCount(restored: real, start: int, t: seq<Sample>)
    ensures PulsesUpTo(Initial(restored, start), t, |t|) == HighLowPairs(Levels(t))
  {
    var s0 := Initial(restored, start);
    PulsesAreHighLowPairs(s0, t, |t|);
    assert Accepted(s0, t)[..|t| + 1] == [Low] + Levels(t);
    LeadingLowAddsNoPair(Levels(t));
  }

  /** From start-up, the samples low, high, high, low, low, high, low count a
      pulse at the fourth and at the seventh sample and nowhere else. */
  lemma ExampleTwoPulses(restored: real, start: int, t: seq<Sample>, k: nat)
    requires |t| == 7
    requires t[0].level == Low && t[1].level == High && t[2].level == High && t[3].level == Low
    requires t[4].level == Low && t[5].level == High && t[6].level == Low
    requires k < |t|
    ensures At(Initial(restored, start), t, k).event == Pulse <==> k == 3 || k == 6
  {
    PulseIffFallingLevel(Initial(restored, start), t, k);
  }

  /** With the flag clear and no accepted rising level, the flag stays clear. */
  lemma {:induction false} StaysDisarmed(s0: State, t: seq<Sample>, a: nat, b: nat)
    requires a <= b <= |t|
    requires !States(s0, t)[a].wasHigh
    requires forall j :: a <= j < b ==> At(s0, t, j).event != Rising
    ensures !States(s0, t)[b].wasHigh
  {
    if a < b {
      StaysDisarmed(s0, t, a, b - 1);
      assert At(s0, t, b - 1).event != Rising;
      RisingRule(States(s0, t)[b - 1], t[b - 1]);
      StepFacts(States(s0, t)[b - 1], t[b - 1]);
    }
  }

  /** Between any two pulses there is an accepted rising level. */
  lemma RisingBetweenPulses(s0: State, t: seq<Sample>, i: nat, k: nat)
    requires i < k < |t|
    requires At(s0, t, i).event == Pulse && At(s0, t, k).event == Pulse
    ensures exists j :: i < j < k && At(s0, t, j).event == Rising
  {
    PulseRule(States(s0, t)[i], t[i]);
    PulseRule(States(s0, t)[k], t[k]);
    if forall j :: i + 1 <= j < k ==> At(s0, t, j).event != Rising {
      StaysDisarmed(s0, t, i + 1, k);
      assert false;
    }
  }

  // ---------------------------------------------------------------------------
  // The counter and the records written

  /** The counter is the starting value plus one step per pulse counted so far. */
  lemma {:induction false} CounterCountsPulses(s0: State, t: seq<Sample>, k: nat)
    requires k <= |t|
    ensures States(s0, t)[k].counter == s0.counter + (PulsesUpTo(s0, t, k) as real) * TriggerStep
  {
    if k > 0 {
      CounterCountsPulses(s0, t, k - 1);
      PulseRule(States(s0, t)[k - 1], t[k - 1]);
      StepFacts(States(s0, t)[k - 1], t[k - 1]);
    }
  }

  /** The counter never decreases along a trace. */
  lemma {:induction false} CounterNonDecreasing(s0: State, t: seq<Sample>, i: nat, k: nat)
    requires i <= k <= |t|
    ensures States(s0, t)[i].counter <= States(s0, t)[k].counter
  {
    if i < k {
      CounterNonDecreasing(s0, t, i, k - 1);
      StepFacts(States(s0, t)[k - 1], t[k - 1]);
      PulseRule(States(s0, t)[k - 1], t[k - 1]);
    }
  }

  /** Every increment written is one step (a pulse) or zero (a heartbeat), and the
      counter reached is the starting counter plus the increments written so far. */
  lemma {:induction false} CounterIsStartPlusIncrements(s0: State, t: seq<Sample>, k: nat)
    requires k <= |t|
    ensures forall j :: 0 <= j < |WritesUpTo(s0, t, k)| ==>
      WritesUpTo(s0, t, k)[j].increment == TriggerStep || WritesUpTo(s0, t, k)[j].increment == 0.0
    ensures States(s0, t)[k].counter == s0.counter + Total(WritesUpTo(s0, t, k))
  {
    if k > 0 {
      CounterIsStartPlusIncrements(s0, t, k - 1);
      var s, x := States(s0, t)[k - 1], t[k - 1];
      StepFacts(s, x);
      PulseRule(s, x);
      HeartbeatRule(s, x);
      var o := At(s0, t, k - 1);
      assert o == Next(s, x) && States(s0, t)[k] == o.next;
      var prev, ws := WritesUpTo(s0, t, k - 1), WritesUpTo(s0, t, k);
      if o.write.Some? {
        assert ws == prev + [o.write.value];
        assert ws[..|ws| - 1] == prev;
        assert Total(ws) == Total(prev) + o.write.value.increment;
      } else {
        assert ws == prev;
      }
    }
  }

  /** Each record's counter is the starting counter plus the increments of all
      records up to and including it. */
  predicate Ledger(start: real, ws: seq<Update>) {
    forall j :: 0 <= j < |ws| ==> ws[j].counter == start + Total(ws[..j + 1])
  }

  /** Every record written carries the starting counter plus all increments
      written up to and including its own: the value of write n is the value of
      write n - 1 plus the increment of write n. */
  lemma {:induction false} WriteLedger(s0: State, t: seq<Sample>, k: nat)
    requires k <= |t|
    ensures Ledger(s0.counter, WritesUpTo(s0, t, k))
  {
    if k > 0 {
      WriteLedger(s0, t, k - 1);
      CounterIsStartPlusIncrements(s0, t, k);
      var o := At(s0, t, k - 1);
      StepFacts(States(s0, t)[k - 1], t[k - 1]);
      assert States(s0, t)[k] == o.next;
      var prev, ws := WritesUpTo(s0, t, k - 1), WritesUpTo(s0, t, k);
      assert ws == prev + Emitted(o);
      forall j | 0 <= j < |ws|
        ensures ws[j].counter == s0.counter + Total(ws[..j + 1])
      {
        if j < |prev| {
          assert ws[j] == prev[j] && ws[..j + 1] == prev[..j + 1];
          assert prev[j].counter == s0.counter + Total(prev[..j + 1]);
        } else {
          assert o.write.Some? && ws[j] == o.write.value;
          assert ws[j].counter == States(s0, t)[k].counter;
          assert ws[..j + 1] == ws;
        }
      }
    }
  }

  // ---------------------------------------------------------------------------
  // Time: heartbeats and the spacing of samples

  /** Clock readings that never go backwards, starting no earlier than the write
      time of the starting state. */
  predicate MonotoneTimes(s0: State, t: seq<Sample>) {
    && (|t| > 0 ==> s0.timestamp <= t[0].now)
    && forall i :: 0 <= i < |t| - 1 ==> t[i].now <= t[i + 1].now
  }

  lemma {:induction false} TimesOrdered(t: seq<Sample>, a: nat, b: nat)
    requires forall i :: 0 <= i < |t| - 1 ==> t[i].now <= t[i + 1].now
    requires a <= b < |t|
    ensures t[a].now <= t[b].now
  {
    if a < b {
      TimesOrdered(t, a, b - 1);
    }
  }

  /** The time of the latest sample before `k` that wrote a record, or the
      starting write time when none did. */
  function LastWriteTime(s0: State, t: seq<Sample>, k: nat): int
    requires k <= |t|
  {
    if k == 0 then s0.timestamp
    else if At(s0, t, k - 1).write.Some? then t[k - 1].now
    else LastWriteTime(s0, t, k - 1)
  }

  /** The write time kept in the loop is exactly the time of the latest write, or
      the start-up time before any write, whatever the clock does. */
  lemma {:induction false} TimestampIsLatestWrite(s0: State, t: seq<Sample>, k: nat)
    requires k <= |t|
    ensures States(s0, t)[k].timestamp == LastWriteTime(s0, t, k)
  {
    if k > 0 {
      TimestampIsLatestWrite(s0, t, k - 1);
      StepFacts(States(s0, t)[k - 1], t[k - 1]);
    }
  }

  /** With a monotone clock the write time before sample `k` is no earlier than
      the start-up time nor than the time of any earlier write. */
  lemma {:induction false} TimestampBoundsWrites(s0: State, t: seq<Sample>, k: nat)
    requires MonotoneTimes(s0, t)
    requires k <= |t|
    ensures s0.timestamp <= States(s0, t)[k].timestamp
    ensures forall j :: 0 <= j < k && At(s0, t, j).write.Some? ==> t[j].now <= States(s0, t)[k].timestamp
  {
    if k > 0 {
      TimestampBoundsWrites(s0, t, k - 1);
      var s, x := States(s0, t)[k - 1], t[k - 1];
      StepFacts(s, x);
      forall j | 0 <= j < k - 1
        ensures t[j].now <= x.now
      {
        TimesOrdered(t, j, k - 1);
      }
      TimesOrdered(t, 0, k - 1);
    }
  }

  /** A heartbeat at sample `k` comes strictly more than an hour after start-up
      and after every earlier write. */
  lemma HeartbeatAfterQuietHour(s0: State, t: seq<Sample>, k: nat)
    requires MonotoneTimes(s0, t)
    requires k < |t| && At(s0, t, k).event == Heartbeat
    ensures t[k].now - s0.timestamp > HeartbeatMs
    ensures forall j :: 0 <= j < k && At(s0, t, j).write.Some? ==> t[k].now - t[j].now > HeartbeatMs
  {
    TimestampBoundsWrites(s0, t, k);
    HeartbeatRule(States(s0, t)[k], t[k]);
  }

  /** "At least one update every hour": a sample that makes no transition is a
      heartbeat exactly when it comes strictly more than an hour after the latest
      write (or start-up, before any write). */
  lemma HeartbeatIffQuietHour(s0: State, t: seq<Sample>, k: nat)
    requires k < |t|
    ensures At(s0, t, k).event == Heartbeat <==>
      !IsTransition(States(s0, t)[k], t[k]) && t[k].now - LastWriteTime(s0, t, k) > HeartbeatMs
  {
    TimestampIsLatestWrite(s0, t, k);
    HeartbeatRule(States(s0, t)[k], t[k]);
  }

  /** Once more than an hour has passed since the latest write, a record is
      written at the next sample or the one after it: a rising level writes
      nothing, but it is followed by a sample that either counts a pulse or is
      itself a heartbeat. */
  lemma WriteWithinTwoSamples(s0: State, t: seq<Sample>, k: nat)
    requires MonotoneTimes(s0, t)
    requires k + 1 < |t|
    requires t[k].now - LastWriteTime(s0, t, k) > HeartbeatMs
    ensures At(s0, t, k).write.Some? || At(s0, t, k + 1).write.Some?
  {
    var s, x := States(s0, t)[k], t[k];
    var s', y := States(s0, t)[k + 1], t[k + 1];
    TimestampIsLatestWrite(s0, t, k);
    TimestampIsLatestWrite(s0, t, k + 1);
    StepFacts(s, x);
    RisingRule(s, x);
    HeartbeatRule(s, x);
    StepFacts(s', y);
    HeartbeatRule(s', y);
    PulseRule(s', y);
    assert t[k].now <= t[k + 1].now;
  }

  /** Sample times the loop can produce: every iteration first sleeps the poll
      period and, after an accepted transition, also the hysteresis period. */
  predicate Feasible(s0: State, t: seq<Sample>) {
    forall i :: 0 <= i < |t| - 1 ==> t[i + 1].now >= t[i].now + PollMs + At(s0, t, i).delay
  }

  /** Two pulses are at least two full hysteresis cycles apart (one after the
      pulse, one after the rising level that must come between). */
  lemma PulsesAtLeastApart(s0: State, t: seq<Sample>, i: nat, k: nat)
    requires Feasible(s0, t)
    requires i < k < |t|
    requires At(s0, t, i).event == Pulse && At(s0, t, k).event == Pulse
    ensures t[k].now - t[i].now >= 2 * (PollMs + HysteresisMs)
  {
    RisingBetweenPulses(s0, t, i, k);
    var j :| i < j < k && At(s0, t, j).event == Rising;
    PulseRule(States(s0, t)[i], t[i]);
    RisingRule(States(s0, t)[j], t[j]);
    assert forall m :: 0 <= m < |t| - 1 ==> t[m].now <= t[m + 1].now by {
      forall m | 0 <= m < |t| - 1
        ensures t[m].now <= t[m + 1].now
      {
        assert t[m + 1].now >= t[m].now + PollMs + At(s0, t, m).delay;
      }
    }
    TimesOrdered(t, i + 1, j);
    TimesOrdered(t, j + 1, k);
    assert t[i + 1].now >= t[i].now + PollMs + HysteresisMs;
    assert t[j + 1].now >= t[j].now + PollMs + HysteresisMs;
  }
}
