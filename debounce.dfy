/** One iteration of the polling loop in `main()`: the debounce flag, the running
    counter and the time of the last write, and what a single sample does to them. */
module Debounce {
  import opened GasRecords

  /** The loop's working variables: `WasHigh`, `counter` and `timestamp`. */
  datatype State = State(wasHigh: bool, counter: real, timestamp: int)

  /** Which branch of the loop body a sample took. */
  datatype Event = Pulse | Rising | Heartbeat | Idle

  /** What one iteration produces: the new state, the branch taken, the record
      written (if any) and the extra sleep before the next iteration. */
  datatype Outcome = Outcome(next: State, event: Event, write: Option<Update>, delay: nat)

  /** State at the start of the loop: `WasHigh` cleared, the counter restored from
      the database and the write time set to the start-up clock reading. */
  function Initial(restored: real, start: int): (s: State)
    ensures !s.wasHigh && s.counter == restored && s.timestamp == start
  {
    State(false, restored, start)
  }

  /** A sample that flips the accepted level. */
  predicate IsTransition(s: State, x: Sample) {
    s.wasHigh != (x.level == High)
  }

  /** One pass through the loop body: a falling level after a high one counts a
      pulse, a rising level after a low one arms the detector, otherwise a
      heartbeat is written once more than an hour has passed since the last write. */
  function Next(s: State, x: Sample): (o: Outcome)
  {
    if s.wasHigh && x.level == Low then
      var c := s.counter + TriggerStep;
      Outcome(State(false, c, x.now), Pulse, Some(Update(c, TriggerStep)), HysteresisMs)
    else if !s.wasHigh && x.level == High then
      Outcome(s.(wasHigh := true), Rising, None, HysteresisMs)
    else if x.now - s.timestamp > HeartbeatMs then
      Outcome(s.(timestamp := x.now), Heartbeat, Some(Update(s.counter, 0.0)), 0)
    else
      Outcome(s, Idle, None, 0)
  }

  /** A pulse is counted exactly when the flag was set and the sample is low; the
      flag is then cleared, the counter grows by one step, the record carries the
      new counter and the step, and the write time becomes the sample time. */
  lemma PulseRule(s: State, x: Sample)
    ensures var o := Next(s, x);
      o.event == Pulse <==> s.wasHigh && x.level == Low
    ensures var o := Next(s, x);
      o.event == Pulse ==>
        && o.next == State(false, s.counter + TriggerStep, x.now)
        && o.write == Some(Update(s.counter + TriggerStep, TriggerStep))
        && o.delay == HysteresisMs
  {
  }

  /** A high sample while the flag is clear only sets the flag: no write, and
      neither the counter nor the write time changes. */
  lemma RisingRule(s: State, x: Sample)
    ensures var o := Next(s, x);
      o.event == Rising <==> !s.wasHigh && x.level == High
    ensures var o := Next(s, x);
      o.event == Rising ==>
        && o.next == s.(wasHigh := true)
        && o.write == None
        && o.delay == HysteresisMs
  {
  }

  /** A heartbeat is written exactly when the sample causes no transition and
      strictly more than an hour has passed since the last write; it records the
      unchanged counter with a zero increment and refreshes the write time. */
  lemma HeartbeatRule(s: State, x: Sample)
    ensures var o := Next(s, x);
      o.event == Heartbeat <==> !IsTransition(s, x) && x.now - s.timestamp > HeartbeatMs
    ensures var o := Next(s, x);
      o.event == Heartbeat ==>
        && o.next == s.(timestamp := x.now)
        && o.write == Some(Update(s.counter, 0.0))
        && o.delay == 0
  {
  }

  /** Facts that hold whatever branch is taken: the flag follows the sample, the
      hysteresis sleep follows exactly the accepted transitions, a write happens
      exactly on a pulse or heartbeat, records the new counter with the amount it
      grew by, and is the only thing that moves the write time. */
  lemma StepFacts(s: State, x: Sample)
    ensures var o := Next(s, x);
      o.next.wasHigh == (x.level == High)
    ensures var o := Next(s, x);
      o.delay == (if IsTransition(s, x) then HysteresisMs else 0)
    ensures var o := Next(s, x);
      o.write.Some? <==> o.event in {Pulse, Heartbeat}
    ensures var o := Next(s, x);
      o.write.Some? ==>
        && o.write.value.counter == o.next.counter
        && o.next.counter == s.counter + o.write.value.increment
        && o.next.timestamp == x.now
    ensures var o := Next(s, x);
      o.write.None? ==> o.next.counter == s.counter && o.next.timestamp == s.timestamp
  {
  }

  /** From the start-up state a low first sample never counts a pulse. */
  lemma FirstLowNoPulse(restored: real, start: int, x: Sample)
    requires x.level == Low
    ensures Next(Initial(restored, start), x).event != Pulse
    ensures Next(Initial(restored, start), x).next.counter == restored
  {
  }
}
