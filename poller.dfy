/** The polling loop of `main()` as an object whose fields are the loop's
    variables, updated in place one sample at a time. */
module Poller {
  import opened GasRecords
  import opened Debounce
  import opened Traces

  class GasCounter {
    var wasHigh: bool
    var counter: real
    var timestamp: int

    /** The loop variables as a value. */
    function Current(): State
      reads this
    {
      State(wasHigh, counter, timestamp)
    }

    /** Start-up: the flag cleared, the counter restored from the database and
        the write time taken from the clock. */
    constructor (restored: real, start: int)
      ensures Current() == Initial(restored, start)
    {
      wasHigh := false;
      counter := restored;
      timestamp := start;
    }

    /** One iteration of the loop body on the level read and the clock reading:
        returns the record to write, if any, and the extra sleep before the next
        poll. */
    method Step(level: Level, now: int) returns (write: Option<Update>, delay: nat)
      modifies this
      ensures var o := Next(old(Current()), Sample(level, now));
        Current() == o.next && write == o.write && delay == o.delay
      ensures counter == old(counter) + (if old(wasHigh) && level == Low then TriggerStep else 0.0)
      ensures wasHigh == (level == High)
    {
      if wasHigh && level == Low {
        wasHigh := false;
        counter := counter + TriggerStep;
        write := Some(Update(counter, TriggerStep));
        timestamp := now;
        delay := HysteresisMs;
      } else if !wasHigh && level == High {
        wasHigh := true;
        write := None;
        delay := HysteresisMs;
      } else if now - timestamp > HeartbeatMs {
        write := Some(Update(counter, 0.0));
        timestamp := now;
        delay := 0;
      } else {
        write := None;
        delay := 0;
      }
    }

    /** The loop run over a finite trace of samples: returns the records written,
        in order, and leaves the loop variables as the trace leaves them. */
    method Run(trace: seq<Sample>) returns (writes: seq<Update>)
      modifies this
      ensures writes == WritesUpTo(old(Current()), trace, |trace|)
      ensures Current() == States(old(Current()), trace)[|trace|]
      ensures counter == old(counter) + (PulsesUpTo(old(Current()), trace, |trace|) as real) * TriggerStep
    {
      ghost var s0 := Current();
      writes := [];
      var i := 0;
      while i < |trace|
        invariant 0 <= i <= |trace|
        invariant Current() == States(s0, trace)[i]
        invariant writes == WritesUpTo(s0, trace, i)
      {
        var write, delay := Step(trace[i].level, trace[i].now);
        if write.Some? {
          writes := writes + [write.value];
        }
        i := i + 1;
      }
      CounterCountsPulses(s0, trace, |trace|);
    }
  }
}
