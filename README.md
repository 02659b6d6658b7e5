# Gas meter pulse counter — a Dafny model

The program polls a reed contact on GPIO pin 17 next to a gas meter dial. Each
dial rotation shows up as the pin going high and then low again. The program
counts those rotations in steps of 0.01 m³. It writes the running total to a
round robin database and resumes from the last stored total after a restart.

This project models three parts of `hmc5883_gas_counter.py`:

- **The polling loop of `main()`** (`records.dfy`, `debounce.dfy`, `traces.dfy`, `poller.dfy`).
  - The loop keeps three variables: the debounce flag `WasHigh`, the counter, and the time of the last write.
  - Each pass reads one level. The pass then takes exactly one of four branches:
    - counts a pulse (the flag was set and the level is low);
    - arms the detector (the flag was clear and the level is high);
    - writes an hourly heartbeat;
    - does nothing.
  - `Debounce.Next` is that pass as a function. `Poller.GasCounter` is the same pass as an object whose fields the `Step` method updates in place. `GasCounter.Run` loops `Step` over a finite trace of samples.
  - The counter is a `real`, and the pulse step is the literal 0.01.
  - Time is an integer number of milliseconds that the caller supplies with each sample.
  - The sleeps become the delay that `Step` returns: 500 ms after an accepted transition and 0 otherwise. The fixed 70 ms poll comes on top of it.
  - A record written to the database is the value `Update(counter, increment)`, for the text `N:<counter>:<increment>` built at lines 112, 158 and 170. The rows for `SeedRecord`, `PulseRule` and `HeartbeatRule` below state which record each of those lines writes.
- **Restoring the counter** (`lastupdate.dfy`).
  - `last_rrd_count` scans the lines printed by `rrdtool lastupdate`.
  - It takes the first line that matches `^[0-9]*: ([0-9.]*) [0-9.]*` and returns the captured field. If no line matches, it returns 0.0.
  - The matcher is a pure function, `MatchLine`. It is proved sound and complete against the shape `<digits>: <field> <rest>`.
  - The scan is a loop with an early exit, `LastRrdCount`. It is proved against the function `FirstMatch`.
- **Seeding** (`records.dfy`). `-i` writes the record `(reading, 0)`.

What the trace lemmas establish:

- After every sample, the debounce flag equals "that sample was high". So a pulse is counted exactly at each place where a high level is immediately followed by a low one.
- From start-up, the number of pulses equals the number of high-to-low pairs in the samples. For example, the samples low, high, high, low, low, high, low count a pulse at the fourth and the seventh sample and nowhere else.
- There is an accepted rising level between any two pulses.
- The counter is the restored value plus one step per pulse, and it never decreases.
- Each written record carries the starting counter plus all increments written up to and including its own.
- The write time the loop keeps is exactly the time of the latest write, or start-up before any write. A sample that makes no transition is a heartbeat exactly when it comes strictly more than an hour after that time. So once more than an hour has passed since the last write, a record is written at that sample or the next one: a rising level writes nothing, but the sample after it either counts a pulse or is a heartbeat. A quiet period between writes therefore always lasts strictly more than an hour.
- When the sample times respect the loop's sleeps, two pulses are at least 2 × (70 + 500) ms apart.

Two facts about the code shape the model:

- The flag starts clear (line 144), not from a first reading, so a high first sample arms the detector and is never counted.
- No sample is read and ignored after a transition: the loop sleeps 500 ms (lines 163, 167), and the next pass reads the pin afresh.

## Model

| member | source | states |
|---|---|---|
| GasRecords.SeedRecord | hmc5883_gas_counter.py:111-114 | the seeding record carries the given reading and a zero increment |
| GasRecords.SeedWriteAsWritten | hmc5883_gas_counter.py:135-136 | as written, seeding happens exactly when `-i` is given with a non-zero value, and then writes the seeding record |
| GasRecords.SeedZeroDropped | hmc5883_gas_counter.py:135-136 | as written, `-i 0` writes nothing |
| GasRecords.SeedWrite | hmc5883_gas_counter.py:135-136 | corrected: seeding happens exactly when `-i` is given, whatever its value |
| GasRecords.SeedWriteAgreesExceptZero | hmc5883_gas_counter.py:135-136 | the corrected and the as-written seeding differ on exactly one input: a reading of zero |
| Debounce.Initial | hmc5883_gas_counter.py:140-144 | start-up state: flag clear, counter restored, write time taken from the start-up clock |
| Debounce.Next | hmc5883_gas_counter.py:150-173 | one pass of the loop body as a function; what it does is stated by the four lemmas below: `PulseRule`, `RisingRule` and `HeartbeatRule` give each branch's guard (in both directions) and effect, `StepFacts` what holds in every branch |
| Debounce.PulseRule | hmc5883_gas_counter.py:153-163 | a pulse happens iff the flag was set and the sample is low; it then clears the flag, adds one step to the counter, writes `(counter, step)`, sets the write time to now and sleeps 500 ms |
| Debounce.RisingRule | hmc5883_gas_counter.py:165-167 | a rising edge happens iff the flag was clear and the sample is high; it only sets the flag: no write, counter and write time unchanged (so it does not postpone the heartbeat), 500 ms sleep |
| Debounce.HeartbeatRule | hmc5883_gas_counter.py:168-173 | a heartbeat happens iff the sample makes no transition and strictly more than 3600 s have passed since the last write; it writes `(counter, 0)` and sets the write time to now, with no extra sleep |
| Debounce.StepFacts | hmc5883_gas_counter.py:150-173 | in every branch: the flag becomes "sample is high"; the 500 ms sleep happens iff there was a transition; there is at most one write, and it happens exactly on a pulse or a heartbeat; a write records the new counter, which is the old counter plus the increment, and is the only thing that moves the write time |
| Debounce.FirstLowNoPulse | hmc5883_gas_counter.py:144-153 | from start-up, a low first sample never counts a pulse and leaves the counter at the restored value |
| Traces.States | hmc5883_gas_counter.py:147-173 | the state before each sample is the previous state advanced by one loop iteration, starting from the given state |
| Traces.FlagFollowsSamples | hmc5883_gas_counter.py:153-167 | after each sample, the flag records whether that sample was high |
| Traces.PulseIffFallingLevel | hmc5883_gas_counter.py:153-167 | sample k counts a pulse iff it is low and the level before it (the previous sample, or the start-up flag) is high |
| Traces.PulsesAreHighLowPairs | hmc5883_gas_counter.py:144-167 | the pulses counted over the first k samples equal the number of high-to-low pairs among the start-up level and those samples |
| Traces.StartupPulseCount | hmc5883_gas_counter.py:144-167 | from start-up, the pulses of a trace equal the high-to-low pairs among its samples |
| Traces.ExampleTwoPulses | hmc5883_gas_counter.py:144-167 | from start-up, the samples low, high, high, low, low, high, low count a pulse at the fourth and the seventh sample and at no other sample |
| Traces.RisingBetweenPulses | hmc5883_gas_counter.py:153-167 | between any two pulses there is an accepted rising edge |
| Traces.CounterCountsPulses | hmc5883_gas_counter.py:141-157 | after k samples, the counter is the restored value plus (pulses so far) × 0.01 |
| Traces.CounterNonDecreasing | hmc5883_gas_counter.py:153-173 | the counter never decreases along a trace |
| Traces.CounterIsStartPlusIncrements | hmc5883_gas_counter.py:157-172 | every written increment is 0.01 or 0, and the counter is the restored value plus the sum of the increments written |
| Traces.WriteLedger | hmc5883_gas_counter.py:157-172 | each written record's counter is the restored value plus the increments of all records up to and including it |
| Traces.TimestampIsLatestWrite | hmc5883_gas_counter.py:140-173 | before sample k the write time equals the time of the latest sample that wrote, or the start-up time when none did, whatever the clock does |
| Traces.TimestampBoundsWrites | hmc5883_gas_counter.py:140-173 | with a clock that never goes back, the write time is never earlier than start-up or than any earlier write |
| Traces.HeartbeatAfterQuietHour | hmc5883_gas_counter.py:168-173 | with a clock that never goes back, a heartbeat comes strictly more than 3600 s after start-up and after every earlier write |
| Traces.HeartbeatIffQuietHour | hmc5883_gas_counter.py:165-173 | sample k is a heartbeat iff it makes no transition and comes strictly more than 3600 s after the latest write (or start-up before any write) |
| Traces.WriteWithinTwoSamples | hmc5883_gas_counter.py:153-173 | with a clock that never goes back, once more than 3600 s have passed since the latest write, the sample then read or the one after it writes a record |
| Traces.PulsesAtLeastApart | hmc5883_gas_counter.py:150-167 | when sample times respect the 70 ms poll and the 500 ms hysteresis sleeps, two pulses are at least 1140 ms apart |
| Poller.GasCounter.constructor | hmc5883_gas_counter.py:140-144 | the loop variables start as the start-up state |
| Poller.GasCounter.Step | hmc5883_gas_counter.py:150-173 | one pass of the loop body updates the fields in place and returns the record and the sleep given by `Debounce.Next`; the counter grows by one step iff a set flag meets a low sample; the flag becomes "sample is high" |
| Poller.GasCounter.Run | hmc5883_gas_counter.py:146-173 | the loop over a finite trace returns the records in the order they are written, ends in the trace's final state, and its counter grows by pulses × 0.01 |
| LastUpdate.DigitRun | hmc5883_gas_counter.py:101 | `[0-9]*` consumes the longest run of digits at the start of the line |
| LastUpdate.FieldRun | hmc5883_gas_counter.py:101 | `[0-9.]*` consumes the longest run of digits and dots |
| LastUpdate.MatchLine | hmc5883_gas_counter.py:101 | `re.match` of the pattern on one line, giving the captured group; it is specified by `MatchSound` (every capture has the pattern's shape) and `MatchComplete` (every line of that shape is captured) |
| LastUpdate.MatchSound | hmc5883_gas_counter.py:101 | a captured field holds digits and dots only, and the line is `<digits>: <field> <rest>` |
| LastUpdate.MatchComplete | hmc5883_gas_counter.py:101 | every line `<digits>: <field> <rest>` matches and captures exactly `<field>` |
| LastUpdate.FirstMatch | hmc5883_gas_counter.py:100-106 | the field of the first line that matches, if any; it is specified by `FirstMatchWins`, `FirstMatchIgnoresLater`, `NoMatchDefault` and `FirstMatchFound` |
| LastUpdate.FirstMatchWins | hmc5883_gas_counter.py:100-104 | the first matching line gives the result |
| LastUpdate.FirstMatchIgnoresLater | hmc5883_gas_counter.py:100-104 | once a line has matched, the lines after it do not change the result |
| LastUpdate.NoMatchDefault | hmc5883_gas_counter.py:98-106 | the default 0.0 is returned iff no line matches |
| LastUpdate.FirstMatchFound | hmc5883_gas_counter.py:100-104 | a restored field is the field of some matching line before which no line matches, and it holds digits and dots only |
| LastUpdate.LastRrdCount | hmc5883_gas_counter.py:97-106 | the scan with early exit returns the field of the first matching line, or the default when there is none |

## Left out

- GPIO setup and reads (`initGPIO`, `GPIO.input`): each level read is a parameter of the model. The short-circuit `and`s at lines 153 and 165 read the pin exactly once per pass, so one sample per iteration is faithful.
- rrdtool `create`, its data sources and archives, and the archive's consolidation (lines 69-93): these live in a foreign library. The database is not modelled, and a write is the emitted `Update`. rrdtool's own rejection of non-increasing timestamps is not modelled either.
- `rrdtool.update` (lines 114, 160, 172) and any failure it raises: a write always succeeds in the model.
- `os.popen` and `handle.close()` (lines 99, 105): the command's output is given as a sequence of lines.
- `float()` on the captured field and `%f` formatting (lines 103, 112, 158, 170): this is floating-point text conversion. The model returns the captured text, and `None` stands for the default 0.0. An empty field (as in `1:  5`) or a field with two dots would make `float()` raise outside any handler. The model does not capture that.
- Floating-point rounding of `counter += trigger_step`: the counter is an exact `real`, so accumulated binary rounding is not modelled.
- `time.sleep` and `time.time` (lines 140, 150, 161, 163, 167, 168, 173):
  - The sleeps are the delay that `Step` returns.
  - The clock readings are the `now` of each sample. Each iteration uses a single `now`, where the code reads the clock separately at lines 161, 168 and 173.
  - Time is in integer milliseconds. The code uses float seconds.
- The infinite `while True` loop: `GasCounter.Run` runs over a finite trace.
- Logging setup, argparse and the `print` of the restored counter (lines 44-60, 122-129, 142): I/O and command-line plumbing. Only the `if args.init:` test at line 135 is modelled.
- The unused `trigger_level` and `trigger_hyst` constants and the unused `-m` flag (lines 36-37, 125): they have no behaviour.
- The `except expression` / `log` handler (lines 175-178): it names undefined identifiers and cannot run as written.

## Findings

| source | as written | input that shows it | evidently intended | confidence | as-written member | corrected member |
|---|---|---|---|---|---|---|
| hmc5883_gas_counter.py:135 | `if args.init:` tests Python truthiness, so a seeding value of 0.0 is skipped and the counter resumes from the stored value | `-i 0` | seed whenever `-i` is given (`args.init is not None`), as the help text "set initial counter" says | medium, not executed | GasRecords.SeedWriteAsWritten, GasRecords.SeedZeroDropped | GasRecords.SeedWrite, GasRecords.SeedWriteAgreesExceptZero |
