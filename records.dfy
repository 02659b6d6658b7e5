/** Values shared by the gas counter's polling loop and its storage interface:
    the sensor level, one timed sample, the record written to the round robin
    database, and the constants of the polling loop. */
module GasRecords {

  datatype Option<T> = None | Some(value: T)

  /** The level read from the reed contact's GPIO pin. */
  datatype Level = Low | High

  /** One iteration's reading: the level and the wall-clock time, in milliseconds,
      at which the iteration looked at the clock. */
  datatype Sample = Sample(level: Level, now: int)

  /** One database update `N:<counter>:<increment>`: the cumulative meter reading
      (cubic metres) and the amount attributed to this write. */
  datatype Update = Update(counter: real, increment: real)

  /** Amount added to the counter per detected dial rotation (cubic metres). */
  const TriggerStep: real := 0.01

  /** Fixed sleep at the top of every loop iteration (0.07 s). */
  const PollMs: nat := 70

  /** Hysteresis sleep after an accepted transition (0.5 s). */
  const HysteresisMs: nat := 500

  /** A zero-increment write is due once more than this has passed since the last write (3600 s). */
  const HeartbeatMs: nat := 3_600_000

  /** The record that seeds the database with a known meter reading. */
  function SeedRecord(initCounter: real): (u: Update)
    ensures u.counter == initCounter
    ensures u.increment == 0.0
  {
    Update(initCounter, 0.0)
  }

  /** Start-up seeding as written: the command line value is tested for Python
      truthiness, so a requested reading of 0.0 is never written. */
  function SeedWriteAsWritten(init: Option<real>): (w: Option<Update>)
    ensures w.Some? <==> init.Some? && init.value != 0.0
    ensures w.Some? ==> w.value == SeedRecord(init.value)
  {
    if init.Some? && init.value != 0.0 then Some(SeedRecord(init.value)) else None
  }

  /** A requested reading of zero is dropped by the start-up code as written. */
  lemma SeedZeroDropped()
    ensures SeedWriteAsWritten(Some(0.0)) == None
  {
  }

  /** Start-up seeding as intended: every reading given on the command line is written. */
  function SeedWrite(init: Option<real>): (w: Option<Update>)
    ensures w.Some? <==> init.Some?
    ensures w.Some? ==> w.value == SeedRecord(init.value)
  {
    if init.Some? then Some(SeedRecord(init.value)) else None
  }

  /** The corrected seeding agrees with the code as written on every reading but zero. */
  lemma SeedWriteAgreesExceptZero(init: Option<real>)
    ensures SeedWrite(init) != SeedWriteAsWritten(init) <==> init == Some(0.0)
  {
  }
}
