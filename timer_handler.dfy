/**
  The uptime counter advanced by the 1 ms timer interrupt: milliseconds,
  seconds, minutes and hours with their roll-overs, and the main-routine check
  counter that raises a flag once per cycle while the application runs.
 */
module TimerHandler {
  import opened CTypes

  /** The four uptime counters. */
  datatype Clock = Clock(msec: uint16, sec: uint8, min: uint8, hour: uint32)

  /** Ticks per reported "second": the roll-over happens when the counter reaches 999. */
  const TicksPerSecond: nat := 999

  /** Ticks until the 32-bit hour counter wraps around. */
  const Period: nat := 0x1_0000_0000 * 60 * 60 * TicksPerSecond

  /** The counter bounds that hold from the zero state on. */
  predicate InRange(c: Clock) {
    c.msec < TicksPerSecond && c.sec < 60 && c.min < 60
  }

  /** The number of ticks an in-range clock has counted since zero. */
  function Ticks(c: Clock): nat {
    ((c.hour * 60 + c.min) * 60 + c.sec) * TicksPerSecond + c.msec
  }

  /** The counters after one interrupt, with the wrap-around of each C counter type. */
  function Advance(c: Clock): (r: Clock)
    ensures InRange(c) ==> InRange(r)
    ensures InRange(c) && c != Last ==> Ticks(r) == Ticks(c) + 1
    ensures c == Last ==> r == Clock(0, 0, 0, 0)
  {
    var ms := Trunc16(c.msec + 1);
    var (ms, s) := if ms >= TicksPerSecond then (0, Trunc8(c.sec + 1)) else (ms, c.sec);
    var (s, m) := if s >= 60 then (0, Trunc8(c.min + 1)) else (s, c.min);
    var (m, h) := if m >= 60 then (0, Trunc32(c.hour + 1)) else (m, c.hour);
    Clock(ms, s, m, h)
  }

  /** Lexicographic order on (hour, min, sec, msec). */
  predicate Before(a: Clock, b: Clock) {
    a.hour < b.hour
    || (a.hour == b.hour && a.min < b.min)
    || (a.hour == b.hour && a.min == b.min && a.sec < b.sec)
    || (a.hour == b.hour && a.min == b.min && a.sec == b.sec && a.msec < b.msec)
  }

  /** The last in-range state, after which the hour counter wraps to zero. */
  const Last: Clock := Clock(TicksPerSecond - 1, 59, 59, 0xFFFF_FFFF)

  /** A tick keeps the counters in range and counts exactly one more tick, modulo the hour wrap. */
  lemma AdvanceCounts(c: Clock)
    requires InRange(c)
    ensures InRange(Advance(c))
    ensures c != Last ==> Ticks(Advance(c)) == Ticks(c) + 1
    ensures c == Last ==> Advance(c) == Clock(0, 0, 0, 0)
  {
  }

  /** Uptime strictly increases with every tick, up to the hour wrap. */
  lemma AdvanceIncreases(c: Clock)
    requires InRange(c) && c != Last
    ensures Before(c, Advance(c))
  {
  }

  /** The clock after `n` ticks from zero. */
  function AfterTicks(n: nat): Clock {
    if n == 0 then Clock(0, 0, 0, 0) else Advance(AfterTicks(n - 1))
  }

  /**
    From the zero state the counters stay in range, and before the hour
    counter wraps they always hold the number of ticks so far.
   */
  lemma {:induction false} AfterTicksCounts(n: nat)
    ensures InRange(AfterTicks(n))
    ensures n < Period ==> Ticks(AfterTicks(n)) == n
  {
    if n > 0 {
      var c := AfterTicks(n - 1);
      AfterTicksCounts(n - 1);
      AdvanceCounts(c);
      if n < Period {
        assert Ticks(Last) == Period - 1;
        assert c != Last;
      }
    }
  }

  /**
    The routine-check counter after one interrupt: while the application runs it is
    incremented (as a `uint16_t`) and, on reaching the cycle length, reset to 0
    with the flag raised; otherwise counter and flag stay as they were.
   */
  function CheckStep(count: uint16, flag: uint8, running: bool, cycle: uint16): (r: (uint16, uint8))
    ensures !running ==> r == (count, flag)
    ensures running && Trunc16(count + 1) >= cycle ==> r == (0, 1)
    ensures running && Trunc16(count + 1) < cycle ==> r == (Trunc16(count + 1), flag)
  {
    if running then
      var next := Trunc16(count + 1);
      if next >= cycle then (0, 1) else (next, flag)
    else (count, flag)
  }

  /** Below the cycle length the counter stays below it, and the flag is raised once per `cycle` running ticks. */
  lemma CheckStepBound(count: uint16, flag: uint8, running: bool, cycle: uint16)
    requires count < cycle
    ensures CheckStep(count, flag, running, cycle).0 < cycle
    ensures running && count + 1 == cycle ==> CheckStep(count, flag, running, cycle) == (0, 1)
    ensures running && count + 1 < cycle ==> CheckStep(count, flag, running, cycle) == (count + 1, flag)
  {
  }

  class Uptime {
    var msec: uint16
    var sec: uint8
    var min: uint8
    var hour: uint32
    var checkTime: uint16
    var flagCheckMainRoutine: uint8
    /** The main-routine check cycle in milliseconds, a build-time constant of the firmware. */
    const checkCycle: uint16

    function Now(): Clock
      reads this
    {
      Clock(msec, sec, min, hour)
    }

    /** The counters as the statics start out: all zero. */
    constructor (checkCycle: uint16)
      ensures Now() == Clock(0, 0, 0, 0) && checkTime == 0 && flagCheckMainRoutine == 0
      ensures this.checkCycle == checkCycle
    {
      msec, sec, min, hour := 0, 0, 0, 0;
      checkTime, flagCheckMainRoutine := 0, 0;
      this.checkCycle := checkCycle;
    }

    /** One timer interrupt; `applicationRunning` is the main loop's flag. */
    method Tick(applicationRunning: bool)
      modifies this
      ensures Now() == Advance(old(Now()))
      ensures (checkTime, flagCheckMainRoutine)
              == CheckStep(old(checkTime), old(flagCheckMainRoutine), applicationRunning, checkCycle)
    {
      msec := Trunc16(msec + 1);

      if applicationRunning {
        checkTime := Trunc16(checkTime + 1);
        if checkTime >= checkCycle {
          flagCheckMainRoutine := 1;
          checkTime := 0;
        }
      }

      if msec >= TicksPerSecond {
        msec := 0;
        sec := Trunc8(sec + 1);
      }

      if sec >= 60 {
        sec := 0;
        min := Trunc8(min + 1);
      }

      if min >= 60 {
        min := 0;
        hour := Trunc32(hour + 1);
      }
    }

    function UptimeHour(): uint32 reads this { hour }
    function UptimeMin(): uint8 reads this { min }
    function UptimeSec(): uint8 reads this { sec }
    function UptimeMsec(): uint16 reads this { msec }
  }
}
