/** The stopwatch: Timer1 interrupts once a second and advances an
    hours:minutes:seconds count that wraps at 24 hours; three external
    interrupts reset, pause and resume it by changing Timer1's clock-select
    bits; the main loop multiplexes the six digits onto a 7-segment display. */
module StopWatch {
  import opened Common
  import opened BitMacros

  /** The three globals. */
  datatype Clock = Clock(hours: byte, minutes: byte, seconds: byte)

  /** A time of day. */
  predicate Valid(c: Clock)
  {
    c.hours <= 23 && c.minutes < 60 && c.seconds < 60
  }

  /** Seconds since midnight: the reference the tick is specified against. */
  function ToSeconds(c: Clock): nat
  {
    c.hours * 3600 + c.minutes * 60 + c.seconds
  }

  const SecondsPerDay := 86400

  /** The Timer1 compare-match handler, with the globals' uint8 arithmetic:
      seconds roll into minutes at 60, minutes into hours at 60, and past
      hour 23 the hours and seconds return to 0. */
  function Tick(c: Clock): (r: Clock)
    ensures Valid(c) ==> Valid(r)
  {
    var s := (c.seconds + 1) % 256;
    var m := if s == 60 then (c.minutes + 1) % 256 else c.minutes;
    var s := if s == 60 then 0 else s;
    var h := if m == 60 then (c.hours + 1) % 256 else c.hours;
    var m := if m == 60 then 0 else m;
    if h > 23 then Clock(0, m, 0) else Clock(h, m, s)
  }

  /** On a time of day the tick is the next second, modulo a day. */
  lemma TickAdvances(c: Clock)
    requires Valid(c)
    ensures ToSeconds(Tick(c)) ==
      if ToSeconds(c) + 1 == SecondsPerDay then 0 else ToSeconds(c) + 1
  {
    if c.seconds < 59 {
      assert Tick(c) == c.(seconds := c.seconds + 1);
    } else if c.minutes < 59 {
      assert Tick(c) == Clock(c.hours, c.minutes + 1, 0);
    } else if c.hours < 23 {
      assert Tick(c) == Clock(c.hours + 1, 0, 0);
    } else {
      assert Tick(c) == Clock(0, 0, 0);
    }
  }

  /** Midnight follows 23:59:59. */
  lemma TickMidnight()
    ensures Tick(Clock(23, 59, 59)) == Clock(0, 0, 0)
  {
  }

  /** Clock-select bits of TCCR1B. */
  const CS10: bv8 := 0
  const CS11: bv8 := 1
  const CS12: bv8 := 2

  /** Timer1 counts at clock/64. */
  predicate Running(tccr1b: bv8)
  {
    Bit(tccr1b, CS10) && Bit(tccr1b, CS11) && !Bit(tccr1b, CS12)
  }

  /** Timer1 has no clock source. */
  predicate Stopped(tccr1b: bv8)
  {
    !Bit(tccr1b, CS10) && !Bit(tccr1b, CS11) && !Bit(tccr1b, CS12)
  }

  /** Selecting clock/64, as the reset and resume handlers do: only the
      clock-select bits change. */
  function StartClock(tccr1b: bv8): (r: bv8)
    ensures Running(r) && AgreeOutside(r, tccr1b, {CS10, CS11, CS12})
  {
    var a := SetBit(tccr1b, CS10);
    var b := SetBit(a, CS11);
    ClearBit(b, CS12)
  }

  /** Removing the clock source, as the pause handler does: only the
      clock-select bits change. */
  function StopClock(tccr1b: bv8): (r: bv8)
    ensures Stopped(r) && AgreeOutside(r, tccr1b, {CS10, CS11, CS12})
  {
    var a := ClearBit(tccr1b, CS10);
    var b := ClearBit(a, CS11);
    ClearBit(b, CS12)
  }

  /** The digits main writes to PORTC in one pass of its loop, in the order
      it writes them: seconds, minutes and hours, units before tens. */
  function Digits(c: Clock): seq<byte>
  {
    [c.seconds % 10, c.seconds / 10, c.minutes % 10, c.minutes / 10,
     c.hours % 10, c.hours / 10]
  }

  /** The time read back from the six digits. */
  function FromDigits(d: seq<byte>): Clock
    requires |d| == 6 && forall i :: 0 <= i < 6 ==> d[i] < 10
  {
    Clock(d[5] * 10 + d[4], d[3] * 10 + d[2], d[1] * 10 + d[0])
  }

  /** On a time of day every digit fits one 7-segment display, and the
      display shows the time exactly. */
  lemma DigitsShowTime(c: Clock)
    requires Valid(c)
    ensures forall i :: 0 <= i < 6 ==> Digits(c)[i] < 10
    ensures FromDigits(Digits(c)) == c
  {
  }

  /** The stopwatch as the firmware keeps it. */
  class Stopwatch {
    var hours: byte
    var minutes: byte
    var seconds: byte
    var tccr1b: bv8
    var tcnt1: word

    function Time(): Clock
      reads this
    {
      Clock(hours, minutes, seconds)
    }

    /** The globals at 0, and Timer1_CTC_Init on the reset value of TCCR1B:
        CTC mode (WGM12) at clock/64. */
    constructor ()
      ensures Time() == Clock(0, 0, 0) && Running(tccr1b) && tcnt1 == 0
    {
      hours, minutes, seconds := 0, 0, 0;
      tcnt1 := 0;
      tccr1b := SetBit(SetBit(SetBit(0, 3), CS11), CS10);
    }

    /** ISR(TIMER1_COMPA_vect) */
    method TimerTick()
      modifies this
      ensures Time() == Tick(old(Time())) && tccr1b == old(tccr1b) && tcnt1 == old(tcnt1)
    {
      seconds := (seconds + 1) % 256;
      if seconds == 60 {
        seconds := 0;
        minutes := (minutes + 1) % 256;
      }
      if minutes == 60 {
        minutes := 0;
        hours := (hours + 1) % 256;
      }
      if hours > 23 {
        seconds := 0;
        hours := 0;
      }
    }

    /** ISR(INT0_vect): back to 00:00:00, counting from a fresh second. */
    method Reset()
      modifies this
      ensures Time() == Clock(0, 0, 0) && tcnt1 == 0 && tccr1b == StartClock(old(tccr1b))
    {
      hours, minutes, seconds := 0, 0, 0;
      tccr1b := SetBit(tccr1b, CS10);
      tccr1b := SetBit(tccr1b, CS11);
      tccr1b := ClearBit(tccr1b, CS12);
      tcnt1 := 0;
    }

    /** ISR(INT1_vect) */
    method Pause()
      modifies this
      ensures Time() == old(Time()) && tcnt1 == old(tcnt1) && tccr1b == StopClock(old(tccr1b))
    {
      tccr1b := ClearBit(tccr1b, CS10);
      tccr1b := ClearBit(tccr1b, CS11);
      tccr1b := ClearBit(tccr1b, CS12);
    }

    /** ISR(INT2_vect) */
    method Resume()
      modifies this
      ensures Time() == old(Time()) && tcnt1 == old(tcnt1) && tccr1b == StartClock(old(tccr1b))
    {
      tccr1b := SetBit(tccr1b, CS10);
      tccr1b := SetBit(tccr1b, CS11);
      tccr1b := ClearBit(tccr1b, CS12);
    }

    /** One pass of main's display loop: the anode enabled on PORTA and the
        digit written to PORTC, six times. */
    method Refresh() returns (anodes: seq<bv8>, digits: seq<byte>)
      ensures anodes == [1, 2, 4, 8, 16, 32]
      ensures digits == Digits(Time())
      ensures Valid(Time()) ==> FromDigits(digits) == Time()
    {
      anodes, digits := [], [];
      anodes, digits := anodes + [1 << 0], digits + [seconds % 10];
      anodes, digits := anodes + [1 << 1], digits + [seconds / 10];
      anodes, digits := anodes + [1 << 2], digits + [minutes % 10];
      anodes, digits := anodes + [1 << 3], digits + [minutes / 10];
      anodes, digits := anodes + [1 << 4], digits + [hours % 10];
      anodes, digits := anodes + [1 << 5], digits + [hours / 10];
      if Valid(Time()) {
        DigitsShowTime(Time());
      }
    }
  }
}
