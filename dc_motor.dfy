/** The DC motor driver (HAL/dc_motor.c): an H-bridge on PORTB whose enable
    pin carries Timer0's PWM output and whose two direction pins IN1 and IN2
    choose the rotation. */
module DcMotor {
  import opened Common
  import opened BitMacros
  import opened Gpio

  /** DC_MOTOR_PORT, DC_MOTOR_ENABLE, DC_MOTOR_IN1 and DC_MOTOR_IN2. */
  const MotorPort: bv8 := PortB
  const EnablePin: bv8 := 3
  const In1: bv8 := 1
  const In2: bv8 := 2

  /** ROTATION_STATE: STOP, CLOCKWISE, COUNTER_CLOCKWISE. */
  datatype Rotation = Stop | Clockwise | CounterClockwise

  /** The Timer0 compare value for a speed percentage. The product is taken
      to 16 bits, divided by 100, truncated to 8 bits, and 5 is added in
      8-bit arithmetic; for a percentage up to 100 none of the truncations
      bites and the compare value lies between 5 and 255. */
  function DutyCycle(speed: byte): (d: byte)
    ensures speed <= 100 ==> d == speed * 250 / 100 + 5
    ensures speed <= 100 ==> 5 <= d <= 255
  {
    ToByte(ToByte((speed * 250) % 0x1_0000 / 100) + 5)
  }

  /** The compare value never drops when the speed rises within 0..100. */
  lemma DutyCycleMonotone(a: byte, b: byte)
    requires a <= b <= 100
    ensures DutyCycle(a) <= DutyCycle(b)
  {
    assert a * 250 <= b * 250;
    assert a * 250 / 100 <= b * 250 / 100;
  }

  /** Standstill gives the smallest compare value and full speed the top one. */
  lemma DutyCycleEnds()
    ensures DutyCycle(0) == 5 && DutyCycle(100) == 255
  {
  }

  /** Above 100 the 8-bit addition wraps: 101 gives compare value 1. */
  lemma DutyCycleWrapsAbove100()
    ensures DutyCycle(101) == 1
  {
  }

  /** The motor: the GPIO register file it drives and Timer0's PWM state
      (running or not, and the compare value it was last started with). */
  class Motor {
    const regs: Registers
    var pwmRunning: bool
    var pwmCompare: byte

    ghost predicate Valid()
      reads this, regs
    {
      regs.Valid()
    }

    /** Level of IN1 and IN2 in PORTB. */
    ghost predicate In1High()
      reads this, regs
      requires Valid()
    {
      Bit(regs.port[MotorPort as int], In1)
    }

    ghost predicate In2High()
      reads this, regs
      requires Valid()
    {
      Bit(regs.port[MotorPort as int], In2)
    }

    /** Everything except IN1 and IN2 of PORTB is as in `p`. */
    ghost predicate OnlyDirectionPinsChanged(p: seq<bv8>)
      reads this, regs
      requires Valid() && |p| == 4
    {
      (forall q :: 0 <= q < 4 && q != MotorPort as int ==> regs.port[q] == p[q]) &&
      AgreeOutside(regs.port[MotorPort as int], p[MotorPort as int], {In1, In2})
    }

    constructor (regs: Registers)
      requires regs.Valid()
      ensures this.regs == regs && Valid()
      ensures !pwmRunning && pwmCompare == 0
    {
      this.regs := regs;
      pwmRunning := false;
      pwmCompare := 0;
    }

    /** DCMotor_init: the enable pin and both direction pins become outputs,
        and both direction pins are driven low. */
    method Init()
      requires Valid()
      modifies regs
      ensures Valid() && regs.pin == old(regs.pin)
      ensures Bit(regs.ddr[MotorPort as int], EnablePin)
      ensures Bit(regs.ddr[MotorPort as int], In1) && Bit(regs.ddr[MotorPort as int], In2)
      ensures !In1High() && !In2High()
      ensures OnlyDirectionPinsChanged(old(regs.port))
    {
      regs.SetupPinDirection(MotorPort, EnablePin, PinOutput);
      regs.SetupPinDirection(MotorPort, In1, PinOutput);
      regs.SetupPinDirection(MotorPort, In2, PinOutput);
      regs.WritePin(MotorPort, In1, LogicLow);
      regs.WritePin(MotorPort, In2, LogicLow);
    }

    /** DCMotor_Rotate: STOP halts the PWM timer and drives both direction
        pins low; CLOCKWISE and COUNTER_CLOCKWISE start the PWM timer with
        the speed's duty cycle and drive exactly one direction pin high. */
    method Rotate(rotation: Rotation, speed: byte)
      requires Valid()
      modifies this, regs
      ensures Valid() && regs.ddr == old(regs.ddr) && regs.pin == old(regs.pin)
      ensures OnlyDirectionPinsChanged(old(regs.port))
      ensures rotation == Stop ==> !pwmRunning && pwmCompare == old(pwmCompare)
      ensures rotation != Stop ==> pwmRunning && pwmCompare == DutyCycle(speed)
      ensures In1High() <==> rotation == Clockwise
      ensures In2High() <==> rotation == CounterClockwise
      ensures !(In1High() && In2High())
    {
      var dutyCycle := DutyCycle(speed);
      match rotation {
        case Stop =>
          pwmRunning := false;
          regs.WritePin(MotorPort, In1, LogicLow);
          regs.WritePin(MotorPort, In2, LogicLow);
        case Clockwise =>
          pwmRunning, pwmCompare := true, dutyCycle;
          regs.WritePin(MotorPort, In1, LogicHigh);
          regs.WritePin(MotorPort, In2, LogicLow);
        case CounterClockwise =>
          pwmRunning, pwmCompare := true, dutyCycle;
          regs.WritePin(MotorPort, In1, LogicLow);
          regs.WritePin(MotorPort, In2, LogicHigh);
      }
    }
  }
}
