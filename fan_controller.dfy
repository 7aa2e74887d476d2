/** The fan controller's main loop (fan_controller_project.c): each pass reads
    the temperature and commands the motor according to the band the reading
    falls in. The LM35 reading is an input to the model; the LCD output is
    not modelled. */
module FanController {
  import opened Common
  import opened DcMotor

  /** One call of DCMotor_Rotate: a rotation and a speed percentage. */
  datatype Command = Command(rotation: Rotation, speed: byte)

  /** The if/else-if chain of the loop body. It yields None when no branch
      fires, which for an 8-bit reading never happens: the bands below 30,
      [30,60), [60,90), [90,120) and from 120 on cover 0..255. */
  function Band(temp: byte): (c: Option<Command>)
    ensures c.Some?
    ensures c.value.rotation == Stop <==> temp < 30
    ensures c.value.rotation != CounterClockwise
    ensures c.value.speed <= 100
  {
    if temp < 30 then Some(Command(Stop, 0))
    else if temp >= 30 && temp < 60 then Some(Command(Clockwise, 25))
    else if temp >= 60 && temp < 90 then Some(Command(Clockwise, 50))
    else if temp >= 90 && temp < 120 then Some(Command(Clockwise, 75))
    else if temp >= 120 then Some(Command(Clockwise, 100))
    else None
  }

  /** A closed form of the bands: 25 more percent for every 30 degrees from 30
      on, capped at 100. */
  function SpeedFor(temp: byte): byte
  {
    if temp < 30 then 0
    else if 25 * (temp / 30) > 100 then 100
    else 25 * (temp / 30)
  }

  /** The chain of bands agrees with the closed form. */
  lemma BandIsClosedForm(temp: byte)
    ensures Band(temp).value.speed == SpeedFor(temp)
  {
    if temp < 30 {
    } else if temp < 60 {
      assert temp / 30 == 1;
    } else if temp < 90 {
      assert temp / 30 == 2;
    } else if temp < 120 {
      assert temp / 30 == 3;
    } else {
      assert temp / 30 >= 4;
    }
  }

  /** A hotter reading never asks for a slower fan. */
  lemma BandSpeedMonotone(a: byte, b: byte)
    requires a <= b
    ensures Band(a).value.speed <= Band(b).value.speed
  {
    BandIsClosedForm(a);
    BandIsClosedForm(b);
    assert a / 30 <= b / 30;
  }

  /** The loop over a finite sequence of readings: one motor command per
      reading, chosen by its band; the motor ends in the state the last
      reading's command sets. */
  method Run(motor: Motor, readings: seq<byte>) returns (issued: seq<Command>)
    requires motor.Valid()
    modifies motor, motor.regs
    ensures motor.Valid()
    ensures |issued| == |readings|
    ensures forall i :: 0 <= i < |readings| ==> Band(readings[i]) == Some(issued[i])
    ensures |readings| > 0 ==> (motor.In1High() <==> readings[|readings| - 1] >= 30)
    ensures |readings| > 0 ==> !motor.In2High()
    ensures |readings| > 0 ==> (motor.pwmRunning <==> readings[|readings| - 1] >= 30)
    ensures |readings| > 0 && readings[|readings| - 1] >= 30 ==>
      motor.pwmCompare == DutyCycle(Band(readings[|readings| - 1]).value.speed)
    ensures motor.regs.ddr == old(motor.regs.ddr) && motor.regs.pin == old(motor.regs.pin)
    ensures motor.OnlyDirectionPinsChanged(old(motor.regs.port))
  {
    issued := [];
    ghost var port0 := motor.regs.port;
    var k := 0;
    while k < |readings|
      invariant 0 <= k <= |readings|
      invariant motor.Valid()
      invariant |issued| == k
      invariant forall i :: 0 <= i < k ==> Band(readings[i]) == Some(issued[i])
      invariant k > 0 ==> (motor.In1High() <==> readings[k - 1] >= 30)
      invariant k > 0 ==> !motor.In2High()
      invariant k > 0 ==> (motor.pwmRunning <==> readings[k - 1] >= 30)
      invariant k > 0 && readings[k - 1] >= 30 ==>
        motor.pwmCompare == DutyCycle(Band(readings[k - 1]).value.speed)
      invariant motor.regs.ddr == old(motor.regs.ddr) && motor.regs.pin == old(motor.regs.pin)
      invariant motor.OnlyDirectionPinsChanged(port0)
    {
      var command := Band(readings[k]).value;
      motor.Rotate(command.rotation, command.speed);
      issued := issued + [command];
      k := k + 1;
    }
  }
}
