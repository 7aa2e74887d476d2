/** The CONTROL ECU's firmware as it runs: the globals of APP/CONTROL_ECU.c as
    fields, the three password buffers as 5-byte arrays, and the handlers of
    APP/DEVICE_FUNCTIONS.c as methods whose loops fill the arrays, compare
    them and write the EEPROM one byte at a time. Each handler is proved to
    take the ECU from a state to the state ControlSpec assigns to it. */
module ControlEcu {
  import opened Common
  import opened DoorProtocol
  import opened DcMotor
  import opened ControlSpec

  /** The EEPROM after the first `k` of definePassword's five writes. */
  function CommitFirst(m: map<int, byte>, p: Password, k: nat): map<int, byte>
    requires k <= PasswordLength
  {
    if k == 0 then m else CommitFirst(m, p, k - 1)[PasswordAddress + k - 1 := p[k - 1]]
  }

  /** All five writes, one at a time, give the committed EEPROM. */
  lemma CommitFirstAll(m: map<int, byte>, p: Password)
    ensures CommitFirst(m, p, PasswordLength) == Commit(m, p)
  {
    assert CommitFirst(m, p, 1) == m[PasswordAddress := p[0]];
    assert CommitFirst(m, p, 2) == m[PasswordAddress := p[0]][PasswordAddress + 1 := p[1]];
    assert CommitFirst(m, p, 3) == CommitFirst(m, p, 2)[PasswordAddress + 2 := p[2]];
    assert CommitFirst(m, p, 4) == CommitFirst(m, p, 3)[PasswordAddress + 3 := p[3]];
  }

  class Ecu {
    var rx: seq<byte>
    var tx: seq<byte>
    var eeprom: map<int, byte>
    const received: array<byte>
    const reenter: array<byte>
    const current: array<byte>
    var command: byte
    var passwordState: byte
    var seconds: byte
    var timerOn: bool
    var rotation: Rotation
    var speed: byte
    var buzzer: bool
    var alarms: nat

    /** Three separate 5-byte buffers. */
    ghost predicate Valid()
      reads this
    {
      received.Length == PasswordLength && reenter.Length == PasswordLength &&
      current.Length == PasswordLength &&
      received != reenter && received != current && reenter != current
    }

    /** The flags, the counter and the actuators are as in `s`. */
    ghost predicate KeepsSettings(s: Control)
      reads this
    {
      command == s.command && passwordState == s.passwordState && seconds == s.seconds &&
      timerOn == s.timerOn && rotation == s.rotation && speed == s.speed &&
      buzzer == s.buzzer && alarms == s.alarms
    }

    /** The ECU's state as a value. */
    function State(): Control
      reads this, received, reenter, current
      requires Valid()
    {
      Control(rx, tx, eeprom, received[..], reenter[..], current[..], command,
              passwordState, seconds, timerOn, rotation, speed, buzzer, alarms)
    }

    /** Power-up: the globals at their initial values, with the given UART
        input and EEPROM contents. */
    constructor (input: seq<byte>, memory: map<int, byte>)
      ensures Valid() && State() == Initial(input, memory)
      ensures fresh(received) && fresh(reenter) && fresh(current)
    {
      rx, tx, eeprom := input, [], memory;
      received := new byte[PasswordLength](_ => 0);
      reenter := new byte[PasswordLength](_ => 0);
      current := new byte[PasswordLength](_ => 0);
      command, passwordState, seconds := 0, 0, 0;
      timerOn, rotation, speed, buzzer, alarms := false, Stop, 0, false, 0;
    }

    /** scanPassword */
    method ScanPassword()
      requires Valid() && HasPasswordSlots(eeprom)
      modifies this, current
      ensures Valid() && State() == Scan(old(State()))
    {
      LoadPassword();
      ghost var p: Password := current[..];
      var counter := 0;
      while counter < PasswordLength
        invariant 0 <= counter <= PasswordLength && current[..] == p
        invariant rx == old(rx) && eeprom == old(eeprom)
        invariant KeepsSettings(old(State()).(passwordState := passwordState))
        invariant counter < PasswordLength ==>
          tx == old(tx) && passwordState == old(passwordState) &&
          ScanLoop(p, counter) == ScanLoop(p, 0)
        invariant counter == PasswordLength ==>
          tx == old(tx) + [Rejected] && passwordState == old(passwordState) &&
          ScanLoop(p, 0) == Rejected
      {
        if current[counter] != 0 {
          passwordState := 1;
          tx := tx + [PasswordFound];
          break;
        }
        if counter == PasswordLength - 1 {
          tx := tx + [Rejected];
        }
        counter := counter + 1;
      }
    }

    /** The read loop of scanPassword: the five bytes at 0x0001..0x0005 go
        into currentPassword. */
    method LoadPassword()
      requires Valid() && HasPasswordSlots(eeprom)
      modifies current
      ensures Valid() && current[..] == StoredPassword(eeprom)
    {
      var counter := 0;
      while counter < PasswordLength
        invariant 0 <= counter <= PasswordLength
        invariant forall i :: 0 <= i < counter ==> current[i] == eeprom[PasswordAddress + i]
      {
        current[counter] := eeprom[PasswordAddress + counter];
        counter := counter + 1;
      }
    }

    /** Reads `PasswordLength` bytes from the UART into `buffer`. */
    method Receive(buffer: array<byte>)
      requires Valid() && |rx| >= PasswordLength && buffer.Length == PasswordLength
      modifies this, buffer
      ensures Valid() && buffer[..] == old(rx[..PasswordLength]) && rx == old(rx[PasswordLength..])
      ensures tx == old(tx) && eeprom == old(eeprom) && KeepsSettings(old(State()))
    {
      ghost var input := rx;
      var counter := 0;
      while counter < PasswordLength
        invariant 0 <= counter <= PasswordLength
        invariant buffer[..counter] == input[..counter] && rx == input[counter..]
        invariant Valid() && tx == old(tx) && eeprom == old(eeprom) && KeepsSettings(old(State()))
      {
        buffer[counter] := rx[0];
        rx := rx[1..];
        counter := counter + 1;
      }
    }

    /** definePassword. The write loop reuses the comparison loop's counter:
        it leaves it at 5, so the comparison loop ends after one reply. */
    method DefinePassword()
      requires Valid() && |rx| >= 2 * PasswordLength
      modifies this, received, reenter
      ensures Valid() && State() == Define(old(State()))
    {
      ghost var s0 := State();
      Receive(received);
      Receive(reenter);
      assert s0.rx[..PasswordLength] == received[..];
      assert s0.rx[PasswordLength..2 * PasswordLength] == reenter[..];
      assert rx == s0.rx[2 * PasswordLength..];
      ghost var a: Password := received[..];
      ghost var b: Password := reenter[..];
      ghost var m := eeprom;
      var counter := 0;
      while counter < PasswordLength
        invariant 0 <= counter <= PasswordLength + 1 && counter != PasswordLength
        invariant received[..] == a && reenter[..] == b
        invariant rx == s0.rx[2 * PasswordLength..] && KeepsSettings(s0)
        invariant counter < PasswordLength ==>
          tx == s0.tx && eeprom == m && CompareLoop(a, b, counter, DefineCommand) == CompareLoop(a, b, 0, DefineCommand)
        invariant counter == PasswordLength + 1 ==>
          tx == s0.tx + [DefineCommand] && eeprom == Commit(m, a) &&
          CompareLoop(a, b, 0, DefineCommand) == DefineCommand
      {
        if received[counter] != reenter[counter] {
          tx := tx + [Rejected];
          break;
        }
        if counter == PasswordLength - 1 {
          counter := WritePassword();
          tx := tx + [DefineCommand];
        }
        counter := counter + 1;
      }
    }

    /** The write loop of definePassword: the five bytes of receivedPassword
        go to 0x0001..0x0005, one at a time; the loop counter ends at 5. */
    method WritePassword() returns (counter: nat)
      requires Valid()
      modifies this
      ensures Valid() && counter == PasswordLength
      ensures eeprom == Commit(old(eeprom), received[..])
      ensures rx == old(rx) && tx == old(tx) && KeepsSettings(old(State()))
    {
      ghost var m := eeprom;
      counter := 0;
      while counter < PasswordLength
        invariant 0 <= counter <= PasswordLength && eeprom == CommitFirst(m, received[..], counter)
        invariant rx == old(rx) && tx == old(tx) && KeepsSettings(old(State()))
      {
        eeprom := eeprom[PasswordAddress + counter := received[counter]];
        counter := counter + 1;
      }
      CommitFirstAll(m, received[..]);
    }

    /** checkPassword */
    method CheckPassword()
      requires Valid() && |rx| >= PasswordLength
      modifies this, received
      ensures Valid() && State() == Check(old(State()))
    {
      Receive(received);
      ghost var a: Password := received[..];
      ghost var c: Password := current[..];
      var counter := 0;
      while counter < PasswordLength
        invariant 0 <= counter <= PasswordLength
        invariant received[..] == a && current[..] == c
        invariant rx == old(rx)[PasswordLength..] && eeprom == old(eeprom)
        invariant KeepsSettings(old(State()))
        invariant counter < PasswordLength ==>
          tx == old(tx) && CompareLoop(a, c, counter, CheckCommand) == CompareLoop(a, c, 0, CheckCommand)
        invariant counter == PasswordLength ==>
          tx == old(tx) + [CheckCommand] && CompareLoop(a, c, 0, CheckCommand) == CheckCommand
      {
        if received[counter] != current[counter] {
          tx := tx + [Rejected];
          break;
        }
        if counter == PasswordLength - 1 {
          tx := tx + [CheckCommand];
        }
        counter := counter + 1;
      }
    }

    /** doorUnlock */
    method DoorUnlock()
      requires Valid()
      modifies this
      ensures Valid() && State() == Unlock(old(State()))
    {
      rotation, speed := Clockwise, 100;
      tx := tx + [DoorCommand];
      timerOn := true;
    }

    /** timerSeconds, called once per Timer1 compare match, which happens
        only while doorUnlock's Timer1_start has the timer clocked. */
    method TimerSeconds()
      requires Valid() && timerOn
      modifies this
      ensures Valid() && State() == Tick(old(State()))
    {
      seconds := (seconds + 1) % 256;
      if seconds == 15 {
        tx := tx + [DoorCommand];
        rotation, speed := Stop, 0;
      } else if seconds == 18 {
        tx := tx + [DoorCommand];
        rotation, speed := CounterClockwise, 100;
      } else if seconds == 33 {
        tx := tx + [DoorCommand];
        rotation, speed := Stop, 0;
        timerOn := false;
        seconds := 0;
      }
    }

    /** breachDetection */
    method BreachDetection()
      requires Valid()
      modifies this
      ensures Valid() && State() == Breach(old(State()))
    {
      buzzer := true;
      alarms := alarms + 1;
      buzzer := false;
    }

    /** One pass of main's loop. */
    method Step()
      requires Valid() && CommandReady(rx)
      modifies this, received, reenter
      ensures Valid() && State() == ControlSpec.Step(old(State()))
    {
      command := rx[0];
      rx := rx[1..];
      if command == DefineCommand {
        DefinePassword();
      } else if command == CheckCommand {
        CheckPassword();
      } else if command == DoorCommand {
        DoorUnlock();
      } else if command == BreachCommand {
        BreachDetection();
      }
    }

    /** main's loop, run over a finite input of complete commands. */
    method Serve()
      requires Valid() && WellFramed(rx)
      modifies this, received, reenter
      ensures Valid() && State() == ControlSpec.Serve(old(State()))
    {
      while rx != []
        invariant Valid() && WellFramed(rx)
        invariant ControlSpec.Serve(State()) == ControlSpec.Serve(old(State()))
        decreases |rx|
      {
        Step();
      }
    }
  }

  /** main: power-up, scanPassword once, then the command loop. */
  method PowerUp(input: seq<byte>, memory: map<int, byte>) returns (ecu: Ecu)
    requires HasPasswordSlots(memory) && WellFramed(input)
    ensures ecu.Valid() && ecu.State() == ControlSpec.Serve(Boot(input, memory))
  {
    ecu := new Ecu(input, memory);
    ecu.ScanPassword();
    ecu.Serve();
  }
}
