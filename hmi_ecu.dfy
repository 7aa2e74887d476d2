/** The HMI ECU's firmware as it runs: the globals of APP/HMI_ECU.c (and
    main's failure count) as fields, the two password entries as 5-byte
    arrays, and the screens and helpers of DEVICE_SCREENS.c and
    DEVICE_FUNCTIONS.c as methods. Each is proved to take the ECU to the
    state HmiSpec assigns to it. */
module HmiEcu {
  import opened Common
  import opened DoorProtocol
  import opened HmiSpec
  import Keypad

  class Terminal {
    var keys: seq<byte>
    var rx: seq<byte>
    var tx: seq<byte>
    var key: byte
    var reenter: byte
    var passwordState: byte
    var buttonCount: byte
    const password: array<byte>
    const passwordReEnter: array<byte>
    var failCount: byte
    var timerOn: bool
    var toggle: byte

    /** Two separate 5-byte entries. */
    ghost predicate Valid()
      reads this
    {
      password.Length == PasswordLength && passwordReEnter.Length == PasswordLength &&
      password != passwordReEnter
    }

    /** The ECU's state as a value. */
    function State(): Hmi
      reads this, password, passwordReEnter
      requires Valid()
    {
      Hmi(keys, rx, tx, key, reenter, passwordState, buttonCount, password[..],
          passwordReEnter[..], failCount, timerOn, toggle)
    }

    /** Power-up: the globals at their initial values. */
    constructor (pressed: seq<byte>, input: seq<byte>)
      ensures Valid() && State() == Initial(pressed, input)
      ensures fresh(password) && fresh(passwordReEnter)
    {
      keys, rx, tx := pressed, input, [];
      key, reenter, passwordState, buttonCount := 0, 0, 0, 0;
      password := new byte[PasswordLength](_ => 0);
      passwordReEnter := new byte[PasswordLength](_ => 0);
      failCount, timerOn, toggle := 0, false, Low;
    }

    /** USART_recieveByte: the next byte from the CONTROL ECU. */
    method ReceiveByte() returns (b: byte)
      requires Valid() && |rx| >= 1
      modifies this
      ensures Valid() && b == old(rx[0]) && State() == old(State()).(rx := old(rx[1..]))
    {
      b := rx[0];
      rx := rx[1..];
    }

    /** Keypad_getPressedKey: the next key the user presses, into `key`. */
    method ReadKey()
      requires Valid() && |keys| >= 1
      modifies this
      ensures Valid() && State() == old(State()).(key := old(keys[0]), keys := old(keys[1..]))
    {
      key := keys[0];
      keys := keys[1..];
    }

    /** The start of main. */
    method Boot()
      requires Valid() && |rx| >= 1
      modifies this
      ensures Valid() && State() == HmiSpec.Boot(old(State()))
    {
      timerOn := true;
      var reply := ReceiveByte();
      if reply == PasswordFound {
        passwordState := 1;
      }
    }

    /** LCD_cursorToggle */
    method CursorToggle()
      requires Valid()
      modifies this
      ensures Valid() && State() == HmiSpec.CursorToggle(old(State()))
    {
      if toggle == Low {
        toggle := High;
      } else if toggle == High {
        toggle := Low;
      }
    }

    /** enterPassword */
    method EnterPassword()
      requires Valid() && buttonCount <= PasswordLength
      modifies this, password, passwordReEnter
      ensures Valid() && State() == HmiSpec.EnterPassword(old(State()))
    {
      if buttonCount == PasswordLength {
      } else if reenter == 0 {
        password[buttonCount] := key;
        buttonCount := buttonCount + 1;
      } else {
        passwordReEnter[buttonCount] := key;
        buttonCount := buttonCount + 1;
      }
    }

    /** sendNewPassword */
    method SendNewPassword()
      requires Valid()
      modifies this
      ensures Valid() && State() == HmiSpec.SendNewPassword(old(State()))
    {
      tx := tx + [DefineCommand];
      var counter := 0;
      while counter < PasswordLength
        invariant 0 <= counter <= PasswordLength
        invariant tx == old(tx) + [DefineCommand] + password[..counter]
        invariant State() == old(State()).(tx := tx)
      {
        tx := tx + [password[counter]];
        counter := counter + 1;
      }
      assert password[..PasswordLength] == password[..];
      counter := 0;
      while counter < PasswordLength
        invariant 0 <= counter <= PasswordLength
        invariant tx == old(tx) + [DefineCommand] + password[..] + passwordReEnter[..counter]
        invariant State() == old(State()).(tx := tx)
      {
        tx := tx + [passwordReEnter[counter]];
        counter := counter + 1;
      }
      assert passwordReEnter[..PasswordLength] == passwordReEnter[..];
    }

    /** sendPassword */
    method SendPassword()
      requires Valid()
      modifies this
      ensures Valid() && State() == HmiSpec.SendPassword(old(State()))
    {
      tx := tx + [CheckCommand];
      var counter := 0;
      while counter < PasswordLength
        invariant 0 <= counter <= PasswordLength
        invariant tx == old(tx) + [CheckCommand] + password[..counter]
        invariant State() == old(State()).(tx := tx)
      {
        tx := tx + [password[counter]];
        counter := counter + 1;
      }
      assert password[..PasswordLength] == password[..];
    }

    /** breachDetection */
    method BreachDetection()
      requires Valid()
      modifies this
      ensures Valid() && State() == HmiSpec.BreachDetection(old(State()))
    {
      timerOn := false;
      tx := tx + [BreachCommand];
      timerOn := true;
    }

    /** passwordSuccessful */
    method PasswordSuccessful()
      requires Valid() && MenuReady(keys, rx)
      modifies this
      ensures Valid() && State() == HmiSpec.PasswordSuccessful(old(State()))
    {
      reenter := 0;
      buttonCount := 0;
      timerOn := false;
      passwordState := 1;
      ReadKey();
      if key == Keypad.Plus {
        tx := tx + [DoorCommand];
        var report := ReceiveReports();
        if report == DoorCommand {
          timerOn := true;
          buttonCount := 0;
        }
      } else if key == Keypad.Minus {
        passwordState := 0;
        timerOn := true;
      }
    }

    /** The four reports of a door cycle. Each is compared with 0x04 to pick
        the LCD message; only the fourth also decides whether the cursor
        timer restarts, so it is the one returned. */
    method ReceiveReports() returns (report: byte)
      requires Valid() && |rx| >= 4
      modifies this
      ensures Valid() && report == old(rx[3]) && State() == old(State()).(rx := old(rx[4..]))
    {
      report := ReceiveByte();
      report := ReceiveByte();
      report := ReceiveByte();
      report := ReceiveByte();
      assert rx == old(rx)[4..];
    }

    /** passwordNoMatch */
    method PasswordNoMatch()
      requires Valid()
      modifies this
      ensures Valid() && State() == HmiSpec.PasswordNoMatch(old(State()))
    {
      passwordState := 0;
      reenter := 0;
      buttonCount := 0;
      timerOn := false;
      timerOn := true;
    }

    /** passwordFail */
    method PasswordFail()
      requires Valid()
      modifies this
      ensures Valid() && State() == HmiSpec.PasswordFail(old(State()))
    {
      reenter := 0;
      buttonCount := 0;
      timerOn := false;
      timerOn := true;
    }

    /** The '=' key on a full entry that goes to the CONTROL ECU (the
        re-entry, or a check of the stored password), once its frame is
        sent. */
    method Confirm(b: Branch)
      requires Valid() && b in {Define, CheckStored} && |rx| >= 1
      requires rx[0] == AcceptReply(b) ==> MenuReady(keys, rx[1..])
      modifies this
      ensures Valid() && State() == HmiSpec.Confirm(old(State()), b)
    {
      var reply := ReceiveByte();
      if b == Define {
        if reply == DefineCommand {
          PasswordSuccessful();
        } else {
          PasswordNoMatch();
        }
      } else if reply == CheckCommand {
        PasswordSuccessful();
        failCount := 0;
      } else {
        PasswordFail();
        failCount := (failCount + 1) % 256;
        if failCount == 3 {
          BreachDetection();
          failCount := 0;
        }
      }
    }

    /** One pass of main's loop. */
    method Step()
      requires Valid() && Inv(State()) && StepReady(State())
      modifies this, password, passwordReEnter
      ensures Valid() && State() == HmiSpec.Step(old(State()))
    {
      ReadKey();
      if key <= 9 {
        EnterPassword();
      } else if key == Keypad.Minus {
        buttonCount := 0;
      } else if key == Keypad.Equals {
        if buttonCount != PasswordLength {
        } else {
          buttonCount := 0;
          if passwordState == 0 && reenter == 0 {
            reenter := 1;
          } else if reenter == 1 {
            SendNewPassword();
            Confirm(Define);
          } else if passwordState == 1 {
            SendPassword();
            Confirm(CheckStored);
          }
        }
      }
    }

    /** `n` passes of main's loop. */
    method Run(n: nat)
      requires Valid() && Inv(State()) && RunReady(State(), n)
      modifies this, password, passwordReEnter
      ensures Valid() && State() == HmiSpec.Run(old(State()), n)
    {
      var k := n;
      while k > 0
        invariant Valid() && Inv(State()) && RunReady(State(), k)
        invariant HmiSpec.Run(State(), k) == HmiSpec.Run(old(State()), n)
      {
        Step();
        k := k - 1;
      }
    }
  }

  /** main: power-up, the boot reply, then `n` passes of the loop. */
  method PowerUp(pressed: seq<byte>, input: seq<byte>, n: nat) returns (hmi: Terminal)
    requires |input| >= 1 && RunReady(HmiSpec.Boot(Initial(pressed, input)), n)
    ensures hmi.Valid() && hmi.State() == HmiSpec.Run(HmiSpec.Boot(Initial(pressed, input)), n)
  {
    hmi := new Terminal(pressed, input);
    hmi.Boot();
    hmi.Run(n);
  }
}
