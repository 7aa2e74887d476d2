/** The two ECUs of the door locker together: what the HMI sends is what the
    CONTROL ECU reads, and each reply of the CONTROL ECU decides which screen
    the HMI shows next. */
module DoorSystem {
  import opened Common
  import opened DoorProtocol
  import ControlSpec
  import HmiSpec
  import Keypad

  /** The bytes `r` has sent since `s`. */
  function Sent(s: seq<byte>, r: seq<byte>): seq<byte>
    requires |s| <= |r|
  {
    r[|s|..]
  }

  /** Defining a password: the HMI sends both entries in a define frame; the
      CONTROL ECU, reading that frame, replies 0x02 and stores the password
      exactly when the entries agree, and replies 0x00 and leaves the EEPROM
      alone otherwise; on 0x02 the HMI goes on to its menu, on 0x00 it starts
      the definition again. */
  lemma DefineExchange(h: HmiSpec.Hmi, c: ControlSpec.Control, rest: seq<byte>)
    requires HmiSpec.Inv(h) && |h.keys| >= 1 && h.keys[0] == Keypad.Equals
    requires h.buttonCount == PasswordLength && h.reenter == 1
    requires c.rx == DefineFrame(h.password, h.passwordReEnter) + rest
    requires |h.rx| >= 1 && h.rx[0] == ControlSpec.Step(c).tx[|c.tx|]
    requires h.password == h.passwordReEnter ==> HmiSpec.MenuReady(h.keys[1..], h.rx[1..])
    ensures HmiSpec.StepReady(h)
    ensures var r := HmiSpec.Step(h); var d := ControlSpec.Step(c);
      |r.tx| >= |h.tx| + 11 && |d.tx| == |c.tx| + 1 && d.rx == rest &&
      r.tx[|h.tx|..|h.tx| + 11] == c.rx[..11] &&
      (h.password == h.passwordReEnter <==> Sent(c.tx, d.tx) == [DefineCommand]) &&
      (h.password == h.passwordReEnter ==>
        ControlSpec.HasPasswordSlots(d.eeprom) && ControlSpec.StoredPassword(d.eeprom) == h.password &&
        r == HmiSpec.PasswordSuccessful(HmiSpec.SendNewPassword(h).(keys := h.keys[1..], rx := h.rx[1..]))) &&
      (h.password != h.passwordReEnter ==>
        d.eeprom == c.eeprom && r.passwordState == 0 && r.reenter == 0 && r.rx == h.rx[1..])
  {
    var d := ControlSpec.DefineStep(c, h.password, h.passwordReEnter, rest);
    assert h.rx[0] == (if h.password == h.passwordReEnter then DefineCommand else Rejected);
    HmiSpec.DefineConfirm(h);
    if h.password == h.passwordReEnter {
      assert c.rx[1..][..PasswordLength] == h.password;
    }
  }

  /** Checking a password: the HMI sends its entry in a check frame; the
      CONTROL ECU replies 0x03 exactly when the entry is its current
      password; on 0x03 the HMI clears its failure count and goes on to its
      menu, otherwise it counts the failure and, at the third in a row, also
      sends the breach request. */
  lemma CheckExchange(h: HmiSpec.Hmi, c: ControlSpec.Control, rest: seq<byte>)
    requires HmiSpec.Inv(h) && |h.keys| >= 1 && h.keys[0] == Keypad.Equals
    requires h.buttonCount == PasswordLength && h.passwordState == 1 && h.reenter == 0
    requires c.rx == CheckFrame(h.password) + rest
    requires |h.rx| >= 1 && h.rx[0] == ControlSpec.Step(c).tx[|c.tx|]
    requires h.password == c.current ==> HmiSpec.MenuReady(h.keys[1..], h.rx[1..])
    ensures HmiSpec.StepReady(h)
    ensures var r := HmiSpec.Step(h); var d := ControlSpec.Step(c);
      |r.tx| >= |h.tx| + 6 && |d.tx| == |c.tx| + 1 && d.rx == rest &&
      r.tx[|h.tx|..|h.tx| + 6] == c.rx[..6] &&
      (h.password == c.current <==> Sent(c.tx, d.tx) == [CheckCommand]) &&
      (h.password == c.current ==> r.failCount == 0) &&
      (h.password != c.current ==>
        r.rx == h.rx[1..] && r.passwordState == 1 &&
        (h.failCount < 2 ==> r.failCount == h.failCount + 1 && |r.tx| == |h.tx| + 6) &&
        (h.failCount == 2 ==> r.failCount == 0 && Sent(h.tx, r.tx) == CheckFrame(h.password) + [BreachCommand]))
  {
    ControlSpec.CheckStep(c, h.password, rest);
    assert h.rx[0] == (if h.password == c.current then CheckCommand else Rejected);
    HmiSpec.CheckConfirm(h);
    if h.password != c.current && h.failCount == 2 {
      var r := HmiSpec.Step(h);
      assert r.tx == h.tx + (CheckFrame(h.password) + [BreachCommand]);
    }
  }

  /** Opening the door: '+' in the HMI's menu sends 0x04; the CONTROL ECU,
      idle with its seconds counter at 0, unlocks, and over the next 33
      seconds reports four times; reading those four reports, the HMI
      restarts its cursor timer and waits for a new password. */
  lemma DoorExchange(h: HmiSpec.Hmi, c: ControlSpec.Control, rest: seq<byte>)
    requires HmiSpec.MenuReady(h.keys, h.rx) && h.keys[0] == Keypad.Plus
    requires c.seconds == 0 && c.rx == [DoorCommand] + rest
    requires c.tx + h.rx[..4] == ControlSpec.Ticks(ControlSpec.Step(c), 33).tx
    ensures var r := HmiSpec.PasswordSuccessful(h);
      Sent(h.tx, r.tx) == [DoorCommand] && c.rx[..1] == Sent(h.tx, r.tx) &&
      r.timerOn && r.buttonCount == 0 && r.passwordState == 1 && r.rx == h.rx[4..]
    ensures var e := ControlSpec.Ticks(ControlSpec.Step(c), 33);
      e.seconds == 0 && !e.timerOn && e.rx == rest && e.current == c.current
  {
    ControlSpec.DoorRequest(c, rest);
    var reports := h.rx[..4];
    var four := [DoorCommand, DoorCommand, DoorCommand, DoorCommand];
    assert c.tx + reports == c.tx + four;
    assert reports == (c.tx + reports)[|c.tx|..] == (c.tx + four)[|c.tx|..] == four;
    assert h.rx[3] == four[3];
  }

  /** The breach request the HMI sends at the third wrong password makes the
      CONTROL ECU sound its alarm once, and sends no reply. */
  lemma BreachExchange(h: HmiSpec.Hmi, c: ControlSpec.Control, rest: seq<byte>)
    requires HmiSpec.Inv(h) && |h.keys| >= 1 && h.keys[0] == Keypad.Equals
    requires h.buttonCount == PasswordLength && h.passwordState == 1 && h.reenter == 0
    requires |h.rx| >= 1 && h.rx[0] != CheckCommand && h.failCount == 2
    requires c.rx == [BreachCommand] + rest
    ensures HmiSpec.StepReady(h)
    ensures var r := HmiSpec.Step(h); var d := ControlSpec.Step(c);
      r.tx[|r.tx| - 1..] == c.rx[..1] && d.alarms == c.alarms + 1 && d.tx == c.tx && d.rx == rest
  {
    HmiSpec.CheckConfirm(h);
  }
}
