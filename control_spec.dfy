/** The CONTROL ECU of the door locker as a state machine over values: what
    each handler of APP/DEVICE_FUNCTIONS.c does to the ECU's globals, its UART
    streams, the EEPROM, the motor, the buzzer and Timer1. The class in
    ControlEcu runs the same handlers step by step over arrays and is proved
    to reach exactly the states described here. */
module ControlSpec {
  import opened Common
  import opened DoorProtocol
  import opened DcMotor

  /** The EEPROM address of the first password byte; the five bytes sit at
      0x0001..0x0005. */
  const PasswordAddress := 0x0001

  /** Everything the CONTROL ECU's behaviour depends on or produces:
      - `rx`: the bytes the HMI has sent and the ECU has not read yet;
      - `tx`: every byte the ECU has sent so far;
      - `eeprom`: the external EEPROM's contents;
      - `received`, `reenter`, `current`: receivedPassword,
        receivedPasswordReenter and currentPassword;
      - `command`, `passwordState`: USARTCommand and passwordState;
      - `seconds`: the static counter of timerSeconds;
      - `timerOn`: Timer1 counting; `rotation`, `speed`: the last motor
        command; `buzzer`: the buzzer pin; `alarms`: how many times the
        buzzer has sounded. */
  datatype Control = Control(
    rx: seq<byte>, tx: seq<byte>, eeprom: map<int, byte>,
    received: Password, reenter: Password, current: Password,
    command: byte, passwordState: byte, seconds: byte,
    timerOn: bool, rotation: Rotation, speed: byte, buzzer: bool, alarms: nat)

  /** The EEPROM holds a byte at each of the five password addresses. */
  ghost predicate HasPasswordSlots(m: map<int, byte>)
  {
    forall a :: PasswordAddress <= a < PasswordAddress + PasswordLength ==> a in m
  }

  /** The five bytes at 0x0001..0x0005, in address order. */
  function StoredPassword(m: map<int, byte>): Password
    requires HasPasswordSlots(m)
  {
    [m[PasswordAddress], m[PasswordAddress + 1], m[PasswordAddress + 2],
     m[PasswordAddress + 3], m[PasswordAddress + 4]]
  }

  /** The EEPROM after the five writes of definePassword. */
  function Commit(m: map<int, byte>, p: Password): (r: map<int, byte>)
    ensures HasPasswordSlots(r) && StoredPassword(r) == p
    ensures forall a :: a in m && !(PasswordAddress <= a < PasswordAddress + PasswordLength) ==>
      a in r && r[a] == m[a]
  {
    m[PasswordAddress := p[0]][PasswordAddress + 1 := p[1]][PasswordAddress + 2 := p[2]]
     [PasswordAddress + 3 := p[3]][PasswordAddress + 4 := p[4]]
  }

  /** Some byte of the password is nonzero, which the firmware reads as "a
      password is stored". */
  predicate AnyNonzero(p: seq<byte>)
  {
    exists i :: 0 <= i < |p| && p[i] != 0
  }

  /** The reply loop of scanPassword from position `c` on: 0xFF at the first
      nonzero byte, 0x00 once position 4 has been checked. */
  function ScanLoop(p: Password, c: nat): (reply: byte)
    requires c < PasswordLength
    ensures reply == PasswordFound || reply == Rejected
    ensures reply == PasswordFound <==> AnyNonzero(p[c..])
    decreases PasswordLength - c
  {
    if p[c] != 0 then PasswordFound
    else if c == PasswordLength - 1 then Rejected
    else
      assert p[c..] == [p[c]] + p[c + 1..];
      ScanLoop(p, c + 1)
  }

  /** The comparison loop shared by definePassword and checkPassword from
      position `c` on: 0x00 at the first mismatch, `accept` once position 4
      has matched. */
  function CompareLoop(a: Password, b: Password, c: nat, accept: byte): (reply: byte)
    requires c < PasswordLength && accept != Rejected
    ensures reply == accept || reply == Rejected
    ensures reply == accept <==> a[c..] == b[c..]
    decreases PasswordLength - c
  {
    if a[c] != b[c] then Rejected
    else if c == PasswordLength - 1 then accept
    else
      assert a[c..] == [a[c]] + a[c + 1..] && b[c..] == [b[c]] + b[c + 1..];
      CompareLoop(a, b, c + 1, accept)
  }

  /** The globals of APP/CONTROL_ECU.c before anything runs: every array,
      USARTCommand and passwordState zero; the motor, buzzer and Timer1 off. */
  function Initial(rx: seq<byte>, eeprom: map<int, byte>): (s: Control)
    ensures s.rx == rx && s.tx == [] && s.eeprom == eeprom
    ensures s.received == s.reenter == s.current == NoPassword
    ensures s.command == 0 && s.passwordState == 0 && s.seconds == 0
    ensures !s.timerOn && s.rotation == Stop && !s.buzzer && s.alarms == 0
  {
    Control(rx, [], eeprom, NoPassword, NoPassword, NoPassword, 0, 0, 0,
            false, Stop, 0, false, 0)
  }

  /** scanPassword: the password bytes are read from the EEPROM into
      currentPassword and exactly one byte is sent, 0xFF when some byte is
      nonzero (then passwordState becomes 1) and 0x00 otherwise. */
  function Scan(s: Control): (r: Control)
    requires HasPasswordSlots(s.eeprom)
    ensures r.current == StoredPassword(s.eeprom)
    ensures AnyNonzero(r.current) ==> r.tx == s.tx + [PasswordFound] && r.passwordState == 1
    ensures !AnyNonzero(r.current) ==>
      r.tx == s.tx + [Rejected] && r.passwordState == s.passwordState
    ensures r == s.(current := r.current, tx := r.tx, passwordState := r.passwordState)
  {
    var current := StoredPassword(s.eeprom);
    var reply := ScanLoop(current, 0);
    assert current[0..] == current;
    s.(current := current, tx := s.tx + [reply],
       passwordState := if reply == PasswordFound then 1 else s.passwordState)
  }

  /** definePassword: ten bytes are read, the first five into
      receivedPassword and the next five into receivedPasswordReenter. When
      the two halves agree they are written to the EEPROM and 0x02 is sent;
      otherwise 0x00 is sent and the EEPROM is left alone. currentPassword
      is not touched either way. */
  function Define(s: Control): (r: Control)
    requires |s.rx| >= 2 * PasswordLength
    ensures r.rx == s.rx[2 * PasswordLength..]
    ensures r.received == s.rx[..PasswordLength]
    ensures r.reenter == s.rx[PasswordLength..2 * PasswordLength]
    ensures r.received == r.reenter ==>
      r.tx == s.tx + [DefineCommand] && r.eeprom == Commit(s.eeprom, r.received)
    ensures r.received != r.reenter ==> r.tx == s.tx + [Rejected] && r.eeprom == s.eeprom
    ensures r.current == s.current
    ensures r == s.(rx := r.rx, received := r.received, reenter := r.reenter,
                    tx := r.tx, eeprom := r.eeprom)
  {
    var received: Password := s.rx[..PasswordLength];
    var reenter: Password := s.rx[PasswordLength..2 * PasswordLength];
    var reply := CompareLoop(received, reenter, 0, DefineCommand);
    assert received[0..] == received && reenter[0..] == reenter;
    s.(rx := s.rx[2 * PasswordLength..], received := received, reenter := reenter,
       tx := s.tx + [reply],
       eeprom := if reply == DefineCommand then Commit(s.eeprom, received) else s.eeprom)
  }

  /** checkPassword: five bytes are read into receivedPassword and compared
      with currentPassword; 0x03 is sent when all five agree and 0x00
      otherwise. Nothing else changes. */
  function Check(s: Control): (r: Control)
    requires |s.rx| >= PasswordLength
    ensures r.rx == s.rx[PasswordLength..] && r.received == s.rx[..PasswordLength]
    ensures r.tx == s.tx + [if r.received == s.current then CheckCommand else Rejected]
    ensures r == s.(rx := r.rx, received := r.received, tx := r.tx)
  {
    var received: Password := s.rx[..PasswordLength];
    var reply := CompareLoop(received, s.current, 0, CheckCommand);
    assert received[0..] == received && s.current[0..] == s.current;
    s.(rx := s.rx[PasswordLength..], received := received, tx := s.tx + [reply])
  }

  /** doorUnlock: the motor turns clockwise at full speed, one 0x04 is sent
      and Timer1 starts counting seconds. */
  function Unlock(s: Control): (r: Control)
    ensures r.tx == s.tx + [DoorCommand] && r.timerOn
    ensures r.rotation == Clockwise && r.speed == 100
    ensures r.seconds == s.seconds && r.current == s.current && r.eeprom == s.eeprom
    ensures r == s.(rotation := Clockwise, speed := 100, tx := r.tx, timerOn := true)
  {
    s.(rotation := Clockwise, speed := 100, tx := s.tx + [DoorCommand], timerOn := true)
  }

  /** timerSeconds, the Timer1 callback: the 8-bit counter goes up by one;
      at 15 the motor stops, at 18 it turns counter-clockwise at full
      speed, and at 33 it stops, Timer1 stops and the counter restarts from
      0. Each of those three sends one 0x04; every other count sends
      nothing. The callback runs only while Timer1 is clocked: Timer1_init
      leaves it without a clock source, doorUnlock starts it and the count
      of 33 stops it. With the timer stopped no callback comes, so nothing
      changes. */
  function Tick(s: Control): Control
  {
    if !s.timerOn then s else
    var next := if s.seconds == 255 then 0 else s.seconds + 1;
    if next == 15 then
      s.(seconds := next, tx := s.tx + [DoorCommand], rotation := Stop, speed := 0)
    else if next == 18 then
      s.(seconds := next, tx := s.tx + [DoorCommand], rotation := CounterClockwise, speed := 100)
    else if next == 33 then
      s.(seconds := 0, tx := s.tx + [DoorCommand], rotation := Stop, speed := 0, timerOn := false)
    else
      s.(seconds := next)
  }

  /** The callback's events: the counts 15, 18 and 33 each send one 0x04;
      15 stops the motor, 18 turns it counter-clockwise at full speed and 33
      stops it and Timer1 and restarts the count from 0; any other count
      only counts, with the byte wrapping from 255 to 0. A stopped timer
      brings no tick. */
  lemma TickEvents(s: Control)
    ensures !s.timerOn ==> Tick(s) == s
    ensures s.timerOn ==> var r := Tick(s); var next := (s.seconds + 1) % 256;
      (next in {15, 18, 33} ==> r.tx == s.tx + [DoorCommand]) &&
      (next !in {15, 18, 33} ==> r == s.(seconds := next)) &&
      (next == 15 ==> r.rotation == Stop && r.seconds == 15 && r.timerOn == s.timerOn) &&
      (next == 18 ==> r.rotation == CounterClockwise && r.speed == 100 && r.seconds == 18) &&
      (next == 33 ==> r.rotation == Stop && !r.timerOn && r.seconds == 0)
    ensures Tick(s).current == s.current && Tick(s).eeprom == s.eeprom && Tick(s).rx == s.rx
  {
  }

  /** `n` calls of timerSeconds. */
  function Ticks(s: Control, n: nat): Control
    decreases n, s
  {
    if n == 0 then s else Ticks(Tick(s), n - 1)
  }

  /** breachDetection: the buzzer sounds and is switched off again. */
  function Breach(s: Control): (r: Control)
    ensures !r.buzzer && r.alarms == s.alarms + 1 && r.tx == s.tx
    ensures r == s.(buzzer := false, alarms := r.alarms)
  {
    s.(buzzer := false, alarms := s.alarms + 1)
  }

  /** How many input bytes a command takes, its own byte included. */
  function CommandLength(command: byte): nat
  {
    if command == DefineCommand then 1 + 2 * PasswordLength
    else if command == CheckCommand then 1 + PasswordLength
    else 1
  }

  /** The input holds the next command byte and all of its payload: the UART
      receive blocks until a byte arrives, so a pass of the main loop only
      completes once its bytes have been sent. */
  predicate CommandReady(rx: seq<byte>)
  {
    |rx| >= 1 && |rx| >= CommandLength(rx[0])
  }

  /** One pass of the main loop: one command byte is read into USARTCommand
      and dispatched. The pass consumes exactly the command and its payload,
      sends one reply for a password or door command and none otherwise,
      and an unknown command changes nothing else. */
  function Step(s: Control): (r: Control)
    requires CommandReady(s.rx)
    ensures r.command == s.rx[0]
    ensures r.rx == s.rx[CommandLength(s.rx[0])..]
    ensures |r.tx| == |s.tx| + (if s.rx[0] in {DefineCommand, CheckCommand, DoorCommand} then 1 else 0)
    ensures r.tx[..|s.tx|] == s.tx
    ensures r.eeprom != s.eeprom ==>
      s.rx[0] == DefineCommand && s.rx[1..1 + PasswordLength] == s.rx[1 + PasswordLength..1 + 2 * PasswordLength]
    ensures s.rx[0] !in {DefineCommand, CheckCommand, DoorCommand, BreachCommand} ==>
      r == s.(rx := s.rx[1..], command := s.rx[0])
    ensures r.current == s.current
  {
    var t := s.(rx := s.rx[1..], command := s.rx[0]);
    if t.command == DefineCommand then
      assert t.rx[..PasswordLength] == s.rx[1..1 + PasswordLength];
      assert t.rx[PasswordLength..2 * PasswordLength] == s.rx[1 + PasswordLength..1 + 2 * PasswordLength];
      assert t.rx[2 * PasswordLength..] == s.rx[1 + 2 * PasswordLength..];
      Define(t)
    else if t.command == CheckCommand then
      assert t.rx[PasswordLength..] == s.rx[1 + PasswordLength..];
      Check(t)
    else if t.command == DoorCommand then Unlock(t)
    else if t.command == BreachCommand then Breach(t)
    else t
  }

  /** The input is a sequence of complete commands. */
  predicate WellFramed(rx: seq<byte>)
    decreases |rx|
  {
    rx == [] || (CommandReady(rx) && WellFramed(rx[CommandLength(rx[0])..]))
  }

  /** The main loop run until the input is used up. */
  function Serve(s: Control): Control
    requires WellFramed(s.rx)
    decreases |s.rx|
  {
    if s.rx == [] then s else Serve(Step(s))
  }

  /** The command bytes of a sequence of complete commands, payloads left
      out. */
  function Commands(rx: seq<byte>): seq<byte>
    requires WellFramed(rx)
    decreases |rx|
  {
    if rx == [] then [] else [rx[0]] + Commands(rx[CommandLength(rx[0])..])
  }

  /** How many of `commands` are answered with one byte. */
  function Replies(commands: seq<byte>): nat
  {
    if commands == [] then 0
    else (if commands[0] in {DefineCommand, CheckCommand, DoorCommand} then 1 else 0) +
         Replies(commands[1..])
  }

  /** A run of the main loop over complete commands uses up the input, sends
      one byte per define, check and door command after what was already
      sent, never changes currentPassword, and leaves the EEPROM alone unless
      some command is a define. */
  lemma {:induction false} ServeRun(s: Control)
    requires WellFramed(s.rx)
    ensures var e := Serve(s);
      e.rx == [] && e.current == s.current &&
      s.tx <= e.tx && |e.tx| == |s.tx| + Replies(Commands(s.rx)) &&
      (DefineCommand !in Commands(s.rx) ==> e.eeprom == s.eeprom)
    decreases |s.rx|
  {
    if s.rx != [] {
      var t := Step(s);
      ServeRun(t);
      assert Commands(s.rx) == [s.rx[0]] + Commands(t.rx);
      assert Commands(s.rx)[1..] == Commands(t.rx);
      assert s.tx <= t.tx;
    }
  }

  /** The boot sequence of main: the globals start at zero and scanPassword
      runs once, before the first command is read. */
  function Boot(rx: seq<byte>, eeprom: map<int, byte>): (s: Control)
    requires HasPasswordSlots(eeprom)
    ensures s.rx == rx && |s.tx| == 1 && s.current == StoredPassword(eeprom)
    ensures s.passwordState == 1 <==> s.tx == [PasswordFound]
    ensures s.passwordState == 0 <==> s.tx == [Rejected]
    ensures s.tx == [PasswordFound] <==> AnyNonzero(StoredPassword(eeprom))
  {
    var s0 := Initial(rx, eeprom);
    var s1 := Scan(s0);
    assert s1.tx == [s1.tx[0]];
    s1
  }

  /** timerSeconds leaves the counter below 33 once it is: 33 is the count at
      which it restarts. */
  lemma {:induction false} TicksStayBelow33(s: Control, n: nat)
    requires s.seconds < 33
    ensures Ticks(s, n).seconds < 33
    decreases n
  {
    if n > 0 {
      TicksStayBelow33(Tick(s), n - 1);
    }
  }

  lemma {:induction false} TicksAdd(s: Control, a: nat, b: nat)
    ensures Ticks(s, a + b) == Ticks(Ticks(s, a), b)
    decreases a
  {
    if a > 0 {
      TicksAdd(Tick(s), a - 1, b);
    }
  }

  /** While Timer1 is stopped, no number of timer periods changes anything. */
  lemma {:induction false} StoppedTicks(s: Control, n: nat)
    requires !s.timerOn
    ensures Ticks(s, n) == s
    decreases n
  {
    if n > 0 {
      StoppedTicks(Tick(s), n - 1);
    }
  }

  /** No count strictly after `from` and up to `from + n` is one of 15, 18
      and 33. */
  predicate QuietStretch(from: nat, n: nat)
  {
    from + n < 15 || (15 <= from && from + n < 18) || (18 <= from && from + n < 33)
  }

  /** Between the event counts the callback only counts. */
  lemma {:induction false} QuietTicks(s: Control, n: nat)
    requires s.timerOn && QuietStretch(s.seconds, n)
    ensures Ticks(s, n) == s.(seconds := s.seconds + n)
    decreases n
  {
    if n > 0 {
      QuietTicks(Tick(s), n - 1);
    }
  }

  /** The first 15 seconds: the motor stops and one 0x04 goes out. */
  lemma FirstStop(u: Control)
    requires u.seconds == 0 && u.timerOn
    ensures Ticks(u, 15) == u.(seconds := 15, tx := u.tx + [DoorCommand], rotation := Stop, speed := 0)
  {
    QuietTicks(u, 14);
    TicksAdd(u, 14, 1);
    assert Ticks(Ticks(u, 14), 1) == Tick(Ticks(u, 14));
  }

  /** Seconds 16 to 18: the motor turns back and one 0x04 goes out. */
  lemma Reverse(b: Control)
    requires b.seconds == 15 && b.timerOn
    ensures Ticks(b, 3) ==
      b.(seconds := 18, tx := b.tx + [DoorCommand], rotation := CounterClockwise, speed := 100)
  {
    QuietTicks(b, 2);
    TicksAdd(b, 2, 1);
    assert Ticks(Ticks(b, 2), 1) == Tick(Ticks(b, 2));
  }

  /** Seconds 19 to 33: the motor and Timer1 stop, one 0x04 goes out and the
      counter restarts. */
  lemma FinalStop(c: Control)
    requires c.seconds == 18 && c.timerOn
    ensures Ticks(c, 15) ==
      c.(seconds := 0, tx := c.tx + [DoorCommand], rotation := Stop, speed := 0, timerOn := false)
  {
    QuietTicks(c, 14);
    TicksAdd(c, 14, 1);
    assert Ticks(Ticks(c, 14), 1) == Tick(Ticks(c, 14));
  }

  /** A door cycle. doorUnlock sends the first 0x04 and starts the motor
      clockwise; with the counter at 0, the callback stops the motor after
      15 seconds, turns it back counter-clockwise after 18 and stops it and
      Timer1 after 33, sending one 0x04 each time. The HMI therefore sees
      exactly four 0x04 bytes and the counter is back at 0 for the next
      cycle. */
  lemma DoorCycle(s: Control)
    requires s.seconds == 0
    ensures Ticks(Unlock(s), 15).rotation == Stop
    ensures Ticks(Unlock(s), 18).rotation == CounterClockwise
    ensures var e := Ticks(Unlock(s), 33);
      e.tx == s.tx + [DoorCommand, DoorCommand, DoorCommand, DoorCommand] &&
      e.seconds == 0 && !e.timerOn && e.rotation == Stop &&
      e.current == s.current && e.eeprom == s.eeprom && e.rx == s.rx
  {
    var u := Unlock(s);
    FirstStop(u);
    var b := Ticks(u, 15);
    Reverse(b);
    TicksAdd(u, 15, 3);
    var c := Ticks(u, 18);
    assert c == Ticks(b, 3);
    FinalStop(c);
    TicksAdd(u, 18, 15);
    var e := Ticks(u, 33);
    assert e == Ticks(c, 15);
    assert e.tx == c.tx + [DoorCommand] == b.tx + [DoorCommand, DoorCommand];
    assert b.tx == s.tx + [DoorCommand, DoorCommand];
  }

  /** The door request, served with the counter at 0, followed by the 33
      seconds of the cycle: four 0x04 reports, and the ECU idle again. */
  lemma DoorRequest(s: Control, rest: seq<byte>)
    requires s.seconds == 0 && s.rx == [DoorCommand] + rest
    ensures var e := Ticks(Step(s), 33);
      e.tx == s.tx + [DoorCommand, DoorCommand, DoorCommand, DoorCommand] &&
      e.seconds == 0 && !e.timerOn && e.rotation == Stop &&
      e.rx == rest && e.current == s.current && e.eeprom == s.eeprom
  {
    var u := s.(command := DoorCommand, rx := rest);
    assert Step(s) == Unlock(u);
    DoorCycle(u);
  }

  /** Rebooting after a define whose halves agree reads the new password back
      from the EEPROM, reports that a password exists when it has a nonzero
      digit, and accepts the same password at the next check. */
  lemma RebootAfterDefineAccepts(s: Control, rx: seq<byte>, p: Password)
    requires |s.rx| >= 2 * PasswordLength && s.rx[..2 * PasswordLength] == p + p
    requires rx == CheckFrame(p)[1..]
    ensures HasPasswordSlots(Define(s).eeprom)
    ensures var b := Boot(rx, Define(s).eeprom);
      b.current == p && (b.passwordState == 1 <==> AnyNonzero(p)) &&
      Check(b).tx == b.tx + [CheckCommand]
  {
    assert s.rx[..PasswordLength] == (p + p)[..PasswordLength];
    assert s.rx[PasswordLength..2 * PasswordLength] == (p + p)[PasswordLength..];
  }

  /** A blank EEPROM: every password byte zero, as on a device that has never
      stored one. */
  const BlankEeprom: map<int, byte> := map[1 := 0, 2 := 0, 3 := 0, 4 := 0, 5 := 0]

  /** As written, definePassword stores a new password but leaves
      currentPassword at the copy read at boot, so a check of the password
      just defined is rejected whenever it differs from that copy. */
  lemma DefineThenCheckRejects(s: Control, p: Password)
    requires s.rx == DefineFrame(p, p) + CheckFrame(p)
    requires s.current != p
    ensures Step(Step(s)).tx == s.tx + [DefineCommand] + [Rejected]
  {
    var t := DefineStep(s, p, p, CheckFrame(p));
    CheckStep(t, p, []);
  }

  /** A step on a define frame accepts it exactly when both entries agree. */
  lemma DefineStep(s: Control, first: Password, second: Password, rest: seq<byte>)
    returns (t: Control)
    requires s.rx == DefineFrame(first, second) + rest
    ensures t == Step(s)
    ensures t.rx == rest && t.current == s.current
    ensures t.tx == s.tx + [if first == second then DefineCommand else Rejected]
  {
    var f := DefineFrame(first, second) + rest;
    assert f[0] == DefineCommand && f[1..11] == first + second && f[11..] == rest;
    assert f[1..][..PasswordLength] == first;
    assert f[1..][PasswordLength..2 * PasswordLength] == second;
    t := Step(s);
  }

  /** A step on a check frame accepts it exactly when the entry is the
      current password. */
  lemma CheckStep(s: Control, entry: Password, rest: seq<byte>)
    requires s.rx == CheckFrame(entry) + rest
    ensures Step(s).rx == rest && Step(s).current == s.current
    ensures Step(s).tx == s.tx + [if entry == s.current then CheckCommand else Rejected]
  {
    var f := CheckFrame(entry) + rest;
    assert f[0] == CheckCommand && f[1..6] == entry && f[6..] == rest;
  }

  /** The shortest run that shows it: on a device with a blank EEPROM, the
      user defines 1 2 3 4 5 and checks it; the define is accepted and the
      check rejected. */
  lemma FreshDeviceRejectsNewPassword()
    ensures var p: Password := [1, 2, 3, 4, 5];
      var b := Boot(DefineFrame(p, p) + CheckFrame(p), BlankEeprom);
      Step(Step(b)).tx == [Rejected] + [DefineCommand] + [Rejected]
  {
    var p: Password := [1, 2, 3, 4, 5];
    var b := Boot(DefineFrame(p, p) + CheckFrame(p), BlankEeprom);
    assert StoredPassword(BlankEeprom) == NoPassword;
    assert !AnyNonzero(NoPassword);
    assert b.current == NoPassword != p;
    DefineThenCheckRejects(b, p);
  }

  /** definePassword as evidently intended: a define whose halves agree also
      makes the new password the current one. */
  function DefineRefreshing(s: Control): (r: Control)
    requires |s.rx| >= 2 * PasswordLength
    ensures r.received == r.reenter ==> r.current == r.received
    ensures r.received != r.reenter ==> r.current == s.current
    ensures r == Define(s).(current := r.current)
  {
    var d := Define(s);
    if d.received == d.reenter then d.(current := d.received) else d
  }

  /** With the refresh, a check of the password just defined is accepted,
      whatever was read at boot. */
  lemma DefineRefreshingThenCheckAccepts(s: Control, p: Password)
    requires s.rx == p + p + p
    ensures var d := DefineRefreshing(s);
      d.tx == s.tx + [DefineCommand] && Check(d).tx == d.tx + [CheckCommand]
  {
    assert s.rx[..PasswordLength] == p && s.rx[PasswordLength..2 * PasswordLength] == p;
    assert DefineRefreshing(s).rx == p;
  }
}
