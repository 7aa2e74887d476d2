# Embedded AVR projects: door locker, drivers, fan, ultrasonic, stopwatch and vehicle console

This project is a Dafny model of the core of a collection of small AVR
(ATmega32) firmware projects and one console program, with proofs about that
model.

- **Door locker security system.** Two ECUs talk over a UART:
  - the **HMI ECU** reads a five-digit password from a keypad and shows screens;
  - the **CONTROL ECU** keeps the password in an external I2C EEPROM, checks
    requests against it, drives the door motor through a 33-second cycle and
    sounds a buzzer after three wrong passwords in a row.

  Each ECU is modelled twice:
  - as a pure state machine (`ControlSpec`, `HmiSpec`);
  - as a class whose fields are the firmware's globals and whose arrays are
    its 5-byte password buffers (`ControlEcu.Ecu`, `HmiEcu.Terminal`).

  Each method of a class is proved to reach exactly the state the matching
  spec function gives. `DoorSystem` puts the two ECUs together: it shows that
  the bytes one sends are what the other reads, and that each reply leads to
  the screen the other expects. `DoorProtocol` holds the command bytes and
  the frames.
- **Drivers:**
  - the register macros of `common_macros.h` over 8-bit registers (`BitMacros`);
  - the GPIO driver (`Gpio.Registers`);
  - the DC-motor driver, including the duty-cycle arithmetic (`DcMotor`);
  - the keypad scan and key mapping (`Keypad`);
  - the external EEPROM byte transfers over I2C (`ExternalEeprom`).
- **Fan controller.** The main loop maps temperature bands to motor commands
  (`FanController`).
- **Ultrasonic sensor.** The input-capture edge handler pairs the rising and
  falling edges of the echo pulse (`Ultrasonic`).
- **Stopwatch.** The Timer1 tick advances an hours:minutes:seconds clock that
  wraps at 24 hours. Three external interrupts reset, pause and resume it, and
  the main loop multiplexes six 7-segment digits (`StopWatch`).
- **Vehicle console simulator.** A menu program that reads characters and
  numbers with `scanf`. It is modelled as pure functions over the program's
  globals and a script of inputs (`VehicleSpec`). A class runs the program's
  own `while (true)` loops over the same globals (`VehicleConsole.Console`).

Both door-locker ECUs exist in two versions in the repository: the layered
`APP/` version and an older single-file `CONTROL_ECU.c` / `HMI_ECU.c`. Their
observable behaviour is the same, so one model covers both. The rows below
cite the `APP/` files, and cite the older files where they are the clearer
reference.

**Inputs.** Everything the firmware receives becomes a sequence that is
consumed in order:
- the keys the user presses;
- the bytes arriving on the UART;
- the EEPROM contents (a map from addresses to bytes);
- the I2C status codes;
- capture values and temperature readings.

Everything it sends becomes a sequence that is appended to.

**Integer widths.** C integer widths are written out: `uint8` and `uint16`
values are bounded subset types, and `short` arithmetic wraps explicitly
(`Common.ToShort`).

## Model

| member | source | states |
|---|---|---|
| Common.ToByte | FanControllerProject/FanControllerProject_Eclipse/FanControllerProject_Eclipse/HAL/dc_motor.c:47 | conversion to uint8 keeps values in range and is congruent modulo 256 |
| Common.ToShort | CMiniProject/CMiniProject/functions/TrafficLight.c:23 | conversion to a 16-bit short keeps values in range and is congruent modulo 65536 |
| BitMacros.SameBits | DoorLockerSecuritySystemProject/DoorLockerSecuritySystemProject_Eclipse/DoorLockerSecuritySystemProject_HMI_ECU/common_macros.h:16 | two 8-bit registers that agree on all eight bits are equal |
| BitMacros.SetBit | DoorLockerSecuritySystemProject/DoorLockerSecuritySystemProject_Eclipse/DoorLockerSecuritySystemProject_HMI_ECU/common_macros.h:19 | SET_BIT sets the bit and leaves every other bit as it was |
| BitMacros.ClearBit | DoorLockerSecuritySystemProject/DoorLockerSecuritySystemProject_Eclipse/DoorLockerSecuritySystemProject_HMI_ECU/common_macros.h:22 | CLEAR_BIT clears the bit and leaves every other bit as it was |
| BitMacros.ToggleBit | DoorLockerSecuritySystemProject/DoorLockerSecuritySystemProject_Eclipse/DoorLockerSecuritySystemProject_HMI_ECU/common_macros.h:25 | TOGGLE_BIT inverts the bit and leaves every other bit as it was |
| BitMacros.ToggleTwice | DoorLockerSecuritySystemProject/DoorLockerSecuritySystemProject_Eclipse/DoorLockerSecuritySystemProject_HMI_ECU/common_macros.h:25 | toggling the same bit twice gives back the register |
| BitMacros.RorBits | DoorLockerSecuritySystemProject/DoorLockerSecuritySystemProject_Eclipse/DoorLockerSecuritySystemProject_HMI_ECU/common_macros.h:28 | ROR by num puts bit (i+num) mod 8 at bit i |
| BitMacros.RolBits | DoorLockerSecuritySystemProject/DoorLockerSecuritySystemProject_Eclipse/DoorLockerSecuritySystemProject_HMI_ECU/common_macros.h:31 | ROL by num puts bit (i-num) mod 8 at bit i |
| BitMacros.RolUndoesRor | DoorLockerSecuritySystemProject/DoorLockerSecuritySystemProject_Eclipse/DoorLockerSecuritySystemProject_HMI_ECU/common_macros.h:28-31 | ROL by num undoes ROR by num (0 < num < 8) |
| BitMacros.BitIsSet | DoorLockerSecuritySystemProject/DoorLockerSecuritySystemProject_Eclipse/DoorLockerSecuritySystemProject_HMI_ECU/common_macros.h:34 | BIT_IS_SET is nonzero exactly when the bit is set, and is either 0 or the bit's mask |
| BitMacros.BitIsClear | DoorLockerSecuritySystemProject/DoorLockerSecuritySystemProject_Eclipse/DoorLockerSecuritySystemProject_HMI_ECU/common_macros.h:37 | BIT_IS_CLEAR holds exactly when the bit is clear |
| BitMacros.ClearIffNotSet | DoorLockerSecuritySystemProject/DoorLockerSecuritySystemProject_Eclipse/DoorLockerSecuritySystemProject_HMI_ECU/common_macros.h:34-37 | BIT_IS_CLEAR holds exactly when BIT_IS_SET is zero |
| BitMacros.GetBit | DoorLockerSecuritySystemProject/DoorLockerSecuritySystemProject_Eclipse/DoorLockerSecuritySystemProject_HMI_ECU/common_macros.h:40 | GET_BIT is 0 or 1, and is 1 exactly when the bit is set |
| BitMacros.WriteReg | DoorLockerSecuritySystemProject/DoorLockerSecuritySystemProject_Eclipse/DoorLockerSecuritySystemProject_HMI_ECU/common_macros.h:43 | WRITE_REG sets all eight bits |
| BitMacros.ClearReg | DoorLockerSecuritySystemProject/DoorLockerSecuritySystemProject_Eclipse/DoorLockerSecuritySystemProject_HMI_ECU/common_macros.h:46 | CLEAR_REG clears all eight bits |
| BitMacros.OverwriteReg | DoorLockerSecuritySystemProject/DoorLockerSecuritySystemProject_Eclipse/DoorLockerSecuritySystemProject_HMI_ECU/common_macros.h:49 | OVERWRITE_REG bit i is (old bit i and CLEAR bit i) or WRITE bit i |
| BitMacros.OverwriteBits | DoorLockerSecuritySystemProject/DoorLockerSecuritySystemProject_Eclipse/DoorLockerSecuritySystemProject_HMI_ECU/common_macros.h:49 | the same bitwise law for the whole expression `(REG & CLEAR) \| WRITE` |
| BitMacros.OverwriteBit | DoorLockerSecuritySystemProject/DoorLockerSecuritySystemProject_Eclipse/DoorLockerSecuritySystemProject_HMI_ECU/common_macros.h:49 | the bitwise law of OVERWRITE_REG for one bit |
| BitMacros.OverwriteKeepsSelected | DoorLockerSecuritySystemProject/DoorLockerSecuritySystemProject_Eclipse/DoorLockerSecuritySystemProject_HMI_ECU/common_macros.h:49 | when WRITE lies outside CLEAR, the bits CLEAR selects keep their value and the others take WRITE's |
| Gpio.Registers.SetupPinDirection | FanControllerProject/FanControllerProject_Eclipse/FanControllerProject_Eclipse/gpio.c:26-84 | an invalid pin or port changes nothing; otherwise only bit pinNum of that DDRx changes, to 1 for output and 0 for input |
| Gpio.Registers.WritePin | FanControllerProject/FanControllerProject_Eclipse/FanControllerProject_Eclipse/gpio.c:98-155 | an invalid pin or port changes nothing; otherwise only bit pinNum of that PORTx changes, to 1 exactly for LOGIC_HIGH |
| Gpio.Registers.ReadPin | FanControllerProject/FanControllerProject_Eclipse/FanControllerProject_Eclipse/gpio.c:167-220 | the result is LOGIC_HIGH or LOGIC_LOW, and is LOGIC_HIGH exactly when the PINx bit is set |
| Gpio.Registers.SetupPortDirection | FanControllerProject/FanControllerProject_Eclipse/FanControllerProject_Eclipse/gpio.c:233-261 | DDRx takes the direction value; an invalid port changes nothing |
| Gpio.Registers.WritePort | FanControllerProject/FanControllerProject_Eclipse/FanControllerProject_Eclipse/gpio.c:275-303 | PORTx takes the value; an invalid port changes nothing |
| Gpio.Registers.ReadPinIsBitOfReadPort | FanControllerProject/FanControllerProject_Eclipse/FanControllerProject_Eclipse/gpio.c:314-338 | readPin of a pin equals GET_BIT of readPort of its port |
| DcMotor.DutyCycle | FanControllerProject/FanControllerProject_Eclipse/FanControllerProject_Eclipse/HAL/dc_motor.c:47 | for speeds up to 100, the duty cycle is speed*250/100+5 and lies in 5..255 |
| DcMotor.DutyCycleMonotone | FanControllerProject/FanControllerProject_Eclipse/FanControllerProject_Eclipse/HAL/dc_motor.c:47 | within 0..100, a higher speed never gives a lower compare value |
| DcMotor.DutyCycleEnds | FanControllerProject/FanControllerProject_Eclipse/FanControllerProject_Eclipse/HAL/dc_motor.c:47 | speed 0 gives 5 and speed 100 gives 255 |
| DcMotor.DutyCycleWrapsAbove100 | FanControllerProject/FanControllerProject_Eclipse/FanControllerProject_Eclipse/HAL/dc_motor.c:47 | speed 101 wraps to compare value 1 |
| DcMotor.Motor.Init | FanControllerProject/FanControllerProject_Eclipse/FanControllerProject_Eclipse/HAL/dc_motor.c:22-32 | the enable pin and both direction pins become outputs; IN1 and IN2 are low; no other PORT bit changes |
| DcMotor.Motor.Rotate | FanControllerProject/FanControllerProject_Eclipse/FanControllerProject_Eclipse/HAL/dc_motor.c:43-70 | STOP stops the PWM and drives both pins low; the other rotations start the PWM at DutyCycle(speed); IN1 is high iff clockwise, IN2 iff counter-clockwise, never both |
| FanController.Band | FanControllerProject/FanControllerProject_Eclipse/FanControllerProject_Eclipse/fan_controller_project.c:56-89 | some branch always fires; the motor stops exactly below 30; it never turns counter-clockwise; speed is at most 100 |
| FanController.BandIsClosedForm | FanControllerProject/FanControllerProject_Eclipse/FanControllerProject_Eclipse/fan_controller_project.c:71-89 | the band chain equals 25% per 30 degrees from 30 on, capped at 100 |
| FanController.BandSpeedMonotone | FanControllerProject/FanControllerProject_Eclipse/FanControllerProject_Eclipse/fan_controller_project.c:56-89 | a hotter reading never gives a slower fan |
| FanController.Run | FanControllerProject/FanControllerProject_Eclipse/FanControllerProject_Eclipse/fan_controller_project.c:51-93 | one command per reading, each chosen by its band; afterwards IN1 is high and the PWM runs exactly when the last reading is at least 30, with the duty cycle of that reading's speed, and IN2 is low; DDR, PIN and every other PORT bit are kept |
| Keypad.Adjust4x4 | DoorLockerSecuritySystemProject/DoorLockerSecuritySystemProject_Eclipse/DoorLockerSecuritySystemProject_HMI_ECU/HAL/keypad.c:189-250 | switches 1..16 give a digit exactly when they are not 4, 8, 12, 13, 15 or 16; other numbers are unchanged |
| Keypad.Adjust4x3 | DoorLockerSecuritySystemProject/DoorLockerSecuritySystemProject_Eclipse/DoorLockerSecuritySystemProject_HMI_ECU/HAL/keypad.c:154-176 | only 10, 11 and 12 change; the key is 0 exactly for 0 and 11; 10 and 12 give non-digits |
| Keypad.DigitButton | DoorLockerSecuritySystemProject/DoorLockerSecuritySystemProject_Eclipse/DoorLockerSecuritySystemProject_HMI_ECU/HAL/keypad.c:189-250 | the switch of each digit is one of 1..16 |
| Keypad.DigitFromOneButton | DoorLockerSecuritySystemProject/DoorLockerSecuritySystemProject_Eclipse/DoorLockerSecuritySystemProject_HMI_ECU/HAL/keypad.c:189-250 | each digit comes from exactly one switch |
| Keypad.Adjust4x4Injective | DoorLockerSecuritySystemProject/DoorLockerSecuritySystemProject_Eclipse/DoorLockerSecuritySystemProject_HMI_ECU/HAL/keypad.c:189-250 | no two switches carry the same key |
| Keypad.ButtonNumber | DoorLockerSecuritySystemProject/DoorLockerSecuritySystemProject_Eclipse/DoorLockerSecuritySystemProject_HMI_ECU/HAL/keypad.c:127-128 | the non-standard 4x4 switch number lies in 1..16 |
| Keypad.ButtonNumberInjective | DoorLockerSecuritySystemProject/DoorLockerSecuritySystemProject_Eclipse/DoorLockerSecuritySystemProject_HMI_ECU/HAL/keypad.c:127-128 | different crossings give different switch numbers |
| Keypad.GetPressedKey | DoorLockerSecuritySystemProject/DoorLockerSecuritySystemProject_Eclipse/DoorLockerSecuritySystemProject_HMI_ECU/HAL/keypad.c:85-138 | a pass returns the adjusted key of the first pressed switch in row-major order, or finds no switch pressed |
| ExternalEeprom.DeviceByte | DoorLockerSecuritySystemProject/DoorLockerSecuritySystemProject_Eclipse/DoorLockerSecuritySystemProject_CONTROL_ECU/external_eeprom.c:32 | high nibble 0xA, R/W bit 0, bits 1-3 are address bits 8-10 |
| ExternalEeprom.WordByte | DoorLockerSecuritySystemProject/DoorLockerSecuritySystemProject_Eclipse/DoorLockerSecuritySystemProject_CONTROL_ECU/external_eeprom.c:37 | the word byte is the low eight address bits |
| ExternalEeprom.AddressRoundTrip | DoorLockerSecuritySystemProject/DoorLockerSecuritySystemProject_Eclipse/DoorLockerSecuritySystemProject_CONTROL_ECU/external_eeprom.c:30-37 | the device byte and word byte select back every address below 0x800 |
| ExternalEeprom.AddressPairInjective | DoorLockerSecuritySystemProject/DoorLockerSecuritySystemProject_Eclipse/DoorLockerSecuritySystemProject_CONTROL_ECU/external_eeprom.c:30-37 | two addresses below 0x800 that send the same pair are equal |
| ExternalEeprom.AddressPhase | DoorLockerSecuritySystemProject/DoorLockerSecuritySystemProject_Eclipse/DoorLockerSecuritySystemProject_CONTROL_ECU/external_eeprom.c:25-40 | the shared address phase passes exactly when the first three statuses are as expected, and otherwise stops at the first mismatch |
| ExternalEeprom.WriteTransaction | DoorLockerSecuritySystemProject/DoorLockerSecuritySystemProject_Eclipse/DoorLockerSecuritySystemProject_CONTROL_ECU/external_eeprom.c:23-50 | SUCCESS exactly when all four statuses are as expected, with the full operation list ending in a stop; otherwise ERROR at the first mismatch, no stop, and the operations issued up to it |
| ExternalEeprom.ReadTransaction | DoorLockerSecuritySystemProject/DoorLockerSecuritySystemProject_Eclipse/DoorLockerSecuritySystemProject_CONTROL_ECU/external_eeprom.c:61-99 | SUCCESS exactly when all six statuses are as expected, otherwise ERROR at the first mismatch; the caller's byte takes the EEPROM's byte once the read has happened, even if the last check then fails |
| ExternalEeprom.ReadTransactionOps | DoorLockerSecuritySystemProject/DoorLockerSecuritySystemProject_Eclipse/DoorLockerSecuritySystemProject_CONTROL_ECU/external_eeprom.c:61-99 | a successful read issues all seven operations; a failed one issues the prefix up to the failed check |
| ExternalEeprom.Bus.constructor | DoorLockerSecuritySystemProject/DoorLockerSecuritySystemProject_Eclipse/DoorLockerSecuritySystemProject_CONTROL_ECU/external_eeprom.c:23-99 | a bus with nothing issued and nothing read |
| ExternalEeprom.Bus.Start | DoorLockerSecuritySystemProject/DoorLockerSecuritySystemProject_Eclipse/DoorLockerSecuritySystemProject_CONTROL_ECU/external_eeprom.c:26 | I2C_start appends a start |
| ExternalEeprom.Bus.Stop | DoorLockerSecuritySystemProject/DoorLockerSecuritySystemProject_Eclipse/DoorLockerSecuritySystemProject_CONTROL_ECU/external_eeprom.c:47 | I2C_stop appends a stop |
| ExternalEeprom.Bus.WriteByte | DoorLockerSecuritySystemProject/DoorLockerSecuritySystemProject_Eclipse/DoorLockerSecuritySystemProject_CONTROL_ECU/external_eeprom.c:42 | I2C_writeByte appends the byte |
| ExternalEeprom.Bus.ReadByteWithNack | DoorLockerSecuritySystemProject/DoorLockerSecuritySystemProject_Eclipse/DoorLockerSecuritySystemProject_CONTROL_ECU/external_eeprom.c:91 | returns the next byte the slave sends and appends a NACK read |
| ExternalEeprom.Bus.GetStatus | DoorLockerSecuritySystemProject/DoorLockerSecuritySystemProject_Eclipse/DoorLockerSecuritySystemProject_CONTROL_ECU/external_eeprom.c:28 | returns the next status code |
| ExternalEeprom.SendAddress | DoorLockerSecuritySystemProject/DoorLockerSecuritySystemProject_Eclipse/DoorLockerSecuritySystemProject_CONTROL_ECU/external_eeprom.c:25-40 | the bus code of the address phase issues exactly AddressPhase's operations and reads its statuses |
| ExternalEeprom.WriteByte | DoorLockerSecuritySystemProject/DoorLockerSecuritySystemProject_Eclipse/DoorLockerSecuritySystemProject_CONTROL_ECU/external_eeprom.c:23-50 | EEPROM_writeByte returns WriteTransaction's result, issues its operations and reads its statuses |
| ExternalEeprom.ReadByte | DoorLockerSecuritySystemProject/DoorLockerSecuritySystemProject_Eclipse/DoorLockerSecuritySystemProject_CONTROL_ECU/external_eeprom.c:61-99 | EEPROM_readByte returns ReadTransaction's result and leaves its byte in the caller's variable |
| DoorProtocol.DefineFrame | DoorLockerSecuritySystemProject/DoorLockerSecuritySystemProject_Eclipse/DoorLockerSecuritySystemProject_HMI_ECU/APP/DEVICE_FUNCTIONS.c:67-84 | the define frame is 11 bytes: 0x02, then the first entry, then the second |
| DoorProtocol.CheckFrame | DoorLockerSecuritySystemProject/DoorLockerSecuritySystemProject_Eclipse/DoorLockerSecuritySystemProject_HMI_ECU/APP/DEVICE_FUNCTIONS.c:94-106 | the check frame is 6 bytes: 0x03, then the entry |
| ControlSpec.Commit | DoorLockerSecuritySystemProject/DoorLockerSecuritySystemProject_Eclipse/DoorLockerSecuritySystemProject_CONTROL_ECU/APP/DEVICE_FUNCTIONS.c:123-126 | after the five writes, the EEPROM reads back the password at 0x0001..0x0005 and every other address is kept |
| ControlSpec.ScanLoop | DoorLockerSecuritySystemProject/DoorLockerSecuritySystemProject_Eclipse/DoorLockerSecuritySystemProject_CONTROL_ECU/APP/DEVICE_FUNCTIONS.c:38-55 | the reply is 0xFF or 0x00, and is 0xFF exactly when some remaining byte is nonzero |
| ControlSpec.CompareLoop | DoorLockerSecuritySystemProject/DoorLockerSecuritySystemProject_Eclipse/DoorLockerSecuritySystemProject_CONTROL_ECU/APP/DEVICE_FUNCTIONS.c:153-163 | the reply is the accept byte exactly when the remaining bytes agree, and 0x00 otherwise |
| ControlSpec.Initial | DoorLockerSecuritySystemProject/DoorLockerSecuritySystemProject_Eclipse/DoorLockerSecuritySystemProject_CONTROL_ECU/APP/CONTROL_ECU.c:22-26 | the globals start at zero, and the motor, buzzer and timer are off |
| ControlSpec.Scan | DoorLockerSecuritySystemProject/DoorLockerSecuritySystemProject_Eclipse/DoorLockerSecuritySystemProject_CONTROL_ECU/APP/DEVICE_FUNCTIONS.c:26-56 | currentPassword is the EEPROM's password; exactly one reply is sent, 0xFF (with passwordState 1) iff a byte is nonzero; nothing else changes |
| ControlSpec.Define | DoorLockerSecuritySystemProject/DoorLockerSecuritySystemProject_Eclipse/DoorLockerSecuritySystemProject_CONTROL_ECU/APP/DEVICE_FUNCTIONS.c:97-131 | ten bytes are read into the two buffers; if they agree they are committed and 0x02 sent, else 0x00 sent and the EEPROM kept; currentPassword is untouched |
| ControlSpec.Check | DoorLockerSecuritySystemProject/DoorLockerSecuritySystemProject_Eclipse/DoorLockerSecuritySystemProject_CONTROL_ECU/APP/DEVICE_FUNCTIONS.c:141-164 | five bytes are read; the reply is 0x03 iff they equal currentPassword and 0x00 otherwise; nothing else changes |
| ControlSpec.Unlock | DoorLockerSecuritySystemProject/DoorLockerSecuritySystemProject_Eclipse/DoorLockerSecuritySystemProject_CONTROL_ECU/APP/DEVICE_FUNCTIONS.c:173-183 | the motor turns clockwise at 100, one 0x04 is sent and Timer1 starts; nothing else changes |
| ControlSpec.TickEvents | DoorLockerSecuritySystemProject/DoorLockerSecuritySystemProject_Eclipse/DoorLockerSecuritySystemProject_CONTROL_ECU/APP/DEVICE_FUNCTIONS.c:65-88 | while Timer1 runs the counter goes up (mod 256); 15 stops the motor, 18 reverses it, 33 stops motor and timer and resets the counter, each sending 0x04; other counts only count; a stopped timer brings no tick |
| ControlSpec.StoppedTicks | DoorLockerSecuritySystemProject/DoorLockerSecuritySystemProject_Eclipse/DoorLockerSecuritySystemProject_CONTROL_ECU/timer.c:491-495 | with Timer1 stopped (no clock source after Timer1_init, or after the count of 33) any number of timer periods changes nothing |
| ControlSpec.Breach | DoorLockerSecuritySystemProject/DoorLockerSecuritySystemProject_Eclipse/DoorLockerSecuritySystemProject_CONTROL_ECU/APP/DEVICE_FUNCTIONS.c:192-204 | the buzzer sounds once and ends off; nothing is sent |
| ControlSpec.Step | DoorLockerSecuritySystemProject/DoorLockerSecuritySystemProject_Eclipse/DoorLockerSecuritySystemProject_CONTROL_ECU/APP/CONTROL_ECU.c:74-98 | one pass consumes exactly the command and its payload, sends one reply for 0x02/0x03/0x04 and none otherwise, changes the EEPROM only on an agreeing define, never changes currentPassword, and an unknown command changes nothing else |
| ControlSpec.ServeRun | DoorLockerSecuritySystemProject/DoorLockerSecuritySystemProject_Eclipse/DoorLockerSecuritySystemProject_CONTROL_ECU/APP/CONTROL_ECU.c:74-98 | a run over complete commands uses up the input, only appends to what was sent, one byte per define, check and door command, never changes currentPassword, and leaves the EEPROM alone when no command is a define |
| ControlSpec.Boot | DoorLockerSecuritySystemProject/DoorLockerSecuritySystemProject_Eclipse/DoorLockerSecuritySystemProject_CONTROL_ECU/CONTROL_ECU.c:193-218 | at boot exactly one byte is sent; it is 0xFF (with passwordState 1) iff the stored password has a nonzero byte, and 0x00 (with passwordState 0) otherwise |
| ControlSpec.TicksStayBelow33 | DoorLockerSecuritySystemProject/DoorLockerSecuritySystemProject_Eclipse/DoorLockerSecuritySystemProject_CONTROL_ECU/CONTROL_ECU.c:36-59 | once below 33, the seconds counter stays below 33 forever |
| ControlSpec.TicksAdd | DoorLockerSecuritySystemProject/DoorLockerSecuritySystemProject_Eclipse/DoorLockerSecuritySystemProject_CONTROL_ECU/APP/DEVICE_FUNCTIONS.c:65-88 | a+b ticks are a ticks followed by b ticks |
| ControlSpec.QuietTicks | DoorLockerSecuritySystemProject/DoorLockerSecuritySystemProject_Eclipse/DoorLockerSecuritySystemProject_CONTROL_ECU/APP/DEVICE_FUNCTIONS.c:65-88 | between the event counts, ticks only advance the counter |
| ControlSpec.FirstStop | DoorLockerSecuritySystemProject/DoorLockerSecuritySystemProject_Eclipse/DoorLockerSecuritySystemProject_CONTROL_ECU/APP/DEVICE_FUNCTIONS.c:69-73 | from 0, 15 ticks stop the motor and send one 0x04 |
| ControlSpec.Reverse | DoorLockerSecuritySystemProject/DoorLockerSecuritySystemProject_Eclipse/DoorLockerSecuritySystemProject_CONTROL_ECU/APP/DEVICE_FUNCTIONS.c:74-78 | from 15, 3 ticks turn the motor counter-clockwise and send one 0x04 |
| ControlSpec.FinalStop | DoorLockerSecuritySystemProject/DoorLockerSecuritySystemProject_Eclipse/DoorLockerSecuritySystemProject_CONTROL_ECU/APP/DEVICE_FUNCTIONS.c:79-87 | from 18, 15 ticks stop motor and timer, send one 0x04 and reset the counter |
| ControlSpec.DoorCycle | DoorLockerSecuritySystemProject/DoorLockerSecuritySystemProject_Eclipse/DoorLockerSecuritySystemProject_CONTROL_ECU/APP/DEVICE_FUNCTIONS.c:65-88 | an unlock followed by 33 ticks opens (15 s), reverses (18 s) and closes (33 s) the door, sends exactly four 0x04 and ends idle with the counter at 0 and the password and EEPROM kept |
| ControlSpec.DoorRequest | DoorLockerSecuritySystemProject/DoorLockerSecuritySystemProject_Eclipse/DoorLockerSecuritySystemProject_CONTROL_ECU/APP/CONTROL_ECU.c:90-92 | a 0x04 command, served with the counter at 0, plus 33 seconds sends four 0x04 and leaves the ECU idle with the rest of the input |
| ControlSpec.RebootAfterDefineAccepts | DoorLockerSecuritySystemProject/DoorLockerSecuritySystemProject_Eclipse/DoorLockerSecuritySystemProject_CONTROL_ECU/APP/DEVICE_FUNCTIONS.c:26-56 | after an agreeing define, a reboot reads the new password back, reports it iff it has a nonzero digit, and accepts it at the next check |
| ControlSpec.DefineThenCheckRejects | DoorLockerSecuritySystemProject/DoorLockerSecuritySystemProject_Eclipse/DoorLockerSecuritySystemProject_CONTROL_ECU/APP/DEVICE_FUNCTIONS.c:97-131 | as written, a define followed by a check of the same new password replies 0x02 then 0x00 whenever it differs from the boot copy |
| ControlSpec.DefineStep | DoorLockerSecuritySystemProject/DoorLockerSecuritySystemProject_Eclipse/DoorLockerSecuritySystemProject_CONTROL_ECU/APP/CONTROL_ECU.c:82-84 | a pass on a define frame replies 0x02 exactly when both entries agree, and keeps currentPassword |
| ControlSpec.CheckStep | DoorLockerSecuritySystemProject/DoorLockerSecuritySystemProject_Eclipse/DoorLockerSecuritySystemProject_CONTROL_ECU/APP/CONTROL_ECU.c:86-88 | a pass on a check frame replies 0x03 exactly when the entry is currentPassword |
| ControlSpec.FreshDeviceRejectsNewPassword | DoorLockerSecuritySystemProject/DoorLockerSecuritySystemProject_Eclipse/DoorLockerSecuritySystemProject_CONTROL_ECU/APP/DEVICE_FUNCTIONS.c:97-131 | on a blank EEPROM, defining 12345 and checking it gives the replies 0x00, 0x02, 0x00 |
| ControlSpec.DefineRefreshing | DoorLockerSecuritySystemProject/DoorLockerSecuritySystemProject_Eclipse/DoorLockerSecuritySystemProject_CONTROL_ECU/APP/DEVICE_FUNCTIONS.c:97-131 | corrected define: an agreeing define also makes the new password current; otherwise exactly as written |
| ControlSpec.DefineRefreshingThenCheckAccepts | DoorLockerSecuritySystemProject/DoorLockerSecuritySystemProject_Eclipse/DoorLockerSecuritySystemProject_CONTROL_ECU/APP/DEVICE_FUNCTIONS.c:141-164 | with the corrected define, the password just defined is accepted at the next check |
| ControlEcu.CommitFirstAll | DoorLockerSecuritySystemProject/DoorLockerSecuritySystemProject_Eclipse/DoorLockerSecuritySystemProject_CONTROL_ECU/APP/DEVICE_FUNCTIONS.c:123-126 | the five byte-by-byte EEPROM writes give the committed EEPROM |
| ControlEcu.Ecu.constructor | DoorLockerSecuritySystemProject/DoorLockerSecuritySystemProject_Eclipse/DoorLockerSecuritySystemProject_CONTROL_ECU/APP/CONTROL_ECU.c:22-26 | the ECU's state is ControlSpec.Initial |
| ControlEcu.Ecu.ScanPassword | DoorLockerSecuritySystemProject/DoorLockerSecuritySystemProject_Eclipse/DoorLockerSecuritySystemProject_CONTROL_ECU/APP/DEVICE_FUNCTIONS.c:26-56 | the two loops reach ControlSpec.Scan |
| ControlEcu.Ecu.LoadPassword | DoorLockerSecuritySystemProject/DoorLockerSecuritySystemProject_Eclipse/DoorLockerSecuritySystemProject_CONTROL_ECU/APP/DEVICE_FUNCTIONS.c:30-34 | the read loop leaves the five stored EEPROM bytes in currentPassword |
| ControlEcu.Ecu.Receive | DoorLockerSecuritySystemProject/DoorLockerSecuritySystemProject_Eclipse/DoorLockerSecuritySystemProject_CONTROL_ECU/APP/DEVICE_FUNCTIONS.c:101-104 | the buffer holds the next five input bytes, which are consumed; nothing else changes |
| ControlEcu.Ecu.DefinePassword | DoorLockerSecuritySystemProject/DoorLockerSecuritySystemProject_Eclipse/DoorLockerSecuritySystemProject_CONTROL_ECU/APP/DEVICE_FUNCTIONS.c:97-131 | the receive, compare and write loops reach ControlSpec.Define |
| ControlEcu.Ecu.WritePassword | DoorLockerSecuritySystemProject/DoorLockerSecuritySystemProject_Eclipse/DoorLockerSecuritySystemProject_CONTROL_ECU/APP/DEVICE_FUNCTIONS.c:123-126 | the write loop commits receivedPassword to 0x0001..0x0005 and leaves the shared counter at 5; nothing else changes |
| ControlEcu.Ecu.CheckPassword | DoorLockerSecuritySystemProject/DoorLockerSecuritySystemProject_Eclipse/DoorLockerSecuritySystemProject_CONTROL_ECU/APP/DEVICE_FUNCTIONS.c:141-164 | the receive and compare loops reach ControlSpec.Check |
| ControlEcu.Ecu.DoorUnlock | DoorLockerSecuritySystemProject/DoorLockerSecuritySystemProject_Eclipse/DoorLockerSecuritySystemProject_CONTROL_ECU/APP/DEVICE_FUNCTIONS.c:173-183 | reaches ControlSpec.Unlock |
| ControlEcu.Ecu.TimerSeconds | DoorLockerSecuritySystemProject/DoorLockerSecuritySystemProject_Eclipse/DoorLockerSecuritySystemProject_CONTROL_ECU/APP/DEVICE_FUNCTIONS.c:65-88 | called while Timer1 runs, reaches ControlSpec.Tick |
| ControlEcu.Ecu.BreachDetection | DoorLockerSecuritySystemProject/DoorLockerSecuritySystemProject_Eclipse/DoorLockerSecuritySystemProject_CONTROL_ECU/APP/DEVICE_FUNCTIONS.c:192-204 | reaches ControlSpec.Breach |
| ControlEcu.Ecu.Step | DoorLockerSecuritySystemProject/DoorLockerSecuritySystemProject_Eclipse/DoorLockerSecuritySystemProject_CONTROL_ECU/APP/CONTROL_ECU.c:76-97 | one dispatch pass reaches ControlSpec.Step |
| ControlEcu.Ecu.Serve | DoorLockerSecuritySystemProject/DoorLockerSecuritySystemProject_Eclipse/DoorLockerSecuritySystemProject_CONTROL_ECU/APP/CONTROL_ECU.c:74-98 | the command loop over complete commands reaches ControlSpec.Serve |
| ControlEcu.PowerUp | DoorLockerSecuritySystemProject/DoorLockerSecuritySystemProject_Eclipse/DoorLockerSecuritySystemProject_CONTROL_ECU/APP/CONTROL_ECU.c:72-98 | main reaches Serve of ControlSpec.Boot |
| HmiSpec.Initial | DoorLockerSecuritySystemProject/DoorLockerSecuritySystemProject_Eclipse/DoorLockerSecuritySystemProject_HMI_ECU/APP/HMI_ECU.c:21-26 | the globals at power-up satisfy the loop invariant; nothing is sent |
| HmiSpec.Boot | DoorLockerSecuritySystemProject/DoorLockerSecuritySystemProject_Eclipse/DoorLockerSecuritySystemProject_HMI_ECU/APP/HMI_ECU.c:63-68 | the timer starts, one byte is read, and passwordState becomes 1 iff it is 0xFF; the invariant is kept |
| HmiSpec.CursorToggle | DoorLockerSecuritySystemProject/DoorLockerSecuritySystemProject_Eclipse/DoorLockerSecuritySystemProject_HMI_ECU/APP/DEVICE_FUNCTIONS.c:25-43 | LOW becomes HIGH and HIGH becomes LOW; nothing else changes |
| HmiSpec.CursorToggleTwice | DoorLockerSecuritySystemProject/DoorLockerSecuritySystemProject_Eclipse/DoorLockerSecuritySystemProject_HMI_ECU/HMI_ECU.c:33-51 | two blinks restore the toggle |
| HmiSpec.EnterPassword | DoorLockerSecuritySystemProject/DoorLockerSecuritySystemProject_Eclipse/DoorLockerSecuritySystemProject_HMI_ECU/APP/DEVICE_SCREENS.c:173-200 | with room, the key goes to position buttonCount of the entry selected by reenter and the count goes up; with five digits nothing changes |
| HmiSpec.SendNewPassword | DoorLockerSecuritySystemProject/DoorLockerSecuritySystemProject_Eclipse/DoorLockerSecuritySystemProject_HMI_ECU/APP/DEVICE_FUNCTIONS.c:67-84 | sends exactly the define frame of both entries |
| HmiSpec.SendPassword | DoorLockerSecuritySystemProject/DoorLockerSecuritySystemProject_Eclipse/DoorLockerSecuritySystemProject_HMI_ECU/APP/DEVICE_FUNCTIONS.c:94-106 | sends exactly the check frame of the first entry |
| HmiSpec.BreachDetection | DoorLockerSecuritySystemProject/DoorLockerSecuritySystemProject_Eclipse/DoorLockerSecuritySystemProject_HMI_ECU/APP/DEVICE_FUNCTIONS.c:115-140 | sends 0xF0, reads nothing, and ends with the timer running |
| HmiSpec.PasswordSuccessful | DoorLockerSecuritySystemProject/DoorLockerSecuritySystemProject_Eclipse/DoorLockerSecuritySystemProject_HMI_ECU/APP/DEVICE_SCREENS.c:25-97 | clears the entry, reads a key; '+' sends 0x04, reads four reports and restarts the timer iff the fourth is 0x04; '-' clears passwordState and restarts the timer; any other key leaves it stopped |
| HmiSpec.PasswordNoMatch | DoorLockerSecuritySystemProject/DoorLockerSecuritySystemProject_Eclipse/DoorLockerSecuritySystemProject_HMI_ECU/APP/DEVICE_SCREENS.c:106-132 | back to defining from scratch: both flags and the count are 0 and the timer runs |
| HmiSpec.PasswordFail | DoorLockerSecuritySystemProject/DoorLockerSecuritySystemProject_Eclipse/DoorLockerSecuritySystemProject_HMI_ECU/APP/DEVICE_SCREENS.c:141-164 | a new attempt: reenter and the count are 0 and the timer runs |
| HmiSpec.ConfirmBranch | DoorLockerSecuritySystemProject/DoorLockerSecuritySystemProject_Eclipse/DoorLockerSecuritySystemProject_HMI_ECU/APP/HMI_ECU.c:102-159 | the first-entry, define and check branches each run exactly under their conditions, and for 0/1 flags one of them always runs |
| HmiSpec.Step | DoorLockerSecuritySystemProject/DoorLockerSecuritySystemProject_Eclipse/DoorLockerSecuritySystemProject_HMI_ECU/APP/HMI_ECU.c:70-162 | one pass keeps the loop invariant, consumes one key (two after a menu), and a digit sends and reads nothing; '-' only clears the count; other keys and an early '=' change only the key |
| HmiSpec.RunKeepsInv | DoorLockerSecuritySystemProject/DoorLockerSecuritySystemProject_Eclipse/DoorLockerSecuritySystemProject_HMI_ECU/APP/HMI_ECU.c:70-162 | the loop invariant (count at most 5, flags 0/1, fewer than three failures) holds after any number of passes |
| HmiSpec.TypeDigit | DoorLockerSecuritySystemProject/DoorLockerSecuritySystemProject_Eclipse/DoorLockerSecuritySystemProject_HMI_ECU/APP/HMI_ECU.c:74-78 | one digit with room left is stored at position buttonCount of the entry being typed |
| HmiSpec.TypeDigits | DoorLockerSecuritySystemProject/DoorLockerSecuritySystemProject_Eclipse/DoorLockerSecuritySystemProject_HMI_ECU/HMI_ECU.c:247-274 | n digits, room permitting, land in order after the digits already entered; nothing is sent or read |
| HmiSpec.FirstConfirm | DoorLockerSecuritySystemProject/DoorLockerSecuritySystemProject_Eclipse/DoorLockerSecuritySystemProject_HMI_ECU/APP/HMI_ECU.c:100-113 | '=' on a first entry with no password stored only switches to the re-entry |
| HmiSpec.DefineConfirm | DoorLockerSecuritySystemProject/DoorLockerSecuritySystemProject_Eclipse/DoorLockerSecuritySystemProject_HMI_ECU/APP/HMI_ECU.c:115-130 | '=' on a re-entry sends the define frame; 0x02 leads to passwordSuccessful, any other reply back to defining |
| HmiSpec.CheckConfirm | DoorLockerSecuritySystemProject/DoorLockerSecuritySystemProject_Eclipse/DoorLockerSecuritySystemProject_HMI_ECU/APP/HMI_ECU.c:132-158 | '=' with a stored password sends the check frame; 0x03 clears the failure count and leads to passwordSuccessful; otherwise the count goes up, and the third failure sends 0xF0 and resets it |
| HmiEcu.Terminal.constructor | DoorLockerSecuritySystemProject/DoorLockerSecuritySystemProject_Eclipse/DoorLockerSecuritySystemProject_HMI_ECU/APP/HMI_ECU.c:21-41 | the terminal's state is HmiSpec.Initial |
| HmiEcu.Terminal.ReceiveByte | DoorLockerSecuritySystemProject/DoorLockerSecuritySystemProject_Eclipse/DoorLockerSecuritySystemProject_HMI_ECU/APP/HMI_ECU.c:65 | returns and consumes the next UART byte |
| HmiEcu.Terminal.ReadKey | DoorLockerSecuritySystemProject/DoorLockerSecuritySystemProject_Eclipse/DoorLockerSecuritySystemProject_HMI_ECU/APP/HMI_ECU.c:73 | key takes, and consumes, the next key pressed |
| HmiEcu.Terminal.Boot | DoorLockerSecuritySystemProject/DoorLockerSecuritySystemProject_Eclipse/DoorLockerSecuritySystemProject_HMI_ECU/APP/HMI_ECU.c:63-68 | reaches HmiSpec.Boot |
| HmiEcu.Terminal.CursorToggle | DoorLockerSecuritySystemProject/DoorLockerSecuritySystemProject_Eclipse/DoorLockerSecuritySystemProject_HMI_ECU/APP/DEVICE_FUNCTIONS.c:25-43 | reaches HmiSpec.CursorToggle |
| HmiEcu.Terminal.EnterPassword | DoorLockerSecuritySystemProject/DoorLockerSecuritySystemProject_Eclipse/DoorLockerSecuritySystemProject_HMI_ECU/APP/DEVICE_SCREENS.c:173-200 | the array write reaches HmiSpec.EnterPassword |
| HmiEcu.Terminal.SendNewPassword | DoorLockerSecuritySystemProject/DoorLockerSecuritySystemProject_Eclipse/DoorLockerSecuritySystemProject_HMI_ECU/APP/DEVICE_FUNCTIONS.c:67-84 | the two send loops reach HmiSpec.SendNewPassword |
| HmiEcu.Terminal.SendPassword | DoorLockerSecuritySystemProject/DoorLockerSecuritySystemProject_Eclipse/DoorLockerSecuritySystemProject_HMI_ECU/APP/DEVICE_FUNCTIONS.c:94-106 | the send loop reaches HmiSpec.SendPassword |
| HmiEcu.Terminal.BreachDetection | DoorLockerSecuritySystemProject/DoorLockerSecuritySystemProject_Eclipse/DoorLockerSecuritySystemProject_HMI_ECU/APP/DEVICE_FUNCTIONS.c:115-140 | reaches HmiSpec.BreachDetection |
| HmiEcu.Terminal.PasswordSuccessful | DoorLockerSecuritySystemProject/DoorLockerSecuritySystemProject_Eclipse/DoorLockerSecuritySystemProject_HMI_ECU/APP/DEVICE_SCREENS.c:25-97 | the four receives reach HmiSpec.PasswordSuccessful |
| HmiEcu.Terminal.ReceiveReports | DoorLockerSecuritySystemProject/DoorLockerSecuritySystemProject_Eclipse/DoorLockerSecuritySystemProject_HMI_ECU/APP/DEVICE_SCREENS.c:51-72 | four bytes are consumed and the last one is the report that decides the timer restart |
| HmiEcu.Terminal.PasswordNoMatch | DoorLockerSecuritySystemProject/DoorLockerSecuritySystemProject_Eclipse/DoorLockerSecuritySystemProject_HMI_ECU/APP/DEVICE_SCREENS.c:106-132 | reaches HmiSpec.PasswordNoMatch |
| HmiEcu.Terminal.PasswordFail | DoorLockerSecuritySystemProject/DoorLockerSecuritySystemProject_Eclipse/DoorLockerSecuritySystemProject_HMI_ECU/APP/DEVICE_SCREENS.c:141-164 | reaches HmiSpec.PasswordFail |
| HmiEcu.Terminal.Confirm | DoorLockerSecuritySystemProject/DoorLockerSecuritySystemProject_Eclipse/DoorLockerSecuritySystemProject_HMI_ECU/APP/HMI_ECU.c:118-158 | reading the reply and choosing the screen reaches HmiSpec.Confirm |
| HmiEcu.Terminal.Step | DoorLockerSecuritySystemProject/DoorLockerSecuritySystemProject_Eclipse/DoorLockerSecuritySystemProject_HMI_ECU/APP/HMI_ECU.c:72-161 | one pass reaches HmiSpec.Step |
| HmiEcu.Terminal.Run | DoorLockerSecuritySystemProject/DoorLockerSecuritySystemProject_Eclipse/DoorLockerSecuritySystemProject_HMI_ECU/APP/HMI_ECU.c:70-162 | n passes reach HmiSpec.Run |
| HmiEcu.PowerUp | DoorLockerSecuritySystemProject/DoorLockerSecuritySystemProject_Eclipse/DoorLockerSecuritySystemProject_HMI_ECU/APP/HMI_ECU.c:38-163 | main reaches n passes of HmiSpec.Run after HmiSpec.Boot |
| DoorSystem.DefineExchange | DoorLockerSecuritySystemProject/DoorLockerSecuritySystemProject_Eclipse/DoorLockerSecuritySystemProject_HMI_ECU/APP/HMI_ECU.c:115-130 | the HMI's define frame is what the CONTROL ECU reads; the reply is 0x02 iff the entries agree; then the password is stored and the HMI shows its menu, otherwise the EEPROM is kept and the HMI starts over |
| DoorSystem.CheckExchange | DoorLockerSecuritySystemProject/DoorLockerSecuritySystemProject_Eclipse/DoorLockerSecuritySystemProject_HMI_ECU/APP/HMI_ECU.c:132-158 | the check frame is what the CONTROL ECU reads; the reply is 0x03 iff the entry is the current password; failures count up and the third sends the frame plus 0xF0 |
| DoorSystem.DoorExchange | DoorLockerSecuritySystemProject/DoorLockerSecuritySystemProject_Eclipse/DoorLockerSecuritySystemProject_HMI_ECU/APP/DEVICE_SCREENS.c:46-83 | '+' sends the 0x04 the CONTROL ECU reads; its four reports restart the HMI's timer for a new password, and the CONTROL ECU ends idle |
| DoorSystem.BreachExchange | DoorLockerSecuritySystemProject/DoorLockerSecuritySystemProject_Eclipse/DoorLockerSecuritySystemProject_HMI_ECU/APP/HMI_ECU.c:151-157 | the HMI's last byte after a third failure is the 0xF0 that makes the CONTROL ECU sound its alarm once without replying |
| Ultrasonic.ProcessEdge | DistanceMeasuringProject/DistanceMeasuringProject_Eclipse/DistanceMeasuringProject_Eclipse/HAL/ultrasonic_four_terminal_sensor.c:104-121 | the timer is cleared; the first edge of a pair waits for falling, the second takes the capture as the pulse length, waits for rising and resets the count |
| Ultrasonic.EdgesPair | DistanceMeasuringProject/DistanceMeasuringProject_Eclipse/DistanceMeasuringProject_Eclipse/HAL/ultrasonic_four_terminal_sensor.c:104-121 | after any number of edges from init, the count is its parity, the awaited edge matches it, and the pulse length is the capture closing the last complete pair |
| Ultrasonic.Sensor.constructor | DistanceMeasuringProject/DistanceMeasuringProject_Eclipse/DistanceMeasuringProject_Eclipse/HAL/ultrasonic_four_terminal_sensor.c:46-56 | init waits for a rising edge with the count at 0 |
| Ultrasonic.Sensor.EdgeProcessing | DistanceMeasuringProject/DistanceMeasuringProject_Eclipse/DistanceMeasuringProject_Eclipse/HAL/ultrasonic_four_terminal_sensor.c:104-121 | the handler reaches ProcessEdge |
| StopWatch.Tick | StopWatchProject/StopWatchProject_Eclipse.c:17-35 | a valid time of day stays valid |
| StopWatch.TickAdvances | StopWatchProject/StopWatchProject_Eclipse.c:17-35 | on a valid time, the tick adds one second modulo 24 hours |
| StopWatch.TickMidnight | StopWatchProject/StopWatchProject_Eclipse.c:30-34 | 23:59:59 is followed by 00:00:00 |
| StopWatch.StartClock | StopWatchProject/StopWatchProject_Eclipse.c:58-63 | selects clock/64 and changes only the clock-select bits |
| StopWatch.StopClock | StopWatchProject/StopWatchProject_Eclipse.c:50-55 | removes the clock source and changes only the clock-select bits |
| StopWatch.DigitsShowTime | StopWatchProject/StopWatchProject_Eclipse.c:114-131 | on a valid time every digit is below 10, and the six digits give back the time |
| StopWatch.Stopwatch.constructor | StopWatchProject/StopWatchProject_Eclipse.c:88-97 | time 00:00:00, counter 0, Timer1 running at clock/64 |
| StopWatch.Stopwatch.TimerTick | StopWatchProject/StopWatchProject_Eclipse.c:17-35 | reaches Tick; the timer registers are kept |
| StopWatch.Stopwatch.Reset | StopWatchProject/StopWatchProject_Eclipse.c:38-47 | time 00:00:00, counter 0, clock started |
| StopWatch.Stopwatch.Pause | StopWatchProject/StopWatchProject_Eclipse.c:50-55 | the time is kept and the clock stopped |
| StopWatch.Stopwatch.Resume | StopWatchProject/StopWatchProject_Eclipse.c:58-63 | the time is kept and the clock started |
| StopWatch.Stopwatch.Refresh | StopWatchProject/StopWatchProject_Eclipse.c:113-132 | anodes PA0..PA5 in turn with seconds, minutes and hours digits (units first); on a valid time the digits give back the time |
| VehicleSpec.FirstIn | CMiniProject/CMiniProject/functions/TrafficLight.c:6-12 | the position of the first accepted character: accepted, with none before it |
| VehicleSpec.Orange | CMiniProject/CMiniProject/functions/TrafficLight.c:18-30 | speed 30; each temperature whose flag is false is doubled as a short and its flag set, the others kept |
| VehicleSpec.Light | CMiniProject/CMiniProject/functions/TrafficLight.c:12-35 | the answer read sets speed 100 for green, 30 for orange and 0 for red; green and red change nothing else, and no light touches the script or the engine state |
| VehicleSpec.TrafficLight | CMiniProject/CMiniProject/functions/TrafficLight.c:5-40 | returns iff the script holds a light key; then it has read exactly up to the first one and the state is that light applied after the read |
| VehicleSpec.FirstAccepted | CMiniProject/CMiniProject/functions/CabinetTemperature.c:6-21 | the position of the first accepted number: accepted, with none before it |
| VehicleSpec.CabinetTemperature | CMiniProject/CMiniProject/functions/CabinetTemperature.c:5-23 | returns iff some reading is accepted; the first one is kept if in 10..30 (flag '0') and otherwise replaced by 20 (flag '1'); the result is always in 10..30 |
| VehicleSpec.EngineTemperature | CMiniProject/CMiniProject/functions/EngineTemperature.c:5-23 | returns iff some reading is accepted; the first one is kept if in 100..150 (flag '0') and otherwise replaced by 125 (flag '1'); the result is always in 100..150 |
| VehicleSpec.InitialOperation | CMiniProject/CMiniProject/functions/InitialOperation.c:5-46 | the engine-on menu returns only through 'a', with the engine off at 30 |
| VehicleSpec.MainMenu | CMiniProject/CMiniProject/src/Main.c:15-47 | main ends only through 'c'; the engine is then unchanged or off at 30 |
| VehicleSpec.OnThenOff | CMiniProject/CMiniProject/src/Main.c:25-31 | 'a', 'a', 'c' turns the engine on, off again and quits, ending off at 30 |
| VehicleConsole.Console.constructor | CMiniProject/CMiniProject/src/headers/Globals.h:8-15 | the globals hold the given values |
| VehicleConsole.Console.ReadChar | CMiniProject/CMiniProject/functions/TrafficLight.c:11 | `scanf(" %c")` takes the next character, and fails only when the script is empty |
| VehicleConsole.Console.TrafficLight | CMiniProject/CMiniProject/functions/TrafficLight.c:5-40 | the loop reaches VehicleSpec.TrafficLight |
| VehicleConsole.Console.OrangeLight | CMiniProject/CMiniProject/functions/TrafficLight.c:20-28 | the orange case reaches VehicleSpec.Orange |
| VehicleConsole.Console.CabinetTemperature | CMiniProject/CMiniProject/functions/CabinetTemperature.c:5-23 | the loop reaches VehicleSpec.CabinetTemperature |
| VehicleConsole.Console.EngineTemperature | CMiniProject/CMiniProject/functions/EngineTemperature.c:5-23 | the loop reaches VehicleSpec.EngineTemperature |
| VehicleConsole.Console.InitialOperation | CMiniProject/CMiniProject/functions/InitialOperation.c:5-46 | the loop reaches VehicleSpec.InitialOperation |
| VehicleConsole.Console.MainMenu | CMiniProject/CMiniProject/src/Main.c:15-47 | the loop reaches VehicleSpec.MainMenu |

## Left out

- LCD output, the `_delay_ms`/`_delay_us` waits and the peripheral
  initialisation (UART, I2C, Timer0/Timer1 and ADC set-up, the LCD driver)
  are left out. They only affect timing and the screen.
- removePassword (HMI `APP/DEVICE_FUNCTIONS.c`) is left out: it only moves
  the LCD cursor and blanks the screen.
- Of the three door reports before the fourth, the model keeps only that
  they are read. Their value only chooses the LCD text.
- Interrupt concurrency is left out. Timer1's callbacks (the door's seconds
  counter, the cursor blink) are separate operations that a caller
  interleaves with the main loop, not preemptions inside it.
- The buzzer's 60-second wait in breachDetection is a single on/off pulse
  counted in `alarms`.
- Input that has not arrived is a precondition, not an error path: the
  firmware blocks on it forever. This covers a UART byte, a key and, on the
  console, a script that runs out before a menu returns (`None` there).
- ControlSpec.Scan and ControlSpec.Define: the CONTROL ECU's EEPROM is a
  byte map that always answers. EEPROM_readByte's and EEPROM_writeByte's
  ERROR results are ignored by the firmware. I2C failures are modelled
  only in `ExternalEeprom`, which the door model does not call through.
- HmiEcu.Terminal.Run: the HMI's `while (TRUE)` loop is modelled as `n`
  passes. A finite run is what can be stated, and the loop never ends.
- Keypad.GetPressedKey: one scan pass over a matrix snapshot. The endless
  rescan of the firmware is left to the caller, and the GPIO pin-direction
  writes of the scan are left out.
- Ultrasonic_readDistance is left out: it scales the pulse length by a
  `float`. Ultrasonic_trigger only pulses a pin with a delay.
- Gpio.Registers.ReadPin and readPort return no value for an invalid pin or
  port; the model only reads valid ones.
- The GPIO `DDRx` value written by setupPortDirection is any 8-bit value,
  not only PORT_INPUT or PORT_OUTPUT, as in C.
- The stopwatch's INT0/INT1/INT2 initialisation and main's port set-up are
  left out. They configure pins and edges, not the clock.
- VehicleStatus is left out: it only prints the globals.
- The console's global definitions are not part of this model. Their
  initial values are a parameter of `VehicleConsole.Console.constructor`.
- `scanf` input that is not a character or a number is left out.
- `%hu` stored into a `short` is modelled as the 16-bit reinterpretation
  (`VehicleSpec.Stored`).

## Findings

| source | as written | input that shows it | evidently intended | confidence | as-written member | corrected member |
|---|---|---|---|---|---|---|
| DoorLockerSecuritySystemProject/DoorLockerSecuritySystemProject_Eclipse/DoorLockerSecuritySystemProject_CONTROL_ECU/APP/DEVICE_FUNCTIONS.c:97-131 | definePassword writes an agreeing new password to the EEPROM but never copies it into currentPassword, which only scanPassword fills at boot; checkPassword compares with currentPassword | blank EEPROM, HMI defines 1 2 3 4 5 twice, then checks 1 2 3 4 5: the CONTROL ECU replies 0x00, 0x02, 0x00 | a password just defined is the one checkPassword accepts, as after a reboot | high, not executed | ControlSpec.FreshDeviceRejectsNewPassword | ControlSpec.DefineRefreshingThenCheckAccepts |

The main model keeps definePassword as written (`ControlSpec.Define`), so the
door model behaves as the firmware does. `ControlSpec.DefineThenCheckRejects`
generalises the counterexample: the check is rejected whenever the new
password differs from the copy read at boot. `ControlSpec.DefineRefreshing`
is the corrected define. `ControlSpec.RebootAfterDefineAccepts` shows that
a reboot makes the firmware accept the new password.
