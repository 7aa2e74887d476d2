/** The byte protocol the two ECUs of the door locker exchange over the UART.
    Each request is one command byte, followed for a password request by the
    password bytes; each reply is one byte. */
module DoorProtocol {
  import opened Common

  /** Request: compare and store a new password (followed by ten bytes).
      Also the reply that accepts it. */
  const DefineCommand: byte := 0x02
  /** Request: check a password against the stored one (followed by five
      bytes). Also the reply that accepts it. */
  const CheckCommand: byte := 0x03
  /** Request: open the door. Also the byte that reports each stage of the
      door's movement. */
  const DoorCommand: byte := 0x04
  /** Request: sound the alarm after too many wrong passwords. */
  const BreachCommand: byte := 0xF0
  /** Boot reply: a password is stored. */
  const PasswordFound: byte := 0xFF
  /** Boot reply "no password stored", and the reply that rejects a
      password. */
  const Rejected: byte := 0x00

  /** Both ECUs keep passwords of exactly five keypad digits. */
  const PasswordLength := 5

  type Password = p: seq<byte> | |p| == PasswordLength witness [0, 0, 0, 0, 0]

  const NoPassword: Password := [0, 0, 0, 0, 0]

  /** The frame the HMI sends to define a password: the command and both
      entries. */
  function DefineFrame(first: Password, second: Password): (f: seq<byte>)
    ensures |f| == 1 + 2 * PasswordLength
    ensures f[0] == DefineCommand && f[1..6] == first && f[6..11] == second
  {
    [DefineCommand] + first + second
  }

  /** The frame the HMI sends to check a password. */
  function CheckFrame(entry: Password): (f: seq<byte>)
    ensures |f| == 1 + PasswordLength
    ensures f[0] == CheckCommand && f[1..] == entry
  {
    [CheckCommand] + entry
  }
}
