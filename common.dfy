/** Types shared by every part of the model: the 8-bit unsigned value the
    AVR firmware calls `uint8`, and an optional value. */
module Common {

  /** An 8-bit unsigned value (`uint8` in the firmware). */
  type byte = x: int | 0 <= x < 256

  /** A 16-bit unsigned value (`uint16` in the firmware). */
  type word = x: int | 0 <= x < 0x1_0000

  /** Truncation of an integer to `uint8`, as C does on assignment. */
  function ToByte(x: int): (r: byte)
    ensures 0 <= x < 256 ==> r == x
    ensures (r - x) % 256 == 0
  {
    x % 256
  }

  /** A 16-bit signed value (`short` in the console program). */
  type short = x: int | -0x8000 <= x < 0x8000

  /** Truncation of an integer to a 16-bit two's-complement `short`. */
  function ToShort(x: int): (r: short)
    ensures -0x8000 <= x < 0x8000 ==> r == x
    ensures (r - x) % 0x1_0000 == 0
  {
    (x + 0x8000) % 0x1_0000 - 0x8000
  }

  datatype Option<+T> = None | Some(value: T)
}
