/** The keypad driver of the HMI (HAL/keypad.c), configured as a non-standard
    4x4 keypad: a scan finds the pressed switch and the switch number is
    mapped to the key printed on it. */
module Keypad {
  import opened Common

  const NumRows := 4
  const NumCols := 4

  /** Characters the keypad returns for its non-digit keys. */
  const Percent: byte := 37  // '%'
  const Star: byte := 42     // '*'
  const Plus: byte := 43     // '+'
  const Minus: byte := 45    // '-'
  const Equals: byte := 61   // '='
  const Hash: byte := 35     // '#'

  /** Keypad_4x4_adjustKeyNumber. Switches 1..16 carry the digits 0..9 and
      the keys '%', '*', '-', '=', '+' and switch 13 keeps its number; any
      other number is returned unchanged. */
  function Adjust4x4(button: byte): (key: byte)
    ensures !(1 <= button <= 16) ==> key == button
    ensures 1 <= button <= 16 ==>
      (key <= 9 <==> button !in {4, 8, 12, 13, 15, 16})
  {
    match button
    case 1 => 7
    case 2 => 8
    case 3 => 9
    case 4 => Percent
    case 5 => 4
    case 6 => 5
    case 7 => 6
    case 8 => Star
    case 9 => 1
    case 10 => 2
    case 11 => 3
    case 12 => Minus
    case 13 => 13
    case 14 => 0
    case 15 => Equals
    case 16 => Plus
    case _ => button
  }

  /** Keypad_4x3_adjustKeyNumber, the mapping for the 3-column build. */
  function Adjust4x3(button: byte): (key: byte)
    ensures button !in {10, 11, 12} ==> key == button
    ensures key == 0 <==> button in {0, 11}
    ensures button in {10, 12} ==> key > 9
  {
    match button
    case 10 => Star
    case 11 => 0
    case 12 => Hash
    case _ => button
  }

  /** The switch that carries each digit on the 4x4 keypad. */
  function DigitButton(d: byte): (button: byte)
    requires d <= 9
    ensures 1 <= button <= 16
  {
    [14, 9, 10, 11, 5, 6, 7, 1, 2, 3][d]
  }

  /** Each digit comes from exactly one switch. */
  lemma DigitFromOneButton(d: byte, button: byte)
    requires d <= 9 && 1 <= button <= 16
    ensures Adjust4x4(DigitButton(d)) == d
    ensures Adjust4x4(button) == d ==> button == DigitButton(d)
  {
  }

  /** No two switches carry the same key. */
  lemma Adjust4x4Injective(a: byte, b: byte)
    requires 1 <= a <= 16 && 1 <= b <= 16
    requires Adjust4x4(a) == Adjust4x4(b)
    ensures a == b
  {
  }

  /** The switch number of the crossing of a row and a column, as the scan
      computes it for the non-standard 4x4 keypad (the column counts in
      fours). */
  function ButtonNumber(row: nat, column: nat): (button: byte)
    requires row < NumRows && column < NumCols
    ensures 1 <= button <= 16
  {
    column * NumCols + row + 1
  }

  /** Different crossings give different switch numbers. */
  lemma ButtonNumberInjective(r1: nat, c1: nat, r2: nat, c2: nat)
    requires r1 < NumRows && c1 < NumCols && r2 < NumRows && c2 < NumCols
    requires ButtonNumber(r1, c1) == ButtonNumber(r2, c2)
    ensures r1 == r2 && c1 == c2
  {
  }

  /** A reading of the switch matrix: `pressed[row][column]` holds when the
      column pin reads KEYPAD_BUTTON_PRESSED while that row is driven. */
  ghost predicate WellFormed(pressed: seq<seq<bool>>)
  {
    |pressed| == NumRows && forall r :: 0 <= r < NumRows ==> |pressed[r]| == NumCols
  }

  /** No switch before (row, column) in row-major order is pressed. */
  ghost predicate NonePressedBefore(pressed: seq<seq<bool>>, row: nat, column: nat)
    requires WellFormed(pressed)
  {
    forall r, c :: 0 <= r < NumRows && 0 <= c < NumCols && (r < row || (r == row && c < column))
      ==> !pressed[r][c]
  }

  /** One pass of Keypad_getPressedKey's scan: rows in the outer loop,
      columns in the inner loop, returning the adjusted number of the first
      pressed switch. None stands for a pass that finds nothing, after which
      the firmware scans again. */
  method GetPressedKey(pressed: seq<seq<bool>>) returns (key: Option<byte>)
    requires WellFormed(pressed)
    ensures key.None? ==> NonePressedBefore(pressed, NumRows, 0)
    ensures key.Some? ==>
      exists r, c :: 0 <= r < NumRows && 0 <= c < NumCols && pressed[r][c] &&
        NonePressedBefore(pressed, r, c) && key.value == Adjust4x4(ButtonNumber(r, c))
  {
    var row := 0;
    while row < NumRows
      invariant 0 <= row <= NumRows
      invariant NonePressedBefore(pressed, row, 0)
    {
      var column := 0;
      while column < NumCols
        invariant 0 <= column <= NumCols
        invariant NonePressedBefore(pressed, row, column)
      {
        if pressed[row][column] {
          return Some(Adjust4x4(ButtonNumber(row, column)));
        }
        column := column + 1;
      }
      row := row + 1;
    }
    return None;
  }
}
