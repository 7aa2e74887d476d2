/** The register macros of common_macros.h over an 8-bit register
    (MICROCONTROLLER_BITS is 8). A macro that assigns to its register
    (SET_BIT, CLEAR_BIT, TOGGLE_BIT, ROR, ROL, WRITE_REG, CLEAR_REG,
    OVERWRITE_REG) is a function giving the register's new value; the
    in-place update is done by the callers (the GPIO register file, the
    stopwatch's timer control register). */
module BitMacros {

  /** Bit `i` of `r`, read by shifting right and masking: the reference
      every macro below is specified against. */
  predicate Bit(r: bv8, i: bv8)
    requires i < 8
  {
    (r >> i) & 1 == 1
  }

  /** Two registers with the same eight bits are the same register. */
  lemma SameBits(r: bv8, s: bv8)
    requires forall i :: 0 <= i < 8 ==> Bit(r, i) == Bit(s, i)
    ensures r == s
  {
    assert Bit(r, 0) == Bit(s, 0) && Bit(r, 1) == Bit(s, 1);
    assert Bit(r, 2) == Bit(s, 2) && Bit(r, 3) == Bit(s, 3);
    assert Bit(r, 4) == Bit(s, 4) && Bit(r, 5) == Bit(s, 5);
    assert Bit(r, 6) == Bit(s, 6) && Bit(r, 7) == Bit(s, 7);
  }

  /** `r` and `s` agree on every bit except possibly bit `b`. */
  ghost predicate OtherBitsSame(r: bv8, s: bv8, b: bv8)
  {
    forall i :: 0 <= i < 8 && i != b ==> Bit(r, i) == Bit(s, i)
  }

  /** `r` and `s` agree on every bit outside `changed`. */
  ghost predicate AgreeOutside(r: bv8, s: bv8, changed: set<bv8>)
  {
    forall i :: 0 <= i < 8 && i !in changed ==> Bit(r, i) == Bit(s, i)
  }

  /** `1 << BIT`, the one-bit mask all the bit macros use. */
  function Mask(b: bv8): bv8
    requires b < 8
  {
    1 << b
  }

  /** SET_BIT(REG, BIT) */
  function SetBit(r: bv8, b: bv8): (r': bv8)
    requires b < 8
    ensures Bit(r', b)
    ensures OtherBitsSame(r', r, b)
  {
    r | Mask(b)
  }

  /** CLEAR_BIT(REG, BIT) */
  function ClearBit(r: bv8, b: bv8): (r': bv8)
    requires b < 8
    ensures !Bit(r', b)
    ensures OtherBitsSame(r', r, b)
  {
    r & !Mask(b)
  }

  /** TOGGLE_BIT(REG, BIT) */
  function ToggleBit(r: bv8, b: bv8): (r': bv8)
    requires b < 8
    ensures Bit(r', b) == !Bit(r, b)
    ensures OtherBitsSame(r', r, b)
  {
    r ^ Mask(b)
  }

  /** Toggling the same bit twice gives back the register. */
  lemma ToggleTwice(r: bv8, b: bv8)
    requires b < 8
    ensures ToggleBit(ToggleBit(r, b), b) == r
  {
    var t := ToggleBit(ToggleBit(r, b), b);
    forall i | 0 <= i < 8
      ensures Bit(t, i) == Bit(r, i)
    {
    }
    SameBits(t, r);
  }

  /** ROR(REG, num) */
  function Ror(r: bv8, n: bv8): bv8
    requires n <= 8
  {
    (r >> n) | (r << (8 - n))
  }

  /** ROL(REG, num) */
  function Rol(r: bv8, n: bv8): bv8
    requires n <= 8
  {
    (r << n) | (r >> (8 - n))
  }

  /** ROR moves bit (i + num) mod 8 of the register to bit i. */
  lemma RorBits(r: bv8, n: bv8)
    requires n <= 8
    ensures forall i :: 0 <= i < 8 ==> Bit(Ror(r, n), i) == Bit(r, (i + n) % 8)
  {
  }

  /** ROL moves bit (i - num) mod 8 of the register to bit i. */
  lemma RolBits(r: bv8, n: bv8)
    requires n <= 8
    ensures forall i :: 0 <= i < 8 ==> Bit(Rol(r, n), i) == Bit(r, (i + 8 - n) % 8)
  {
  }

  /** Rotating left by n undoes rotating right by n. */
  lemma RolUndoesRor(r: bv8, n: bv8)
    requires 0 < n < 8
    ensures Rol(Ror(r, n), n) == r
  {
    RorBits(r, n);
    RolBits(Ror(r, n), n);
    forall i | 0 <= i < 8
      ensures Bit(Rol(Ror(r, n), n), i) == Bit(r, i)
    {
      assert (((i + 8 - n) % 8) + n) % 8 == i;
    }
    SameBits(Rol(Ror(r, n), n), r);
  }

  /** BIT_IS_SET(REG, BIT): the masked register, nonzero exactly when the bit is set. */
  function BitIsSet(r: bv8, b: bv8): (v: bv8)
    requires b < 8
    ensures v != 0 <==> Bit(r, b)
    ensures v == 0 || v == Mask(b)
  {
    r & Mask(b)
  }

  /** BIT_IS_CLEAR(REG, BIT) */
  predicate BitIsClear(r: bv8, b: bv8)
    requires b < 8
    ensures BitIsClear(r, b) <==> !Bit(r, b)
  {
    !(r & Mask(b) != 0)
  }

  /** BIT_IS_CLEAR holds exactly when BIT_IS_SET is zero. */
  lemma ClearIffNotSet(r: bv8, b: bv8)
    requires b < 8
    ensures BitIsClear(r, b) <==> BitIsSet(r, b) == 0
  {
  }

  /** GET_BIT(REG, BIT): bit b as the value 0 or 1. */
  function GetBit(r: bv8, b: bv8): (v: bv8)
    requires b < 8
    ensures v == 0 || v == 1
    ensures v == 1 <==> Bit(r, b)
  {
    (r & Mask(b)) >> b
  }

  /** WRITE_REG(REG): every bit set. */
  function WriteReg(r: bv8): (r': bv8)
    ensures forall i :: 0 <= i < 8 ==> Bit(r', i)
  {
    r | 0xFF
  }

  /** CLEAR_REG(REG): every bit cleared. */
  function ClearReg(r: bv8): (r': bv8)
    ensures forall i :: 0 <= i < 8 ==> !Bit(r', i)
  {
    r & 0x00
  }

  /** OVERWRITE_REG(REG, CLEAR, WRITE): keep the bits selected by CLEAR, then
      set the bits of WRITE. */
  function OverwriteReg(r: bv8, c: bv8, w: bv8): (r': bv8)
    ensures forall i :: 0 <= i < 8 ==> Bit(r', i) == ((Bit(r, i) && Bit(c, i)) || Bit(w, i))
  {
    OverwriteBits(r, c, w);
    (r & c) | w
  }

  lemma OverwriteBits(r: bv8, c: bv8, w: bv8)
    ensures forall i :: 0 <= i < 8 ==> Bit((r & c) | w, i) == ((Bit(r, i) && Bit(c, i)) || Bit(w, i))
  {
    forall i | 0 <= i < 8
      ensures Bit((r & c) | w, i) == ((Bit(r, i) && Bit(c, i)) || Bit(w, i))
    {
      OverwriteBit(r, c, w, i);
    }
  }

  lemma OverwriteBit(r: bv8, c: bv8, w: bv8, i: bv8)
    requires i < 8
    ensures Bit((r & c) | w, i) == ((Bit(r, i) && Bit(c, i)) || Bit(w, i))
  {
  }

  /** When WRITE has no bit inside CLEAR, the bits CLEAR selects keep their old
      value and the others take WRITE's value. */
  lemma OverwriteKeepsSelected(r: bv8, c: bv8, w: bv8, i: bv8)
    requires w & c == 0
    requires i < 8
    ensures Bit(c, i) ==> Bit(OverwriteReg(r, c, w), i) == Bit(r, i)
    ensures !Bit(c, i) ==> Bit(OverwriteReg(r, c, w), i) == Bit(w, i)
  {
    if Bit(c, i) {
      assert !Bit(w, i) by {
        assert ((w & c) >> i) & 1 == 0;
      }
    }
  }
}
