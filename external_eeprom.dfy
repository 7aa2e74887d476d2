/** The external EEPROM driver of the CONTROL ECU (external_eeprom.c): one byte
    written or read over I2C, each step followed by a check of the TWI status
    code and an early return on the first unexpected status.

    The I2C peripheral itself is a bus object that records the operations the
    driver issues, answers each status query from a script and supplies the
    byte the EEPROM returns. The 11-bit memory address is split into the
    three page bits carried in the device byte (bits 1-3, after the fixed
    high nibble 0xA and before the R/W bit 0, as in the 7-bit addressing of
    section 3.1.10 of the NXP I2C-bus specification UM10204) and the word
    byte. */
module ExternalEeprom {

  /** ERROR and SUCCESS of external_eeprom.h. */
  const Error: bv8 := 0
  const Success: bv8 := 1

  /** TWI status codes of i2c.h. */
  const I2cStart: bv8 := 0x08
  const I2cRepStart: bv8 := 0x10
  const I2cMtSlaWAck: bv8 := 0x18
  const I2cMtSlaRAck: bv8 := 0x40
  const I2cMtDataAck: bv8 := 0x28
  const I2cMrDataNack: bv8 := 0x58

  /** An operation the driver issues on the bus. */
  datatype BusOp = Start | Write(b: bv8) | ReadNack | Stop

  /** The device byte of an address, with the R/W bit clear (write). */
  function DeviceByte(addr: bv16): (d: bv8)
    ensures d & 0xF0 == 0xA0
    ensures d & 1 == 0
    ensures (d >> 1) & 7 == ((addr >> 8) & 7) as bv8
  {
    (0xA0 | ((addr & 0x0700) >> 7)) as bv8
  }

  /** The word byte of an address: its low eight bits. */
  function WordByte(addr: bv16): (w: bv8)
    ensures w as bv16 == addr & 0xFF
  {
    (addr & 0xFF) as bv8
  }

  /** The address an EEPROM receiving this device byte and word byte selects. */
  function SelectedAddress(device: bv8, word: bv8): bv16
  {
    (((device & 0x0E) as bv16) << 7) | word as bv16
  }

  /** Every address of the 2 KiB device is selected by exactly the pair the
      driver sends for it. */
  lemma AddressRoundTrip(addr: bv16)
    requires addr < 0x800
    ensures SelectedAddress(DeviceByte(addr), WordByte(addr)) == addr
  {
  }

  /** Two addresses below 0x800 that send the same pair are the same. */
  lemma AddressPairInjective(a: bv16, b: bv16)
    requires a < 0x800 && b < 0x800
    requires DeviceByte(a) == DeviceByte(b) && WordByte(a) == WordByte(b)
    ensures a == b
  {
    AddressRoundTrip(a);
    AddressRoundTrip(b);
  }

  /** The statuses EEPROM_writeByte expects, in order. */
  const WriteExpected: seq<bv8> := [I2cStart, I2cMtSlaWAck, I2cMtDataAck, I2cMtDataAck]

  /** The statuses EEPROM_readByte expects, in order. */
  const ReadExpected: seq<bv8> :=
    [I2cStart, I2cMtSlaWAck, I2cMtDataAck, I2cRepStart, I2cMtSlaRAck, I2cMrDataNack]

  /** What a transaction did: the operations issued, how many statuses it
      read, its return value, and the value left in the caller's byte. */
  datatype Outcome = Outcome(ops: seq<BusOp>, used: nat, result: bv8, data: bv8)

  /** The first `used` statuses of the script match the expected ones up to
      the last, which is the first mismatch. */
  ghost predicate FailsAt(status: seq<bv8>, expected: seq<bv8>, used: nat)
  {
    1 <= used <= |expected| && used <= |status| &&
    status[..used - 1] == expected[..used - 1] && status[used - 1] != expected[used - 1]
  }

  /** Every operation EEPROM_readByte issues when all its checks pass. */
  function ReadOps(addr: bv16): seq<BusOp>
  {
    [Start, Write(DeviceByte(addr)), Write(WordByte(addr)),
     Start, Write(DeviceByte(addr) | 1), ReadNack, Stop]
  }

  datatype Phase = Phase(ops: seq<BusOp>, used: nat, ok: bool)

  /** The first three steps both transfers share: a start, the device byte
      with the write bit, and the word byte, each followed by its status
      check. `ok` says all three checks passed. */
  function AddressPhase(addr: bv16, status: seq<bv8>): (p: Phase)
    requires |status| >= 3
    ensures p.ok <==> status[..3] == WriteExpected[..3]
    ensures p.ok ==> p.used == 3
    ensures !p.ok ==> FailsAt(status, WriteExpected, p.used)
    ensures p.ops == [Start, Write(DeviceByte(addr)), Write(WordByte(addr))][..p.used]
  {
    if status[0] != I2cStart then Phase([Start], 1, false)
    else if status[1] != I2cMtSlaWAck then Phase([Start, Write(DeviceByte(addr))], 2, false)
    else if status[2] != I2cMtDataAck then
      Phase([Start, Write(DeviceByte(addr)), Write(WordByte(addr))], 3, false)
    else Phase([Start, Write(DeviceByte(addr)), Write(WordByte(addr))], 3, true)
  }

  /** EEPROM_writeByte against a status script. It returns SUCCESS exactly
      when all four statuses are as expected, and only then issues a stop;
      on the first unexpected status it returns ERROR with no further
      operation. */
  function WriteTransaction(addr: bv16, data: bv8, status: seq<bv8>): (o: Outcome)
    requires |status| >= |WriteExpected|
    ensures o.result == Success <==> status[..4] == WriteExpected
    ensures o.result == Success ==>
      o.used == 4 &&
      o.ops == [Start, Write(DeviceByte(addr)), Write(WordByte(addr)), Write(data), Stop]
    ensures o.result != Success ==>
      o.result == Error && FailsAt(status, WriteExpected, o.used) &&
      o.ops == [Start, Write(DeviceByte(addr)), Write(WordByte(addr)), Write(data)][..o.used]
    ensures Stop in o.ops <==> o.result == Success
  {
    var p := AddressPhase(addr, status);
    if !p.ok then Outcome(p.ops, p.used, Error, data)
    else if status[3] != I2cMtDataAck then Outcome(p.ops + [Write(data)], 4, Error, data)
    else Outcome(p.ops + [Write(data), Stop], 4, Success, data)
  }

  /** EEPROM_readByte against a status script, the byte the EEPROM returns,
      and the caller's byte `data` before the call. The caller's byte takes
      the returned value once the fifth check has passed, even if the last
      check then fails; SUCCESS needs all six statuses as expected. */
  function ReadTransaction(addr: bv16, data: bv8, status: seq<bv8>, incoming: bv8): (o: Outcome)
    requires |status| >= |ReadExpected|
    ensures o.result == Success <==> status[..6] == ReadExpected
    ensures o.result != Success ==> o.result == Error && FailsAt(status, ReadExpected, o.used)
    ensures o.used == 6 ==> o.data == incoming
    ensures o.used <= 5 ==> o.data == data
  {
    var p := AddressPhase(addr, status);
    var device := DeviceByte(addr);
    if !p.ok then Outcome(p.ops, p.used, Error, data)
    else if status[3] != I2cRepStart then Outcome(p.ops + [Start], 4, Error, data)
    else if status[4] != I2cMtSlaRAck then
      Outcome(p.ops + [Start, Write(device | 1)], 5, Error, data)
    else if status[5] != I2cMrDataNack then
      Outcome(p.ops + [Start, Write(device | 1), ReadNack], 6, Error, incoming)
    else Outcome(p.ops + [Start, Write(device | 1), ReadNack, Stop], 6, Success, incoming)
  }

  /** The operations of a read: all seven when it succeeds, otherwise the
      ones up to the failed check, never a stop. */
  lemma ReadTransactionOps(addr: bv16, data: bv8, status: seq<bv8>, incoming: bv8)
    requires |status| >= |ReadExpected|
    ensures var o := ReadTransaction(addr, data, status, incoming);
      (o.result == Success ==> o.used == 6 && o.ops == ReadOps(addr)) &&
      (o.result == Error ==> o.ops == ReadOps(addr)[..o.used])
  {
  }

  /** The I2C peripheral as the driver sees it: the operations issued so far,
      the script of status codes it reports with how many have been read, and
      the bytes the slave sends with how many have been taken. */
  class Bus {
    var ops: seq<BusOp>
    const status: seq<bv8>
    var statusRead: nat
    const incoming: seq<bv8>
    var incomingRead: nat

    constructor (status: seq<bv8>, incoming: seq<bv8>)
      ensures this.ops == [] && this.status == status && this.incoming == incoming
      ensures statusRead == 0 && incomingRead == 0
    {
      ops := [];
      this.status := status;
      this.incoming := incoming;
      statusRead := 0;
      incomingRead := 0;
    }

    /** I2C_start */
    method Start()
      modifies this
      ensures ops == old(ops) + [BusOp.Start]
      ensures statusRead == old(statusRead) && incomingRead == old(incomingRead)
    {
      ops := ops + [BusOp.Start];
    }

    /** I2C_stop */
    method Stop()
      modifies this
      ensures ops == old(ops) + [BusOp.Stop]
      ensures statusRead == old(statusRead) && incomingRead == old(incomingRead)
    {
      ops := ops + [BusOp.Stop];
    }

    /** I2C_writeByte */
    method WriteByte(b: bv8)
      modifies this
      ensures ops == old(ops) + [Write(b)]
      ensures statusRead == old(statusRead) && incomingRead == old(incomingRead)
    {
      ops := ops + [Write(b)];
    }

    /** I2C_readByteWithNACK */
    method ReadByteWithNack() returns (b: bv8)
      requires incomingRead < |incoming|
      modifies this
      ensures b == incoming[old(incomingRead)] && incomingRead == old(incomingRead) + 1
      ensures ops == old(ops) + [ReadNack] && statusRead == old(statusRead)
    {
      b := incoming[incomingRead];
      incomingRead := incomingRead + 1;
      ops := ops + [ReadNack];
    }

    /** I2C_getStatus */
    method GetStatus() returns (s: bv8)
      requires statusRead < |status|
      modifies this
      ensures s == status[old(statusRead)] && statusRead == old(statusRead) + 1
      ensures ops == old(ops) && incomingRead == old(incomingRead)
    {
      s := status[statusRead];
      statusRead := statusRead + 1;
    }
  }

  /** The address phase on the bus: start, device byte, word byte, with the
      status check after each; the phase ends at the first failed check. */
  method SendAddress(bus: Bus, addr: bv16) returns (ok: bool)
    requires bus.statusRead + 3 <= |bus.status|
    modifies bus
    ensures var p := AddressPhase(addr, bus.status[old(bus.statusRead)..]);
      ok == p.ok && bus.ops == old(bus.ops) + p.ops &&
      bus.statusRead == old(bus.statusRead) + p.used && bus.incomingRead == old(bus.incomingRead)
  {
    bus.Start();
    var s := bus.GetStatus();
    if s != I2cStart {
      return false;
    }
    bus.WriteByte((0xA0 | ((addr & 0x0700) >> 7)) as bv8);
    s := bus.GetStatus();
    if s != I2cMtSlaWAck {
      return false;
    }
    bus.WriteByte((addr & 0xFF) as bv8);
    s := bus.GetStatus();
    if s != I2cMtDataAck {
      return false;
    }
    return true;
  }

  /** EEPROM_writeByte on the bus. */
  method WriteByte(bus: Bus, addr: bv16, data: bv8) returns (result: bv8)
    requires bus.statusRead + |WriteExpected| <= |bus.status|
    modifies bus
    ensures var o := WriteTransaction(addr, data, bus.status[old(bus.statusRead)..]);
      result == o.result && bus.ops == old(bus.ops) + o.ops &&
      bus.statusRead == old(bus.statusRead) + o.used && bus.incomingRead == old(bus.incomingRead)
  {
    var ok := SendAddress(bus, addr);
    if !ok {
      return Error;
    }
    bus.WriteByte(data);
    var s := bus.GetStatus();
    if s != I2cMtDataAck {
      return Error;
    }
    bus.Stop();
    return Success;
  }

  /** EEPROM_readByte on the bus; `data` is the caller's byte before the call
      and `data'` the value the call leaves in it. */
  method ReadByte(bus: Bus, addr: bv16, data: bv8) returns (result: bv8, data': bv8)
    requires bus.statusRead + |ReadExpected| <= |bus.status|
    requires bus.incomingRead < |bus.incoming|
    modifies bus
    ensures var o := ReadTransaction(addr, data, bus.status[old(bus.statusRead)..],
                                     bus.incoming[old(bus.incomingRead)]);
      result == o.result && data' == o.data && bus.ops == old(bus.ops) + o.ops &&
      bus.statusRead == old(bus.statusRead) + o.used &&
      bus.incomingRead == old(bus.incomingRead) + (if o.used == 6 then 1 else 0)
  {
    data' := data;
    var ok := SendAddress(bus, addr);
    if !ok {
      return Error, data';
    }
    bus.Start();
    var s := bus.GetStatus();
    if s != I2cRepStart {
      return Error, data';
    }
    bus.WriteByte(((0xA0 | ((addr & 0x0700) >> 7)) | 1) as bv8);
    s := bus.GetStatus();
    if s != I2cMtSlaRAck {
      return Error, data';
    }
    data' := bus.ReadByteWithNack();
    s := bus.GetStatus();
    if s != I2cMrDataNack {
      return Error, data';
    }
    bus.Stop();
    return Success, data';
  }
}
