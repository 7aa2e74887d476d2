/** The GPIO driver of the fan controller (gpio.c): four 8-bit ports, each with
    a direction register DDRx, an output register PORTx and an input register
    PINx. The register file is an object whose fields the driver updates in
    place; PINx is driven by the hardware and only read here. */
module Gpio {
  import opened BitMacros

  const NumOfPorts: bv8 := 4
  const NumOfPinsPerPort: bv8 := 8

  /** LOGIC_HIGH and LOGIC_LOW (std_types.h is not part of this model; the
      firmware uses 1 and 0). */
  const LogicHigh: bv8 := 1
  const LogicLow: bv8 := 0

  const PortA: bv8 := 0
  const PortB: bv8 := 1
  const PortC: bv8 := 2
  const PortD: bv8 := 3

  /** GPIO_PinDirectionType: PIN_INPUT, PIN_OUTPUT. */
  datatype PinDirection = PinInput | PinOutput

  /** GPIO_PortDirectionType: PORT_INPUT is 0x00 and PORT_OUTPUT is 0xFF; the
      value is written to DDRx as it is. */
  const PortInput: bv8 := 0x00
  const PortOutput: bv8 := 0xFF

  /** A pin number and port number the driver accepts. */
  predicate ValidPin(portNum: bv8, pinNum: bv8)
  {
    pinNum < NumOfPinsPerPort && portNum < NumOfPorts
  }

  /** DDRA..DDRD, PORTA..PORTD and PINA..PIND, indexed by port number. */
  class Registers {
    var ddr: seq<bv8>
    var port: seq<bv8>
    var pin: seq<bv8>

    ghost predicate Valid()
      reads this
    {
      |ddr| == 4 && |port| == 4 && |pin| == 4
    }

    /** The register file after reset: every pin an input, every output
        latch low, and the given levels on the input pins. */
    constructor (levels: seq<bv8>)
      requires |levels| == 4
      ensures Valid()
      ensures ddr == [0, 0, 0, 0] && port == [0, 0, 0, 0] && pin == levels
    {
      ddr := [0, 0, 0, 0];
      port := [0, 0, 0, 0];
      pin := levels;
    }

    /** GPIO_setupPinDirection: PIN_OUTPUT sets bit pinNum of DDRx, PIN_INPUT
        clears it; an invalid pin or port changes nothing. */
    method SetupPinDirection(portNum: bv8, pinNum: bv8, direction: PinDirection)
      requires Valid()
      modifies this
      ensures Valid() && port == old(port) && pin == old(pin)
      ensures !ValidPin(portNum, pinNum) ==> ddr == old(ddr)
      ensures ValidPin(portNum, pinNum) ==>
        (forall p :: 0 <= p < 4 && p != portNum as int ==> ddr[p] == old(ddr)[p])
      ensures ValidPin(portNum, pinNum) ==>
        Bit(ddr[portNum as int], pinNum) == (direction == PinOutput)
      ensures ValidPin(portNum, pinNum) ==>
        OtherBitsSame(ddr[portNum as int], old(ddr)[portNum as int], pinNum)
    {
      if pinNum >= NumOfPinsPerPort || portNum >= NumOfPorts {
        // the driver rejects the request and leaves the registers alone
      } else {
        var p := portNum as int;
        if direction == PinOutput {
          ddr := ddr[p := SetBit(ddr[p], pinNum)];
        } else {
          ddr := ddr[p := ClearBit(ddr[p], pinNum)];
        }
      }
    }

    /** GPIO_writePin: LOGIC_HIGH sets bit pinNum of PORTx and any other value
        clears it; an invalid pin or port changes nothing. */
    method WritePin(portNum: bv8, pinNum: bv8, value: bv8)
      requires Valid()
      modifies this
      ensures Valid() && ddr == old(ddr) && pin == old(pin)
      ensures !ValidPin(portNum, pinNum) ==> port == old(port)
      ensures ValidPin(portNum, pinNum) ==>
        (forall p :: 0 <= p < 4 && p != portNum as int ==> port[p] == old(port)[p])
      ensures ValidPin(portNum, pinNum) ==>
        Bit(port[portNum as int], pinNum) == (value == LogicHigh)
      ensures ValidPin(portNum, pinNum) ==>
        OtherBitsSame(port[portNum as int], old(port)[portNum as int], pinNum)
    {
      if pinNum >= NumOfPinsPerPort || portNum >= NumOfPorts {
      } else {
        var p := portNum as int;
        if value == LogicHigh {
          port := port[p := SetBit(port[p], pinNum)];
        } else {
          port := port[p := ClearBit(port[p], pinNum)];
        }
      }
    }

    /** GPIO_readPin. The C function returns nothing for an invalid pin or
        port, so the model only reads valid ones. */
    function ReadPin(portNum: bv8, pinNum: bv8): (v: bv8)
      requires Valid() && ValidPin(portNum, pinNum)
      reads this
      ensures v == LogicHigh || v == LogicLow
      ensures v == LogicHigh <==> Bit(pin[portNum as int], pinNum)
    {
      if BitIsSet(pin[portNum as int], pinNum) != 0 then LogicHigh else LogicLow
    }

    /** GPIO_setupPortDirection: DDRx takes the direction value; an invalid
        port changes nothing. */
    method SetupPortDirection(portNum: bv8, direction: bv8)
      requires Valid()
      modifies this
      ensures Valid() && port == old(port) && pin == old(pin)
      ensures portNum >= NumOfPorts ==> ddr == old(ddr)
      ensures portNum < NumOfPorts ==> ddr == old(ddr)[portNum as int := direction]
    {
      if portNum >= NumOfPorts {
      } else {
        ddr := ddr[portNum as int := direction];
      }
    }

    /** GPIO_writePort: PORTx takes the value; an invalid port changes
        nothing. */
    method WritePort(portNum: bv8, value: bv8)
      requires Valid()
      modifies this
      ensures Valid() && ddr == old(ddr) && pin == old(pin)
      ensures portNum >= NumOfPorts ==> port == old(port)
      ensures portNum < NumOfPorts ==> port == old(port)[portNum as int := value]
    {
      if portNum >= NumOfPorts {
      } else {
        port := port[portNum as int := value];
      }
    }

    /** GPIO_readPort. Like readPin, it has no return value for an invalid
        port, so the model only reads valid ones. */
    function ReadPort(portNum: bv8): bv8
      requires Valid() && portNum < NumOfPorts
      reads this
    {
      pin[portNum as int]
    }

    /** Reading one pin agrees with bit pinNum of the whole port read. */
    lemma ReadPinIsBitOfReadPort(portNum: bv8, pinNum: bv8)
      requires Valid() && ValidPin(portNum, pinNum)
      ensures ReadPin(portNum, pinNum) == GetBit(ReadPort(portNum), pinNum)
    {
    }
  }
}
