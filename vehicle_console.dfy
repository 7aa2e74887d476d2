/** The console vehicle simulator as the program runs it: its globals as
    the fields of one object, each menu and reader as a method with the
    program's own loop, proved to reach the state VehicleSpec gives. */
module VehicleConsole {
  import opened Common
  import opened VehicleSpec

  /** The simulator's globals as the program keeps them. */
  class Console {
    var keys: seq<char>
    var numbers: seq<word>
    var userInput: char
    var engineState: cchar
    var cabinetTemperatureControl: cchar
    var engineTemperatureControl: cchar
    var vehicleSpeed: short
    var cabinetTemperature: short
    var engineTemperature: short

    function State(): Vehicle
      reads this
    {
      Vehicle(keys, numbers, userInput, engineState, cabinetTemperatureControl,
              engineTemperatureControl, vehicleSpeed, cabinetTemperature, engineTemperature)
    }

    /** The globals in a given state (their definitions are not part of this
        model, so their initial values are a parameter). */
    constructor (v: Vehicle)
      ensures State() == v
    {
      keys, numbers, userInput := v.keys, v.numbers, v.userInput;
      engineState, cabinetTemperatureControl := v.engineState, v.cabinetTemperatureControl;
      engineTemperatureControl, vehicleSpeed := v.engineTemperatureControl, v.vehicleSpeed;
      cabinetTemperature, engineTemperature := v.cabinetTemperature, v.engineTemperature;
    }

    /** scanf(" %c", &userInput); false when the script has run out. */
    method ReadChar() returns (ok: bool)
      modifies this
      ensures ok == (old(keys) != [])
      ensures ok ==> State() == old(State()).(keys := old(keys[1..]), userInput := old(keys[0]))
      ensures !ok ==> State() == old(State())
    {
      if keys == [] {
        return false;
      }
      userInput := keys[0];
      keys := keys[1..];
      return true;
    }

    /** TrafficLight */
    method TrafficLight() returns (ok: bool)
      modifies this
      ensures var r := VehicleSpec.TrafficLight(old(State()));
        ok == r.Some? && (ok ==> State() == r.value)
    {
      while true
        invariant VehicleSpec.TrafficLight(State()) == VehicleSpec.TrafficLight(old(State()))
        decreases |keys|
      {
        ghost var before := State();
        ok := ReadChar();
        if !ok {
          return;
        }
        if userInput == 'g' || userInput == 'G' {
          vehicleSpeed := 100;
          return;
        } else if userInput == 'o' || userInput == 'O' {
          OrangeLight();
          return;
        } else if userInput == 'r' || userInput == 'R' {
          vehicleSpeed := 0;
          return;
        }
        assert before.keys[0] !in LightKeys && State() == before.(keys := keys, userInput := userInput);
      }
    }

    /** The orange case of TrafficLight's switch. */
    method OrangeLight()
      modifies this
      ensures State() == Orange(old(State()))
    {
      vehicleSpeed := 30;
      if cabinetTemperatureControl == False {
        cabinetTemperatureControl := True;
        cabinetTemperature := ToShort(cabinetTemperature * OrangeFactor);
      }
      if engineTemperatureControl == False {
        engineTemperatureControl := True;
        engineTemperature := ToShort(engineTemperature * OrangeFactor);
      }
    }

    /** CabinetTemperature */
    method CabinetTemperature() returns (ok: bool)
      modifies this
      ensures var r := VehicleSpec.CabinetTemperature(old(State()));
        ok == r.Some? && (ok ==> State() == r.value)
    {
      while true
        invariant VehicleSpec.CabinetTemperature(State()) == VehicleSpec.CabinetTemperature(old(State()))
        decreases |numbers|
      {
        if numbers == [] {
          return false;
        }
        cabinetTemperature := Stored(numbers[0]);
        numbers := numbers[1..];
        if cabinetTemperature < 0 || cabinetTemperature > 35 {
        } else {
          if cabinetTemperature < 10 || cabinetTemperature > 30 {
            cabinetTemperatureControl := CharOne;
            cabinetTemperature := 20;
          } else {
            cabinetTemperatureControl := CharZero;
          }
          return true;
        }
      }
    }

    /** EngineTemperature */
    method EngineTemperature() returns (ok: bool)
      modifies this
      ensures var r := VehicleSpec.EngineTemperature(old(State()));
        ok == r.Some? && (ok ==> State() == r.value)
    {
      while true
        invariant VehicleSpec.EngineTemperature(State()) == VehicleSpec.EngineTemperature(old(State()))
        decreases |numbers|
      {
        if numbers == [] {
          return false;
        }
        engineTemperature := Stored(numbers[0]);
        numbers := numbers[1..];
        if engineTemperature < 70 || engineTemperature > 175 {
        } else {
          if engineTemperature < 100 || engineTemperature > 150 {
            engineTemperatureControl := CharOne;
            engineTemperature := 125;
          } else {
            engineTemperatureControl := CharZero;
          }
          return true;
        }
      }
    }

    /** InitialOperation */
    method InitialOperation() returns (ok: bool)
      modifies this
      ensures var r := VehicleSpec.InitialOperation(old(State()));
        ok == r.Some? && (ok ==> State() == r.value)
    {
      while true
        invariant VehicleSpec.InitialOperation(State()) == VehicleSpec.InitialOperation(old(State()))
        decreases |keys|
      {
        ghost var before := State();
        ok := ReadChar();
        if !ok {
          return;
        }
        if userInput == 'a' || userInput == 'A' {
          engineTemperature := 30;
          engineState := False;
          return;
        } else if userInput == 'b' || userInput == 'B' {
          ok := TrafficLight();
        } else if userInput == 'c' || userInput == 'C' {
          ok := CabinetTemperature();
        } else if userInput == 'd' || userInput == 'D' {
          ok := EngineTemperature();
        }
        if !ok {
          return;
        }
        assert |keys| < |before.keys|;
      }
    }

    /** main */
    method MainMenu() returns (ok: bool)
      modifies this
      ensures var r := VehicleSpec.MainMenu(old(State()));
        ok == r.Some? && (ok ==> State() == r.value)
    {
      while true
        invariant VehicleSpec.MainMenu(State()) == VehicleSpec.MainMenu(old(State()))
        decreases |keys|
      {
        ghost var before := State();
        ok := ReadChar();
        if !ok {
          return;
        }
        if userInput == 'a' || userInput == 'A' {
          engineTemperature := 125;
          engineState := True;
          ok := InitialOperation();
          if !ok {
            return;
          }
        } else if userInput == 'b' || userInput == 'B' {
          engineTemperature := 30;
          engineState := False;
        } else if userInput == 'c' || userInput == 'C' {
          return true;
        }
        assert |keys| < |before.keys|;
      }
    }
  }
}
