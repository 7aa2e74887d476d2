/** The console vehicle simulator: a top-level menu turns the engine on or
    off or quits; with the engine on, a second menu sets the traffic light
    (and so the speed) and the cabinet and engine temperatures, each read
    until the user gives an acceptable answer. The program's input is a
    script: the characters its `%c` reads return and the numbers its `%hu`
    reads return, each consumed in order. A menu or a read that is still
    waiting when its script runs out gives `None`. The build defines
    WITH_ENGINE_TEMP_CONTROLLER, so the engine temperature option exists. */
module VehicleSpec {
  import opened Common

  /** A C `char`, signed on the console's target. */
  type cchar = x: int | -128 <= x < 128

  /** `false` and `true` of the program's own `bool`, and the characters
      '0' and '1' the temperature readers store in the same flags. */
  const False: cchar := 0
  const True: cchar := 1
  const CharZero: cchar := 48
  const CharOne: cchar := 49

  /** The globals, and what is left of the input script. */
  datatype Vehicle = Vehicle(
    keys: seq<char>, numbers: seq<word>, userInput: char,
    engineState: cchar, cabinetTemperatureControl: cchar, engineTemperatureControl: cchar,
    vehicleSpeed: short, cabinetTemperature: short, engineTemperature: short)

  /** The factor the orange light applies to a temperature: (5 / 4) + 1 in
      integer arithmetic. */
  const OrangeFactor: int := 5 / 4 + 1

  /** The answers the traffic-light menu accepts. */
  const LightKeys: set<char> := {'g', 'G', 'o', 'O', 'r', 'R'}

  /** The position of the first key of `keys` in `accepted`. */
  function FirstIn(keys: seq<char>, accepted: set<char>): (i: nat)
    requires exists k :: 0 <= k < |keys| && keys[k] in accepted
    ensures i < |keys| && keys[i] in accepted
    ensures forall k :: 0 <= k < i ==> keys[k] !in accepted
  {
    if keys[0] in accepted then 0
    else
      assert exists k :: 1 <= k < |keys| && keys[k] in accepted;
      var k :| 1 <= k < |keys| && keys[k] in accepted;
      assert keys[1..][k - 1] in accepted;
      1 + FirstIn(keys[1..], accepted)
  }

  /** The orange light: speed 30, and each temperature whose control flag
      is `false` is multiplied by OrangeFactor (as a short) and its flag
      set. A flag holding '0' or '1' is not `false`, so that temperature
      is left alone. */
  function Orange(v: Vehicle): (r: Vehicle)
    ensures OrangeFactor == 2 && r.vehicleSpeed == 30
    ensures v.cabinetTemperatureControl == False ==>
      r.cabinetTemperatureControl == True && r.cabinetTemperature == ToShort(v.cabinetTemperature * 2)
    ensures v.cabinetTemperatureControl != False ==>
      r.cabinetTemperatureControl == v.cabinetTemperatureControl && r.cabinetTemperature == v.cabinetTemperature
    ensures v.engineTemperatureControl == False ==>
      r.engineTemperatureControl == True && r.engineTemperature == ToShort(v.engineTemperature * 2)
    ensures v.engineTemperatureControl != False ==>
      r.engineTemperatureControl == v.engineTemperatureControl && r.engineTemperature == v.engineTemperature
    ensures r.keys == v.keys && r.numbers == v.numbers && r.engineState == v.engineState
  {
    var a := v.(vehicleSpeed := 30);
    var b := if a.cabinetTemperatureControl == False then
      a.(cabinetTemperatureControl := True,
         cabinetTemperature := ToShort(a.cabinetTemperature * OrangeFactor))
      else a;
    if b.engineTemperatureControl == False then
      b.(engineTemperatureControl := True,
         engineTemperature := ToShort(b.engineTemperature * OrangeFactor))
    else b
  }

  /** The light the answer just read names: green sets speed 100, orange
      applies Orange and red sets speed 0. */
  function Light(v: Vehicle): (r: Vehicle)
    requires v.userInput in LightKeys
    ensures r.vehicleSpeed == (if v.userInput in {'g', 'G'} then 100
                               else if v.userInput in {'o', 'O'} then 30 else 0)
    ensures r.keys == v.keys && r.numbers == v.numbers && r.userInput == v.userInput
    ensures r.engineState == v.engineState
    ensures !(v.userInput in {'o', 'O'}) ==> r == v.(vehicleSpeed := r.vehicleSpeed)
  {
    if v.userInput in {'g', 'G'} then v.(vehicleSpeed := 100)
    else if v.userInput in {'o', 'O'} then Orange(v)
    else v.(vehicleSpeed := 0)
  }

  /** TrafficLight: characters are read until one names a light. The menu
      returns exactly when the script holds such a character, and then it
      has read up to the first one and applied that light. */
  function TrafficLight(v: Vehicle): (r: Option<Vehicle>)
    ensures r.Some? <==> exists k :: 0 <= k < |v.keys| && v.keys[k] in LightKeys
    ensures r.Some? ==>
      var i := FirstIn(v.keys, LightKeys);
      r.value == Light(v.(keys := v.keys[i + 1..], userInput := v.keys[i]))
    decreases |v.keys|
  {
    if v.keys == [] then None
    else
      var w := v.(keys := v.keys[1..], userInput := v.keys[0]);
      if w.userInput in LightKeys then Some(Light(w))
      else
        FirstInSkip(v.keys, LightKeys);
        TrafficLight(w)
  }

  /** Past a first key that is not accepted, the search goes on in the rest. */
  lemma FirstInSkip(keys: seq<char>, accepted: set<char>)
    requires keys != [] && keys[0] !in accepted
    ensures (exists k :: 0 <= k < |keys| && keys[k] in accepted) <==>
            (exists k :: 0 <= k < |keys[1..]| && keys[1..][k] in accepted)
    ensures (exists k :: 0 <= k < |keys| && keys[k] in accepted) ==>
            FirstIn(keys, accepted) == 1 + FirstIn(keys[1..], accepted)
  {
    if exists k :: 0 <= k < |keys| && keys[k] in accepted {
      var k :| 0 <= k < |keys| && keys[k] in accepted;
      assert keys[1..][k - 1] in accepted;
    }
    if exists k :: 0 <= k < |keys[1..]| && keys[1..][k] in accepted {
      var k :| 0 <= k < |keys[1..]| && keys[1..][k] in accepted;
      assert keys[k + 1] in accepted;
    }
  }

  /** A %hu read stored into a short: the number reinterpreted as 16-bit
      two's complement. */
  function Stored(n: word): short
  {
    ToShort(n)
  }

  /** The values CabinetTemperature accepts and the range it normalises to. */
  predicate CabinetAccepts(n: word) { 0 <= Stored(n) <= 35 }

  /** The values EngineTemperature accepts and the range it normalises to. */
  predicate EngineAccepts(n: word) { 70 <= Stored(n) <= 175 }

  /** The position of the first number `ok` accepts. */
  function FirstAccepted(numbers: seq<word>, ok: word -> bool): (i: nat)
    requires exists k :: 0 <= k < |numbers| && ok(numbers[k])
    ensures i < |numbers| && ok(numbers[i])
    ensures forall k :: 0 <= k < i ==> !ok(numbers[k])
  {
    if ok(numbers[0]) then 0
    else
      var k :| 0 <= k < |numbers| && ok(numbers[k]);
      assert numbers[1..][k - 1] == numbers[k];
      1 + FirstAccepted(numbers[1..], ok)
  }

  /** CabinetTemperature: numbers are read into cabinetTemperature until one
      is in [0, 35]; a value outside [10, 30] is replaced by 20 and flags the
      stabilisation ('1'), any other is kept ('0'). */
  function CabinetTemperature(v: Vehicle): (r: Option<Vehicle>)
    ensures r.Some? <==> exists k :: 0 <= k < |v.numbers| && CabinetAccepts(v.numbers[k])
    ensures r.Some? ==>
      var i := FirstAccepted(v.numbers, CabinetAccepts); var t := Stored(v.numbers[i]);
      r.value.numbers == v.numbers[i + 1..] &&
      10 <= r.value.cabinetTemperature <= 30 &&
      (10 <= t <= 30 ==> r.value.cabinetTemperature == t && r.value.cabinetTemperatureControl == CharZero) &&
      (!(10 <= t <= 30) ==> r.value.cabinetTemperature == 20 && r.value.cabinetTemperatureControl == CharOne) &&
      r.value == v.(numbers := r.value.numbers, cabinetTemperature := r.value.cabinetTemperature,
                    cabinetTemperatureControl := r.value.cabinetTemperatureControl)
    decreases |v.numbers|
  {
    if v.numbers == [] then None
    else
      var t := Stored(v.numbers[0]);
      var w := v.(numbers := v.numbers[1..], cabinetTemperature := t);
      if t < 0 || t > 35 then
        var r := CabinetTemperature(w);
        assert forall k :: 1 <= k < |v.numbers| ==> v.numbers[k] == w.numbers[k - 1];
        if r.Some? then
          assert FirstAccepted(v.numbers, CabinetAccepts) == 1 + FirstAccepted(w.numbers, CabinetAccepts);
          r
        else r
      else if t < 10 || t > 30 then
        Some(w.(cabinetTemperatureControl := CharOne, cabinetTemperature := 20))
      else
        Some(w.(cabinetTemperatureControl := CharZero))
  }

  /** EngineTemperature: numbers are read into engineTemperature until one
      is in [70, 175]; a value outside [100, 150] is replaced by 125 and
      flags the stabilisation ('1'), any other is kept ('0'). */
  function EngineTemperature(v: Vehicle): (r: Option<Vehicle>)
    ensures r.Some? <==> exists k :: 0 <= k < |v.numbers| && EngineAccepts(v.numbers[k])
    ensures r.Some? ==>
      var i := FirstAccepted(v.numbers, EngineAccepts); var t := Stored(v.numbers[i]);
      r.value.numbers == v.numbers[i + 1..] &&
      100 <= r.value.engineTemperature <= 150 &&
      (100 <= t <= 150 ==> r.value.engineTemperature == t && r.value.engineTemperatureControl == CharZero) &&
      (!(100 <= t <= 150) ==> r.value.engineTemperature == 125 && r.value.engineTemperatureControl == CharOne) &&
      r.value == v.(numbers := r.value.numbers, engineTemperature := r.value.engineTemperature,
                    engineTemperatureControl := r.value.engineTemperatureControl)
    decreases |v.numbers|
  {
    if v.numbers == [] then None
    else
      var t := Stored(v.numbers[0]);
      var w := v.(numbers := v.numbers[1..], engineTemperature := t);
      if t < 70 || t > 175 then
        var r := EngineTemperature(w);
        assert forall k :: 1 <= k < |v.numbers| ==> v.numbers[k] == w.numbers[k - 1];
        if r.Some? then
          assert FirstAccepted(v.numbers, EngineAccepts) == 1 + FirstAccepted(w.numbers, EngineAccepts);
          r
        else r
      else if t < 100 || t > 150 then
        Some(w.(engineTemperatureControl := CharOne, engineTemperature := 125))
      else
        Some(w.(engineTemperatureControl := CharZero))
  }

  /** InitialOperation: the engine-on menu. 'a' turns the engine off
      (temperature 30) and is its only way out; 'b', 'c' and 'd' run the
      traffic light and the two temperature readers and come back to the
      menu; anything else is ignored. Each pass reads at least one
      character. */
  function InitialOperation(v: Vehicle): (r: Option<Vehicle>)
    ensures r.Some? ==>
      r.value.engineState == False && r.value.engineTemperature == 30 &&
      r.value.userInput in {'a', 'A'} && |r.value.keys| < |v.keys|
    decreases |v.keys|
  {
    if v.keys == [] then None
    else
      var c := v.keys[0];
      var w := v.(keys := v.keys[1..], userInput := c);
      if c in {'a', 'A'} then Some(w.(engineTemperature := 30, engineState := False))
      else
        var next := if c in {'b', 'B'} then TrafficLight(w)
                    else if c in {'c', 'C'} then CabinetTemperature(w)
                    else if c in {'d', 'D'} then EngineTemperature(w)
                    else Some(w);
        if next.None? then None else InitialOperation(next.value)
  }

  /** main: the top-level menu. 'a' turns the engine on (temperature 125)
      and runs the engine-on menu, 'b' turns it off (temperature 30), 'c'
      quits, anything else is ignored. */
  function MainMenu(v: Vehicle): (r: Option<Vehicle>)
    ensures r.Some? ==> r.value.userInput in {'c', 'C'} && |r.value.keys| < |v.keys|
    ensures r.Some? ==>
      (r.value.engineState == v.engineState && r.value.engineTemperature == v.engineTemperature) ||
      (r.value.engineState == False && r.value.engineTemperature == 30)
    decreases |v.keys|
  {
    if v.keys == [] then None
    else
      var c := v.keys[0];
      var w := v.(keys := v.keys[1..], userInput := c);
      if c in {'c', 'C'} then Some(w)
      else
        var next := if c in {'a', 'A'} then InitialOperation(w.(engineTemperature := 125, engineState := True))
                    else if c in {'b', 'B'} then Some(w.(engineTemperature := 30, engineState := False))
                    else Some(w);
        if next.None? then None else MainMenu(next.value)
  }

  /** Turning the engine on and straight off again leaves it off at 30,
      whatever the state before. */
  lemma OnThenOff(v: Vehicle)
    requires |v.keys| >= 3 && v.keys[..3] == ['a', 'a', 'c']
    ensures MainMenu(v).Some? && MainMenu(v).value.engineState == False
    ensures MainMenu(v).value.engineTemperature == 30 && MainMenu(v).value.keys == v.keys[3..]
  {
    var w := v.(keys := v.keys[1..], userInput := 'a');
    var on := w.(engineTemperature := 125, engineState := True);
    assert on.keys[0] == 'a';
    var off := on.(keys := on.keys[1..], userInput := 'a', engineTemperature := 30, engineState := False);
    assert InitialOperation(on) == Some(off);
    assert off.keys[0] == 'c';
    assert MainMenu(off) == Some(off.(keys := off.keys[1..], userInput := 'c'));
  }
}
