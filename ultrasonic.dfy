/** The edge handler of the four-terminal ultrasonic sensor driver: the
    input-capture unit interrupts on each edge of the echo pulse; the handler
    pairs a rising edge with the next falling edge and keeps the pulse's
    length, as a count of timer ticks, in echoHighTime. */
module Ultrasonic {
  import opened Common

  /** The edge the input-capture unit waits for. */
  datatype EdgeType = Falling | Rising

  /** The driver's state: its two statics, the capture timer's count and
      the edge it is set to detect. */
  datatype Echo = Echo(edgeCount: byte, echoHighTime: word, timerValue: word, edge: EdgeType)

  /** Ultrasonic_init: the input-capture unit waits for a rising edge; the
      statics start at 0. */
  const Start: Echo := Echo(0, 0, 0, Rising)

  /** Ultrasonic_edgeProcessing, given the capture value the input-capture
      unit holds. The count of edges goes up first (as a uint8); the first
      edge of a pair restarts the timer and waits for the falling edge, any
      other one takes the capture as the pulse length, restarts the timer,
      waits for the next rising edge and clears the count. */
  function ProcessEdge(e: Echo, capture: word): (r: Echo)
    ensures r.timerValue == 0
    ensures e.edgeCount == 0 ==> r.edgeCount == 1 && r.edge == Falling && r.echoHighTime == e.echoHighTime
    ensures e.edgeCount != 0 ==> r.edgeCount == 0 && r.edge == Rising && r.echoHighTime == capture
  {
    var count := (e.edgeCount + 1) % 256;
    if count == 1 then e.(edgeCount := count, timerValue := 0, edge := Falling)
    else e.(echoHighTime := capture, timerValue := 0, edge := Rising, edgeCount := 0)
  }

  /** The handler run on each capture in turn. */
  function Edges(e: Echo, captures: seq<word>): Echo
    decreases |captures|
  {
    if captures == [] then e
    else Edges(ProcessEdge(e, captures[0]), captures[1..])
  }

  /** Starting with no edge counted, the handler alternates between waiting
      for a falling and a rising edge: after any number of edges the count
      is that number's parity, the edge awaited matches it, and the pulse
      length is the capture at the end of the last complete pair (or the
      old one if there is none). */
  lemma {:induction false} EdgesPair(e: Echo, captures: seq<word>)
    requires e.edgeCount == 0 && e.edge == Rising
    ensures var r := Edges(e, captures);
      r.edgeCount == |captures| % 2 &&
      (r.edge == Falling <==> |captures| % 2 == 1) &&
      r.echoHighTime == (if |captures| < 2 then e.echoHighTime
                         else captures[|captures| - 1 - |captures| % 2])
    decreases |captures|
  {
    if |captures| >= 2 {
      var t := ProcessEdge(ProcessEdge(e, captures[0]), captures[1]);
      assert Edges(e, captures) == Edges(t, captures[2..]);
      EdgesPair(t, captures[2..]);
    } else if |captures| == 1 {
      assert Edges(e, captures) == Edges(ProcessEdge(e, captures[0]), []);
    }
  }

  /** The driver's state as the firmware keeps it. */
  class Sensor {
    var edgeCount: byte
    var echoHighTime: word
    var timerValue: word
    var edge: EdgeType

    function State(): Echo
      reads this
    {
      Echo(edgeCount, echoHighTime, timerValue, edge)
    }

    /** Ultrasonic_init */
    constructor ()
      ensures State() == Start
    {
      edgeCount, echoHighTime, timerValue, edge := 0, 0, 0, Rising;
    }

    /** Ultrasonic_edgeProcessing */
    method EdgeProcessing(capture: word)
      modifies this
      ensures State() == ProcessEdge(old(State()), capture)
    {
      edgeCount := (edgeCount + 1) % 256;
      if edgeCount == 1 {
        timerValue := 0;
        edge := Falling;
      } else {
        echoHighTime := capture;
        timerValue := 0;
        edge := Rising;
        edgeCount := 0;
      }
    }
  }
}
