/**
  The body of the firmware's endless polling loop: when either receive
  indication flag of the UART channel is set, read the received byte, clear
  both flags and transmit the byte back unchanged; otherwise do nothing.
*/
module Echo {
  import opened Bytes

  /**
    The receive side of the UART channel as the loop sees it: the standard
    and the alternative receive indication flags, and the received-data register.
  */
  datatype RxStatus = RxStatus(receiveIndication: bool, altReceiveIndication: bool, data: byte)

  /** A byte is waiting: at least one receive indication flag is set. */
  predicate Pending(rx: RxStatus) {
    rx.receiveIndication || rx.altReceiveIndication
  }

  /** One iteration of the polling loop: the new receive status and the bytes transmitted. */
  function Poll(rx: RxStatus): (r: (RxStatus, seq<byte>))
    ensures !Pending(r.0) && r.0.data == rx.data
    ensures |r.1| <= 1 && (r.1 != [] <==> Pending(rx))
  {
    if Pending(rx) then
      var received := rx.data;
      (rx.(receiveIndication := false, altReceiveIndication := false), [received])
    else
      (rx, [])
  }

  /**
    With a flag set, exactly one byte is transmitted, it equals the received
    byte and both flags are cleared; with no flag set nothing is transmitted
    and nothing changes.
  */
  lemma PollEchoesOnce(rx: RxStatus)
    ensures var r := Poll(rx);
      (Pending(rx) ==> r.1 == [rx.data] && !Pending(r.0) && r.0.data == rx.data) &&
      (!Pending(rx) ==> r == (rx, []))
  {
  }

  /** Clearing the flags means a second poll with no new byte sends nothing. */
  lemma NoDoubleEcho(rx: RxStatus)
    ensures Poll(Poll(rx).0).1 == []
    ensures |Poll(rx).1| + |Poll(Poll(rx).0).1| <= 1
  {
  }

  /** What happens on the line before one loop iteration: nothing, or one byte arrives. */
  datatype Input = Silence | Arrives(value: byte)

  /** The channel latching an arriving byte and raising its receive indication. */
  function Receive(rx: RxStatus, input: Input): (r: RxStatus)
    ensures input.Arrives? ==> Pending(r) && r.data == input.value
    ensures input.Silence? ==> r == rx
  {
    match input
    case Silence => rx
    case Arrives(b) => rx.(receiveIndication := true, data := b)
  }

  /** Loop iterations, each preceded by what arrives on the line. */
  function EchoSession(rx: RxStatus, inputs: seq<Input>): (r: (RxStatus, seq<byte>))
    ensures |r.1| <= |inputs|
    decreases |inputs|
  {
    if inputs == [] then
      (rx, [])
    else
      var step := Poll(Receive(rx, inputs[0]));
      var rest := EchoSession(step.0, inputs[1..]);
      (rest.0, step.1 + rest.1)
  }

  /** The bytes that arrived, in order. */
  function Arrived(inputs: seq<Input>): seq<byte>
    decreases |inputs|
  {
    if inputs == [] then []
    else (if inputs[0].Arrives? then [inputs[0].value] else []) + Arrived(inputs[1..])
  }

  /**
    When the loop polls between arrivals, the transmitted stream is exactly
    the received stream: no byte is lost, duplicated, altered or reordered,
    and no flag is left set.
  */
  lemma {:induction false} EchoSessionMirrorsInput(rx: RxStatus, inputs: seq<Input>)
    requires !Pending(rx)
    ensures var r := EchoSession(rx, inputs);
      r.1 == Arrived(inputs) && !Pending(r.0)
    decreases |inputs|
  {
    if inputs != [] {
      var step := Poll(Receive(rx, inputs[0]));
      EchoSessionMirrorsInput(step.0, inputs[1..]);
    }
  }
}
