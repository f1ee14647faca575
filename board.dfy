/**
  The firmware's mutable state and its two execution contexts: the SysTick
  interrupt handler and one iteration of the main polling loop. The UART
  channel and the real-time clock are objects whose fields stand for the
  peripheral state the firmware touches; each method is proved against the
  pure state machines of the Scheduler and Echo modules.
*/
module Board {
  import opened Bytes
  import opened StatusLine
  import opened Scheduler
  import opened Echo

  /** UART channel: its receive flags, its received-data register and everything transmitted so far. */
  class Uart {
    var receiveIndication: bool
    var altReceiveIndication: bool
    var received: byte
    var tx: seq<byte>

    constructor ()
      ensures !receiveIndication && !altReceiveIndication && tx == []
    {
      receiveIndication, altReceiveIndication := false, false;
      received := 0;
      tx := [];
    }

    /** The receive side as the Echo module sees it. */
    function Rx(): (rx: RxStatus)
      reads this
      ensures Pending(rx) == (receiveIndication || altReceiveIndication)
    {
      RxStatus(receiveIndication, altReceiveIndication, received)
    }

    /** Appends one frame to the line. */
    method Transmit(b: byte)
      modifies this`tx
      ensures tx == old(tx) + [b]
    {
      tx := tx + [b];
    }

    /** Whether the receive or the alternative receive indication is set. */
    method ReceiveFlagSet() returns (flagged: bool)
      ensures flagged == (receiveIndication || altReceiveIndication)
    {
      flagged := receiveIndication || altReceiveIndication;
    }

    method GetReceivedData() returns (b: byte)
      ensures b == received
    {
      b := received;
    }

    /** Clears both receive indication flags. */
    method ClearReceiveFlags()
      modifies this`receiveIndication, this`altReceiveIndication
      ensures !receiveIndication && !altReceiveIndication
    {
      receiveIndication, altReceiveIndication := false, false;
    }
  }

  /** Real-time clock: the time it currently shows. How it advances is not modelled. */
  class Rtc {
    var time: Time

    constructor (t: Time)
      ensures time == t
    {
      time := t;
    }

    method GetTime() returns (t: Time)
      ensures t == time
    {
      t := time;
    }
  }

  /** The firmware's globals: the handler's static counter, the two LED outputs and actual_time. */
  class Board {
    var ticks: nat
    var led1: bool
    var led2: bool
    var actualTime: Time
    const uart: Uart
    const rtc: Rtc

    /** Between handler calls the counter is below TicksWait and the LEDs are opposite. */
    ghost predicate Valid()
      reads this
    {
      CounterInRange(State()) && Alternating(State())
    }

    /** The handler's state as the Scheduler module sees it. */
    function State(): TickState
      reads this
    {
      TickState(ticks, led1, led2, actualTime)
    }

    /** Power-up: counter 0, LED1 driven high, LED2 driven low. */
    constructor (uart: Uart, rtc: Rtc)
      ensures Valid() && State() == Initial
      ensures this.uart == uart && this.rtc == rtc
    {
      this.uart, this.rtc := uart, rtc;
      ticks := 0;
      actualTime := Time(0, 0, 0);
      led1 := true;
      led2 := false;
    }

    /**
      The SysTick interrupt: advances the counter and, on the threshold call,
      toggles both LEDs, reads the clock and sends the status line. The clock
      is only read and the receive side of the UART is left alone.
    */
    method SysTickHandler()
      requires Valid()
      modifies this, uart`tx
      ensures Valid()
      ensures State() == TickStep(old(State()), rtc.time).0
      ensures uart.tx == old(uart.tx) + TickStep(old(State()), rtc.time).1
      ensures unchanged(rtc)
    {
      ticks := (ticks + 1) % TicksModulus;
      assert ticks == old(ticks) + 1;
      if ticks == TicksWait {
        led1 := !led1;
        led2 := !led2;
        ticks := 0;

        actualTime := rtc.GetTime();
        SendTime();
      }
    }

    /** The ten transmit calls that send actual_time as a status line. */
    method SendTime()
      modifies uart`tx
      ensures uart.tx == old(uart.tx) + FormatTime(actualTime)
    {
      uart.Transmit(TensDigit(actualTime.hours));
      uart.Transmit(UnitsDigit(actualTime.hours));
      uart.Transmit(Colon);
      uart.Transmit(TensDigit(actualTime.minutes));
      uart.Transmit(UnitsDigit(actualTime.minutes));
      uart.Transmit(Colon);
      uart.Transmit(TensDigit(actualTime.seconds));
      uart.Transmit(UnitsDigit(actualTime.seconds));
      uart.Transmit(LF);
      uart.Transmit(CR);
    }

    /** One iteration of the main loop: echo a received byte, if there is one. */
    method MainLoopStep()
      modifies uart
      ensures uart.Rx() == Poll(old(uart.Rx())).0
      ensures uart.tx == old(uart.tx) + Poll(old(uart.Rx())).1
    {
      var pending := uart.ReceiveFlagSet();
      if pending {
        var rxData := uart.GetReceivedData();
        uart.ClearReceiveFlags();
        uart.Transmit(rxData);
      }
    }
  }
}
