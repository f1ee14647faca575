# XMC1100 Boot Kit: flashing LEDs, UART echo and RTC time line

A Dafny model of the firmware in `FlashLed_UART_RTC/main.c`. It covers the three pieces of logic that firmware has besides peripheral set-up:

- **SysTick handler.** It runs once per millisecond and increments a static counter. On the call that makes the counter reach `TICKS_WAIT` (1000), it resets the counter and toggles both LEDs. It then reads the real-time clock into the global `actual_time` and transmits a status line.
- **Status line.** The line is `HH:MM:SS` followed by byte 10 and byte 13. Each field is sent as two ASCII digits, `x/10 + '0'` and `x%10 + '0'`.
- **Echo loop.** The endless loop in `main` polls the UART channel. When the receive indication or the alternative receive indication flag is set, it reads the received byte, clears both flags and transmits the byte back unchanged.

Files:

- `bytes.dfy`: UART frames, the ASCII constants, and the cut of a transmit word to its low 8 bits.
- `status_line.dfy`: `FormatTime`, the status-line encoder, with its inverse `ParseTime`. `ParseTime` and `DecodeTwoDigits` read a line back the way a receiver would; they have no counterpart in `main.c` and exist to state the round trip. It also has the round-trip, injectivity and digit-range lemmas.
- `scheduler.dfy`: the handler as a pure state machine (`TickStep`) and its iteration (`Run`). It has lemmas on the counter bound, the LED alternation, and one line and one toggle per 1000 calls. One lemma gives a closed form for any number of calls.
- `echo.dfy`: one poll of the main loop (`Poll`), with lemmas. It also has a session of polls with bytes arriving between them, and a proof that the echoed stream equals the received stream.
- `board.dfy`: the firmware's globals as the class `Board`, plus `Uart` and `Rtc` classes for the peripheral state. `SysTickHandler` and `MainLoopStep` update that state in place and are proved equal to `TickStep` and `Poll`.

The firmware has no command parser and no condition on the status line: every received byte is only echoed, and the line goes out on every threshold call.

## Model

| member | source | states |
|---|---|---|
| Bytes.Frame | FlashLed_UART_RTC/main.c:72-81 | a transmitted word below 256 reaches the line unchanged |
| StatusLine.TensDigit | FlashLed_UART_RTC/main.c:72-78 | for a field below 100, `x/10 + '0'` is an ASCII digit whose value is the tens of x |
| StatusLine.UnitsDigit | FlashLed_UART_RTC/main.c:73-79 | `x%10 + '0'` is always an ASCII digit whose value is x mod 10 |
| StatusLine.DecodeTwoDigits | FlashLed_UART_RTC/main.c:72-79 | receiver-side inverse of the digit encoding, with no counterpart in main.c: reading two digit bytes as `(hi-'0')*10 + (lo-'0')` yields a value in 0..99 |
| StatusLine.FormatTime | FlashLed_UART_RTC/main.c:72-81 | the status line is 10 bytes, with ':' at positions 2 and 5, byte 10 at 8 and byte 13 at 9 |
| StatusLine.ParseTime | FlashLed_UART_RTC/main.c:72-81 | receiver-side inverse of the encoder, with no counterpart in main.c: a receiver's reading of a line succeeds exactly on well-formed lines, and always gives two-digit fields |
| StatusLine.TwoDigitsRoundTrip | FlashLed_UART_RTC/main.c:72-79 | for every field below 100, decoding its two digit bytes gives the field back |
| StatusLine.TwoDigitsEncodeDecoded | FlashLed_UART_RTC/main.c:72-79 | every pair of digit bytes is exactly the encoding of the value it decodes to |
| StatusLine.FormatTimeWellFormed | FlashLed_UART_RTC/main.c:72-81 | a time with fields below 100 formats to digits, ':' at 2 and 5, then LF and CR |
| StatusLine.ParseFormatTime | FlashLed_UART_RTC/main.c:72-81 | parsing the status line of a time with fields below 100 gives that time back |
| StatusLine.ParseTimeInverse | FlashLed_UART_RTC/main.c:72-81 | a line parses to t if and only if t has two-digit fields and the handler sends exactly that line for t |
| StatusLine.FormatTimeInjective | FlashLed_UART_RTC/main.c:72-81 | two different times with fields below 100 never give the same status line |
| StatusLine.ClockTimeDigits | FlashLed_UART_RTC/main.c:72-79 | for hours ≤ 23 and minutes, seconds ≤ 59, all six digit bytes are in '0'..'9'; the hours tens digit is at most '2'; the minutes and seconds tens digits are at most '5' |
| Scheduler.TickStep | FlashLed_UART_RTC/main.c:60-84 | one handler call keeps the counter in 0..999 and keeps the two LEDs opposite if they were |
| Scheduler.Run | FlashLed_UART_RTC/main.c:60-84 | after any number of handler calls the number of bytes sent is a multiple of 10 |
| Scheduler.RunSendsStatusLines | FlashLed_UART_RTC/main.c:60-84 | after any number of handler calls everything sent splits into whole 10-byte status lines, each one the line of the clock reading of one of the calls |
| Scheduler.QuietTick | FlashLed_UART_RTC/main.c:63-64 | a call below the threshold only increments the counter; LEDs, actual_time and the UART output stay unchanged |
| Scheduler.ThresholdTick | FlashLed_UART_RTC/main.c:64-81 | the threshold call resets the counter, toggles both LEDs, stores the clock reading and sends exactly its status line |
| Scheduler.ResetExactlyAtThreshold | FlashLed_UART_RTC/main.c:62-68 | from a counter in range: the counter becomes 0, a line is sent and LED1 toggles, each exactly when the counter was 999; LED1 toggles exactly when LED2 does |
| Scheduler.RunAppend | FlashLed_UART_RTC/main.c:60-84 | running two batches of calls one after the other is the same as running them as one batch |
| Scheduler.QuietRun | FlashLed_UART_RTC/main.c:63-64 | calls that stay below the threshold only advance the counter and send nothing |
| Scheduler.RunClosedForm | FlashLed_UART_RTC/main.c:62-82 | after n calls from counter t, the counter is (t+n) mod 1000; each LED has toggled (t+n) div 1000 times; 10·((t+n) div 1000) bytes were sent |
| Scheduler.ThresholdThenQuiet | FlashLed_UART_RTC/main.c:63-82 | the threshold call followed by fewer than 1000 calls sends only the threshold call's line and toggles the LEDs once |
| Scheduler.OneLinePerPeriod | FlashLed_UART_RTC/main.c:62-82 | any 1000 consecutive calls send exactly one status line, namely that of the clock reading at the threshold call; they toggle each LED once and return the counter to its start value |
| Scheduler.RunKeepsInvariant | FlashLed_UART_RTC/main.c:62-68 | any number of calls keeps the counter in range and the LEDs opposite |
| Scheduler.AlwaysAlternating | FlashLed_UART_RTC/main.c:103-104 | starting from LED1 high and LED2 low with counter 0, the LEDs are opposite and the counter is below 1000 after any number of calls |
| Scheduler.FirstLineAfterOnePeriod | FlashLed_UART_RTC/main.c:62-82 | after power-up, the first 999 calls send nothing; call 1000 sends the line for its clock reading and leaves LED1 low and LED2 high |
| Echo.Poll | FlashLed_UART_RTC/main.c:120-127 | after one loop iteration no receive flag is set and the data register is unchanged; at most one byte is sent, and one is sent exactly when a flag was set |
| Echo.PollEchoesOnce | FlashLed_UART_RTC/main.c:120-127 | with a receive flag set, one byte equal to the received byte is sent and both flags are cleared; with none set, nothing is sent and nothing changes |
| Echo.NoDoubleEcho | FlashLed_UART_RTC/main.c:125 | because the flags are cleared, a second poll with no new byte sends nothing; two polls send at most one byte |
| Echo.EchoSession | FlashLed_UART_RTC/main.c:117-128 | loop iterations never send more bytes than there were iterations |
| Echo.EchoSessionMirrorsInput | FlashLed_UART_RTC/main.c:117-128 | when the loop polls between arrivals, the transmitted stream equals the received stream: no byte lost, repeated, altered or reordered |
| Board.Board.constructor | FlashLed_UART_RTC/main.c:103-104 | at start LED1 is high and LED2 low; the counter starts at 0 as the static initialiser at main.c line 62 sets it |
| Board.Board.SysTickHandler | FlashLed_UART_RTC/main.c:60-84 | the new counter, LEDs and actual_time are those of TickStep; exactly TickStep's bytes are appended to the UART output; the counter bound and LED alternation are kept; the clock is not written |
| Board.Board.SendTime | FlashLed_UART_RTC/main.c:72-81 | the ten transmit calls append exactly the status line of actual_time to the UART output |
| Board.Board.MainLoopStep | FlashLed_UART_RTC/main.c:117-128 | the UART's receive flags and output change exactly as Poll says |
| Board.Uart.Transmit | FlashLed_UART_RTC/main.c:127 | a transmit appends exactly its byte to the UART output and changes nothing else; it also stands for the transmits at lines 72-81 |
| Board.Uart.ReceiveFlagSet | FlashLed_UART_RTC/main.c:120 | the poll reports a byte waiting exactly when the receive or the alternative receive indication is set |
| Board.Uart.GetReceivedData | FlashLed_UART_RTC/main.c:123 | reading the channel returns the received-data register |
| Board.Uart.ClearReceiveFlags | FlashLed_UART_RTC/main.c:125 | both receive indication flags are cleared and nothing else changes |
| Board.Rtc.GetTime | FlashLed_UART_RTC/main.c:71 | reading the clock returns the time it shows |

## Left out

- Peripheral configuration is not modelled (FlashLed_UART_RTC/main.c:35-57, 89-101, 106-113). This covers UART init, input source and start, the pin modes, RTC disable/init/enable/start with its initial date and time, and `SysTick_Config`. These are register-level calls into the XMC peripheral library, which is not part of this model.
- How the real-time clock advances is not modelled. Each handler call is given the time the clock shows at that moment, and the handler only reads it.
- Date fields of the clock record (days, weekday, month, year) are left out, because the firmware never sends them.
- The `message` constant (FlashLed_UART_RTC/main.c:30) is left out, because nothing uses it.
- StatusLine.Time: hours, minutes and seconds are unbounded naturals. The field widths of the XMC time record are declared in `xmc_rtc.h`, which is not part of this model. Round-trip and digit facts are therefore stated for fields below 100.
- Interleaving is not modelled. The SysTick interrupt and the main loop both transmit on the same UART, and an interrupt can land between the loop's read, clear and transmit. Each context's step is modelled on its own.
- Echo.Receive: how the hardware latches a byte is a model of the environment, not of the firmware. A new byte overwrites the data register and raises the receive indication. Receive errors and the FIFO are not modelled.
- The transmit call's wait for a free transmit buffer is not modelled, and neither is its timing. The UART output is a growing byte sequence.

