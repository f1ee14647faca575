/** Bytes on the serial line and the ASCII constants the firmware sends. */
module Bytes {

  /** One 8-bit UART frame (the channel is configured with 8 data bits). */
  newtype byte = x: int | 0 <= x < 256

  /** ASCII '0'. */
  const Zero: byte := 48
  /** ASCII ':'. */
  const Colon: byte := 58
  /** Line feed, sent first at the end of a status line. */
  const LF: byte := 10
  /** Carriage return, sent last. */
  const CR: byte := 13

  predicate IsDigit(b: byte) {
    Zero <= b <= Zero + 9
  }

  /** The transmit call takes a 16-bit word; with 8 data bits only its low byte reaches the line. */
  function Frame(word: nat): (b: byte)
    ensures word < 256 ==> b as int == word
  {
    (word % 256) as byte
  }

  /** The digit value an ASCII digit byte stands for, as `b - '0'`. */
  function DigitValue(b: byte): (d: int)
    ensures IsDigit(b) ==> 0 <= d <= 9
  {
    b as int - Zero as int
  }
}
