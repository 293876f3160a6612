/** Byte-history contexts and the multiplicative hash that turns them into table rows. */
module ContextHash {

  type byte = x: int | 0 <= x < 256
  type u16 = x: int | 0 <= x < 65536

  const TWO_32: nat := 0x1_0000_0000

  /** Summary of the bytes seen so far, as maintained by the text-context analyzer. */
  datatype History = History(
    prev1: byte, prev2: byte, prev1Class: byte, prev2Class: byte,
    runLen: u16, utf8Left: byte, inWord: bool, wordLenBucket: byte,
    prevWordClass: byte, bracketBucket: byte, quoteFlags: byte,
    sentenceBoundary: bool, paragraphBreak: bool,
    repeatLenBucket: byte, copiedLastByte: bool, hasHistory: bool)

  const EMPTY_HISTORY :=
    History(0, 0, 0, 0, 0, 0, false, 0, 0, 0, 0, false, false, 0, false, false)

  function Flag(b: bool): byte
  {
    if b then 1 else 0
  }

  function Capped(x: u16, cap: byte): byte
  {
    if x < cap then x else cap
  }

  function Xor(a: nat, b: nat): nat
    decreases a + b
  {
    if a == 0 && b == 0 then 0
    else (a % 2 + b % 2) % 2 + 2 * Xor(a / 2, b / 2)
  }

  /** One round: xor the byte in, rotate the 32-bit word left by 5, multiply with wrap-around. */
  function HashRound(h: nat, value: byte): nat
  {
    var x := Xor(h, value);
    var rotated := (x * 32) % TWO_32 + x / 0x800_0000;
    (rotated * 0x85EB_CA6B) % TWO_32
  }

  function HashFrom(h: nat, values: seq<byte>): nat
    decreases |values|
  {
    if values == [] then h else HashFrom(HashRound(h, values[0]), values[1..])
  }

  function HashFields(values: seq<byte>, modulo: nat): (r: nat)
    requires modulo > 0
    ensures r < modulo
  {
    HashFrom(0x9E37_79B9, values) % modulo
  }
}
