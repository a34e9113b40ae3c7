/** Ranges of C's unsigned types. */
module CTypes {
  /** `unsigned char` */
  type Byte = x: int | 0 <= x < 256

  const WORD: int := 0x1_0000_0000

  /** `unsigned int` */
  type Word = x: int | 0 <= x < WORD

  function Add32(a: Word, b: Word): Word {
    if a + b < WORD then a + b else a + b - WORD
  }

  function Sub32(a: Word, b: Word): Word {
    if a >= b then a - b else a - b + WORD
  }

  /** Both are arithmetic modulo 2^32. */
  lemma Wraps(a: Word, b: Word)
    ensures Add32(a, b) == (a + b) % 0x1_0000_0000 && Sub32(a, b) == (a - b) % 0x1_0000_0000
  {
  }
}
