/** 32-bit machine words. */
module Words {

  const WORD := 0x1_0000_0000
  const HALF := 0x8000_0000

  type Word = w: int | 0 <= w < WORD

  function Not(w: Word): Word { WORD - 1 - w }
}
