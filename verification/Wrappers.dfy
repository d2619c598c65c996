/** A value that may be missing, and the 64-bit words that several components count with. */
module Wrappers {
  datatype Option<+T> = None | Some(value: T)

  const WORD_MAX: nat := 0xFFFF_FFFF_FFFF_FFFF

  type Word = n: nat | n <= WORD_MAX

  function SaturatingAdd(a: nat, b: nat): Word {
    if a + b > WORD_MAX then WORD_MAX else a + b
  }

  function SaturatingSub(a: Word, b: Word): Word {
    if a < b then 0 else a - b
  }

  function CheckedAdd(a: Word, b: Word): Option<Word> {
    if a + b > WORD_MAX then None else Some(a + b)
  }
}
