/** The `[Flags]` enum `Mode`. A C# enum value may be any 32-bit integer, so
    `0` and `Read | Write` (3) are values of the type too. */
module FileMode {

  newtype Mode = x: int | -0x8000_0000 <= x < 0x8000_0000

  const Read: Mode := 1
  const Write: Mode := 2

  /** Bitwise or of two flag values, as `Mode.Read | Mode.Write` computes it. */
  function Or(a: Mode, b: Mode): (r: Mode)
    requires 0 <= a && 0 <= b
    ensures 0 <= r
  {
    ((a as int as bv31) | (b as int as bv31)) as int as Mode
  }

  /** Combining both flags gives a value that is neither `Read` nor `Write`. */
  lemma CombinedFlags()
    ensures Or(Read, Write) == 3
    ensures Or(Read, Write) != Read && Or(Read, Write) != Write
  {
  }
}
