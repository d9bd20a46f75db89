/** Machine words: bounds, and the bits a number takes. */
module Words {

  const TWO_TO_THE_64: nat := 0x1_0000_0000_0000_0000

  const TWO_TO_THE_256: nat := TWO_TO_THE_64 * TWO_TO_THE_64 * TWO_TO_THE_64 * TWO_TO_THE_64

  type U64 = n: nat | n < TWO_TO_THE_64

  /** The number of leading zero bits of a word, shifted out one bit at a time. */
  function LeadingZeros(x: nat, width: nat): (n: nat)
    ensures n <= width
  {
    if width == 0 then 0 else if x == 0 then width else LeadingZeros(x / 2, width - 1)
  }

  /** The number of bits needed to write a number. */
  function BitLength(x: nat): nat {
    if x == 0 then 0 else 1 + BitLength(x / 2)
  }

  function Pow2(k: nat): (p: nat)
    ensures p > 0
  {
    if k == 0 then 1 else 2 * Pow2(k - 1)
  }

  lemma {:induction false} BitLengthMeaning(x: nat, k: nat)
    ensures BitLength(x) <= k <==> x < Pow2(k)
    decreases k
  {
    if k > 0 && x > 0 {
      BitLengthMeaning(x / 2, k - 1);
    }
  }

  /** In a word that holds it, a number's bits and its leading zeros fill the width. */
  lemma {:induction false} LeadingZerosExact(x: nat, width: nat)
    requires x < Pow2(width)
    ensures LeadingZeros(x, width) == width - BitLength(x)
    decreases width
  {
    if width > 0 && x > 0 {
      LeadingZerosExact(x / 2, width - 1);
    }
  }
}
