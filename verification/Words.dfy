// Unsigned 64-bit integers: sums, differences and products are taken modulo
// WRAP.
module Words {
  const WRAP := 0x1_0000_0000_0000_0000

  type Word = n: nat | n < WRAP

  function Wrap(n: int): (r: Word)
    ensures 0 <= n < WRAP ==> r == n
  {
    n % WRAP
  }

  lemma WrapAdd(a: int, b: int)
    ensures Wrap(Wrap(a) + b) == Wrap(a + b)
  {
  }

  // A difference is zero only if there is none.
  lemma WrapSub(a: Word, b: Word)
    ensures Wrap(a - b) == 0 <==> a == b
    ensures b <= a ==> Wrap(a - b) == a - b
    ensures Wrap(Wrap(a - b) + b) == a
  {
  }
}
