// Powers of two, and letters of either case.
module Basics {

  function Pow2(n: nat): nat {
    if n == 0 then 1 else 2 * Pow2(n - 1)
  }

  lemma {:induction false} Pow2Monotone(a: nat, b: nat)
    requires a <= b
    ensures Pow2(a) <= Pow2(b)
    decreases b - a
  {
    if a < b {
      Pow2Monotone(a + 1, b);
    }
  }

  // The code of a character in lower case, as tolower and lc have it for ASCII.
  function LowerCode(c: int): int {
    if 65 <= c <= 90 then c + 32 else c
  }

  // The same character, or the same letter once as a capital.
  predicate SameLetter(a: int, b: int) {
    || a == b
    || ('A' as int <= a <= 'Z' as int && b - 'a' as int == a - 'A' as int)
    || ('A' as int <= b <= 'Z' as int && a - 'a' as int == b - 'A' as int)
  }

  lemma {:induction false} LowerCodeIff(a: int, b: int)
    ensures LowerCode(a) == LowerCode(b) <==> SameLetter(a, b)
  {
  }
}
