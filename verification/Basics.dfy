/** What the modules share: result codes, integer widths, decimal numbers. */
module Basics {

  datatype Option<+T> = None | Some(value: T)

  const MESIBO_RESULT_FAIL := -1
  const MESIBO_RESULT_OK := 0
  const MESIBO_RESULT_PASS := 0
  const MESIBO_RESULT_CONSUMED := 1

  const TWO31 := 0x8000_0000
  const TWO32 := 0x1_0000_0000
  const TWO63 := 0x8000_0000_0000_0000
  const TWO64 := 0x1_0000_0000_0000_0000

  predicate IsInt32(x: int) {
    -TWO31 <= x < TWO31
  }

  predicate IsInt64(x: int) {
    -TWO63 <= x < TWO63
  }

  /** Storing a wider integer in an int. */
  function ToInt32(x: int): int {
    (x + TWO31) % TWO32 - TWO31
  }

  lemma ToInt32Exactly(x: int)
    ensures ToInt32(x) == x <==> IsInt32(x)
  {
  }

  lemma ToInt32OfNat(x: nat)
    ensures ToInt32(x) == if x % TWO32 < TWO31 then x % TWO32 else x % TWO32 - TWO32
  {
    var q, r := x / TWO32, x % TWO32;
    if r < TWO31 {
      assert x + TWO31 == q * TWO32 + (r + TWO31);
    } else {
      assert x + TWO31 == (q + 1) * TWO32 + (r - TWO31);
    }
  }

  /** The terminator of a C string, as a byte of a buffer and as a character. */
  type Byte = b: int | 0 <= b < 256

  const NUL: Byte := 0
  const NUL_CHAR := '\0'

  function Digit(d: nat): char
    requires d < 10
  {
    "0123456789"[d]
  }

  function Decimal(n: nat): string {
    if n < 10 then [Digit(n)] else Decimal(n / 10) + [Digit(n % 10)]
  }

  predicate IsDecimal(s: string) {
    s != [] && forall i :: 0 <= i < |s| ==> '0' <= s[i] <= '9'
  }

  /** The number a string of digits stands for. */
  function NumberOf(s: string): int {
    if s == [] then 0 else 10 * NumberOf(s[..|s| - 1]) + (s[|s| - 1] as int - '0' as int)
  }

  /** Decimal prints digits that read back as the number, without leading zeroes. */
  lemma {:induction false} DecimalReadsBack(n: nat)
    ensures IsDecimal(Decimal(n)) && NumberOf(Decimal(n)) == n
    ensures |Decimal(n)| > 1 ==> Decimal(n)[0] != '0'
  {
    if n >= 10 {
      DecimalReadsBack(n / 10);
      assert Decimal(n)[..|Decimal(n)| - 1] == Decimal(n / 10);
    }
  }
}
