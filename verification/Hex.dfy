/** Small hexadecimal numbers, as Rust's `{:x}` writes them. */
module Hex {
  /** Digit `d` of 0 to 15. */
  function Digit(d: nat): char
    requires d < 16
  {
    if d < 10 then ('0' as int + d) as char else ('a' as int + d - 10) as char
  }

  /** The number without leading zeros; `0` for zero. */
  function Digits(n: nat): string {
    if n < 16 then [Digit(n)] else Digits(n / 16) + [Digit(n % 16)]
  }

  predicate IsHexDigit(c: char) {
    '0' <= c <= '9' || 'a' <= c <= 'f' || 'A' <= c <= 'F'
  }

  predicate IsSmallHexDigit(c: char) {
    '0' <= c <= '9' || 'a' <= c <= 'f'
  }

  function Value(c: char): nat
    requires IsHexDigit(c)
  {
    if c <= '9' then c as int - '0' as int
    else if c <= 'F' then c as int - 'A' as int + 10
    else c as int - 'a' as int + 10
  }

  function Number(s: string): nat
    requires forall c :: c in s ==> IsHexDigit(c)
  {
    if s == [] then 0 else 16 * Number(s[..|s| - 1]) + Value(s[|s| - 1])
  }

  lemma {:induction false} NumberOfDigits(n: nat)
    ensures forall c :: c in Digits(n) ==> IsSmallHexDigit(c) && IsHexDigit(c)
    ensures Digits(n) != [] && Number(Digits(n)) == n
  {
    if n >= 16 {
      NumberOfDigits(n / 16);
      var s := Digits(n);
      assert s[..|s| - 1] == Digits(n / 16);
    } else {
      assert Digits(n)[..0] == [];
    }
  }
}
