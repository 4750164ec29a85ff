/** Numerals in text: digits, their value, and the white space around them. */
module Numerals {
  import opened Bytes

  /** `n` in octal or decimal digits, most significant first. */
  function Digits(n: nat, b: nat): (d: Bytes)
    requires b == 8 || b == 10
    ensures d != [] && forall i :: 0 <= i < |d| ==> 48 <= d[i] < 48 + b
  {
    if n < b then [48 + n] else Digits(n / b, b) + [48 + n % b]
  }

  function DigitsValue(d: Bytes, b: nat): nat
    requires (b == 8 || b == 10) && forall i :: 0 <= i < |d| ==> 48 <= d[i] < 48 + b
  {
    if d == [] then 0 else DigitsValue(Init(d), b) * b + (Last(d) - 48)
  }

  function Pow(b: nat, n: nat): nat {
    if n == 0 then 1 else b * Pow(b, n - 1)
  }

  lemma DivMod(n: nat, b: nat)
    requires b == 8 || b == 10
    ensures (n / b) * b + n % b == n
  {
    if b == 8 {
      assert (n / 8) * 8 + n % 8 == n;
    } else {
      assert (n / 10) * 10 + n % 10 == n;
    }
  }

  lemma {:induction false} ValueOfDigits(n: nat, b: nat)
    requires b == 8 || b == 10
    ensures DigitsValue(Digits(n, b), b) == n
  {
    if n >= b {
      ValueOfDigits(n / b, b);
      DivMod(n, b);
      Snoc(Digits(n / b, b), 48 + n % b);
    } else {
      assert Init([48 + n]) == [];
    }
  }

  lemma {:induction false} DigitsLength(n: nat, b: nat, k: nat)
    requires (b == 8 || b == 10) && k >= 1 && n < Pow(b, k)
    ensures |Digits(n, b)| <= k
  {
    if n >= b {
      assert k >= 2;
      DivLess(n, b, Pow(b, k - 1));
      DigitsLength(n / b, b, k - 1);
    }
  }

  lemma DivLess(n: nat, b: nat, p: nat)
    requires (b == 8 || b == 10) && n < b * p
    ensures n / b < p
  {
    if b == 8 {
      assert n / 8 < p;
    } else {
      assert n / 10 < p;
    }
  }

  predicate IsSpace(c: byte) {
    9 <= c <= 13 || c == 32
  }

  function TrimLeft(s: Bytes): Bytes {
    if s != [] && IsSpace(s[0]) then TrimLeft(s[1..]) else s
  }

  function TrimRight(s: Bytes): Bytes {
    if s != [] && IsSpace(Last(s)) then TrimRight(Init(s)) else s
  }

  function Trim(s: Bytes): Bytes {
    TrimRight(TrimLeft(s))
  }

  predicate IsNumeral(s: Bytes) {
    s != [] && forall i :: 0 <= i < |s| ==> 48 <= s[i] < 58
  }

  /** A decimal numeral's value; other numerals the source's parser knows are not part of this model. */
  function ParseCount(s: Bytes): Option<nat> {
    if IsNumeral(s) then Some(DigitsValue(s, 10)) else None
  }
}
