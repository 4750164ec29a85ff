/** The numbers in a tar header: octal and base-256 fields, as packages/audit/src/tar.ts writes and reads them. */
module TarNumbers {
  import opened Bytes
  import opened Numerals

  const MAX_SAFE: nat := 9007199254740991

  // ----------------------------------------------------------------- octal, written

  function PadLeft(text: Bytes, width: nat): (p: Bytes)
    ensures |p| >= width && |p| >= |text|
    ensures |text| <= width ==> |p| == width
  {
    (if |text| < width then seq(width - |text|, _ => 48) else []) + text
  }

  /** A numeric field of `length` bytes: zero-padded octal and a NUL, which takes the last byte whatever the number. */
  function OctalField(n: nat, length: nat): (f: Bytes)
    requires length >= 1
    ensures |f| == length
  {
    PadLeft(Digits(n, 8), length - 1)[..length - 1] + [0]
  }

  method Octal(n: nat, length: nat) returns (f: Bytes)
    requires length >= 1
    ensures f == OctalField(n, length)
  {
    var out := new byte[length](_ => 0);
    var text := PadLeft(Digits(n, 8), length - 1);
    var i := 0;
    while i < |text|
      invariant 0 <= i <= |text|
      invariant forall k :: 0 <= k < i && k < length ==> out[k] == text[k]
    {
      if i < length {
        out[i] := text[i];
      }
      i := i + 1;
    }
    out[length - 1] := 0;
    f := out[..];
  }

  // -------------------------------------------------------------------- octal, read

  function StripNuls(s: Bytes): Bytes {
    if s != [] && Last(s) == 0 then StripNuls(Init(s)) else s
  }

  /** The longest front of `s` made of octal digits. */
  function OctalFront(s: Bytes): (d: Bytes)
    ensures d <= s && forall i :: 0 <= i < |d| ==> 48 <= d[i] < 56
  {
    if s == [] || !(48 <= s[0] < 56) then [] else
      var rest := OctalFront(s[1..]);
      [s[0]] + rest
  }

  /** parseInt(text, 8): a sign, then the octal digits at the front; none when there are none. */
  function ParseInt8(text: Bytes): Option<int> {
    var signed := text != [] && (text[0] == 43 || text[0] == 45);
    var d := OctalFront(if signed then text[1..] else text);
    if d == [] then None
    else Some(if signed && text[0] == 45 then -(DigitsValue(d, 8) as int) else DigitsValue(d, 8))
  }

  function ParseOctal(field: Bytes): Result<nat> {
    var text := Trim(StripNuls(Trim(field)));
    if text == [] then Ok(0) else
      match ParseInt8(text)
      case None => Err
      case Some(v) => if v < 0 || v > MAX_SAFE then Err else Ok(v)
  }

  /** A numeric field: GNU base-256 when its first bit is set, else octal padded with NULs and spaces. */
  function ParseNumeric(field: Bytes): Result<nat> {
    if field != [] && field[0] >= 128 then
      var v := BeNat([field[0] - 128] + field[1..]);
      if v > MAX_SAFE then Err else Ok(v)
    else ParseOctal(field)
  }

  // --------------------------------------------------------- what is written is read

  /** A digit string, as the readers of text need it. */
  ghost predicate OctalText(d: Bytes) {
    d != [] && forall i :: 0 <= i < |d| ==> 48 <= d[i] < 56
  }

  lemma {:induction false} FrontOfDigits(d: Bytes)
    requires forall i :: 0 <= i < |d| ==> 48 <= d[i] < 56
    ensures OctalFront(d) == d
  {
    if d != [] {
      FrontOfDigits(d[1..]);
      assert d == [d[0]] + d[1..];
    }
  }

  lemma TrimOfDigits(d: Bytes)
    requires OctalText(d)
    ensures Trim(d) == d && StripNuls(d) == d
  {
  }

  lemma TrimOfDigitsNul(d: Bytes)
    requires OctalText(d)
    ensures Trim(d + [0]) == d + [0] && StripNuls(d + [0]) == d
  {
    Snoc(d, 0);
  }

  /** A digit string ending in a NUL, or in a NUL and a space, is read as its digits. */
  lemma DigitsRead(d: Bytes)
    requires OctalText(d) && DigitsValue(d, 8) <= MAX_SAFE
    ensures ParseNumeric(d + [0]) == Ok(DigitsValue(d, 8))
    ensures ParseNumeric(d + [0, 32]) == Ok(DigitsValue(d, 8))
  {
    hide Trim, StripNuls, DigitsValue, OctalFront;
    TrimOfDigits(d);
    TrimOfDigitsNul(d);
    FrontOfDigits(d);
    TrimSpace(d);
  }

  lemma TrimSpace(d: Bytes)
    requires OctalText(d)
    ensures Trim(d + [0, 32]) == d + [0]
  {
    TrimOfDigitsNul(d);
    assert d + [0, 32] == (d + [0]) + [32];
    Snoc(d + [0], 32);
  }

  lemma {:induction false} LeadingZeros(k: nat, d: Bytes)
    requires forall i :: 0 <= i < |d| ==> 48 <= d[i] < 56
    ensures DigitsValue(seq(k, _ => 48) + d, 8) == DigitsValue(d, 8)
    decreases k + |d|
  {
    var z := seq(k, _ => 48);
    if d != [] {
      LeadingZeros(k, Init(d));
      assert Init(z + d) == z + Init(d);
    } else if k > 0 {
      LeadingZeros(k - 1, []);
      assert Init(z + []) == seq(k - 1, _ => 48) + [];
    }
  }

  lemma PaddedDigits(n: nat, width: nat)
    requires width >= 1 && n < Pow(8, width)
    ensures var t := PadLeft(Digits(n, 8), width); |t| == width && OctalText(t) && DigitsValue(t, 8) == n
  {
    DigitsLength(n, 8, width);
    ValueOfDigits(n, 8);
    LeadingZeros(width - |Digits(n, 8)|, Digits(n, 8));
  }

  lemma Octal11()
    ensures Pow(8, 11) == 8589934592 && Pow(8, 6) == 262144 && Pow(8, 7) == 2097152
  {
  }

  /** A size under 8^11 goes through its twelve-byte field unchanged. */
  lemma SizeFieldRoundTrip(n: nat)
    requires n < Pow(8, 11)
    ensures ParseNumeric(OctalField(n, 12)) == Ok(n)
  {
    hide Digits, DigitsValue, Pow, ParseNumeric;
    Octal11();
    PaddedDigits(n, 11);
    var t := PadLeft(Digits(n, 8), 11);
    assert t[..11] == t;
    DigitsRead(t);
  }

  lemma {:induction false} ValueBound(d: Bytes)
    requires forall i :: 0 <= i < |d| ==> 48 <= d[i] < 56
    ensures DigitsValue(d, 8) < Pow(8, |d|)
  {
    if d != [] {
      ValueBound(Init(d));
    }
  }

  /** A larger size does not: the field keeps its first eleven digits, so the bound is exact. */
  lemma SizeFieldExact(n: nat)
    ensures ParseNumeric(OctalField(n, 12)) == Ok(n) <==> n < Pow(8, 11)
  {
    hide DigitsValue, Pow, ParseNumeric, Digits;
    if n < Pow(8, 11) {
      SizeFieldRoundTrip(n);
    } else {
      Octal11();
      var t := PadLeft(Digits(n, 8), 11)[..11];
      ValueBound(t);
      DigitsRead(t);
    }
  }

  // ------------------------------------------------------- what other writers put there

  function Spaces(n: nat): Bytes {
    seq(n, _ => 32)
  }

  lemma {:induction false} TrimLeftSpaces(n: nat, s: Bytes)
    requires s != [] ==> !IsSpace(s[0])
    ensures TrimLeft(Spaces(n) + s) == s
  {
    if n > 0 {
      assert (Spaces(n) + s)[1..] == Spaces(n - 1) + s;
      TrimLeftSpaces(n - 1, s);
    } else {
      assert Spaces(0) + s == s;
    }
  }

  lemma {:induction false} TrimRightSpaces(s: Bytes, n: nat)
    requires s != [] ==> !IsSpace(Last(s))
    ensures TrimRight(s + Spaces(n)) == s
  {
    if n > 0 {
      assert Init(s + Spaces(n)) == s + Spaces(n - 1);
      TrimRightSpaces(s, n - 1);
    } else {
      assert s + Spaces(0) == s;
    }
  }

  lemma {:induction false} StripsZeros(s: Bytes, n: nat)
    requires s != [] ==> Last(s) != 0
    ensures StripNuls(s + Zeros(n)) == s
  {
    if n > 0 {
      assert Init(s + Zeros(n)) == s + Zeros(n - 1);
      StripsZeros(s, n - 1);
    } else {
      assert s + Zeros(0) == s;
    }
  }

  /** Spaces around a text that neither starts nor ends with one. */
  lemma TrimsBoth(a: nat, s: Bytes, b: nat)
    requires s != [] ==> !IsSpace(s[0]) && !IsSpace(Last(s))
    ensures Trim(Spaces(a) + (s + Spaces(b))) == s
  {
    hide TrimLeft, TrimRight, IsSpace;
    if s == [] {
      assert Spaces(a) + (s + Spaces(b)) == Spaces(a + b) + [];
      TrimLeftSpaces(a + b, []);
      assert [] + Spaces(0) == [];
      TrimRightSpaces([], 0);
    } else {
      TrimLeftSpaces(a, s + Spaces(b));
      TrimRightSpaces(s, b);
    }
  }

  ghost predicate IsText(d: Bytes) {
    forall i :: 0 <= i < |d| ==> 48 <= d[i] < 56
  }

  lemma TextEnds(d: Bytes)
    requires IsText(d) && d != []
    ensures !IsSpace(d[0]) && !IsSpace(Last(d)) && Last(d) != 0
  {
  }

  lemma BareReads(a: nat, d: Bytes, b: nat)
    requires IsText(d)
    ensures Trim(StripNuls(Trim(Spaces(a) + (d + Spaces(b))))) == d
  {
    hide Trim, StripNuls, IsSpace, IsText;
    if d != [] {
      TextEnds(d);
    }
    TrimsBoth(a, d, b);
    StripsZeros(d, 0);
    assert d + Zeros(0) == d;
    TrimsBoth(0, d, 0);
    assert Spaces(0) + (d + Spaces(0)) == d;
  }

  lemma NulsRead(a: nat, d: Bytes, b: nat, nuls: nat, c: nat)
    requires IsText(d) && d != [] && nuls > 0
    ensures Trim(StripNuls(Trim(Spaces(a) + ((d + Spaces(b) + Zeros(nuls)) + Spaces(c))))) == d
  {
    hide Trim, IsSpace, IsText;
    TextEnds(d);
    var inner := d + Spaces(b) + Zeros(nuls);
    assert Last(inner) == 0 && inner[0] == d[0];
    assert !IsSpace(0) by { NulIsNoSpace(); }
    TrimsBoth(a, inner, c);
    assert inner == (d + Spaces(b)) + Zeros(nuls);
    StripsAll(d, b, nuls);
    TrimsBoth(0, d, 0);
    assert Spaces(0) + (d + Spaces(0)) == d;
    TrimsBoth(0, d, b);
    assert Spaces(0) + (d + Spaces(b)) == d + Spaces(b);
  }

  lemma NulIsNoSpace()
    ensures !IsSpace(0)
  {
  }

  lemma StripsAll(d: Bytes, b: nat, nuls: nat)
    requires d != [] && Last(d) != 0
    ensures StripNuls((d + Spaces(b)) + Zeros(nuls)) == d + Spaces(b)
  {
    hide StripNuls;
    assert b > 0 ==> Last(d + Spaces(b)) == 32;
    assert b == 0 ==> d + Spaces(b) == d;
    StripsZeros(d + Spaces(b), nuls);
  }

  /** Octal digits with spaces before, and spaces, NULs and spaces after, are read as their value; so is a blank. */
  lemma PaddedReads(a: nat, d: Bytes, b: nat, nuls: nat, c: nat)
    requires (forall i :: 0 <= i < |d| ==> 48 <= d[i] < 56) && DigitsValue(d, 8) <= MAX_SAFE
    ensures ParseNumeric(Spaces(a) + ((d + Spaces(b) + Zeros(nuls)) + Spaces(c))) == Ok(DigitsValue(d, 8))
  {
    hide Trim, StripNuls, DigitsValue, OctalFront, ParseNumeric, Spaces, Zeros;
    var field := Spaces(a) + ((d + Spaces(b) + Zeros(nuls)) + Spaces(c));
    SpacesMeet(a, d, b, nuls, c);
    if nuls == 0 {
      BareReads(a, d, b + c);
    } else if d == [] {
      BlankReads(a + b, nuls, c);
    } else {
      NulsRead(a, d, b, nuls, c);
    }
    LowFirst(a, d, b, nuls, c);
    TrimmedReads(field, d);
  }

  lemma SpacesMeet(a: nat, d: Bytes, b: nat, nuls: nat, c: nat)
    ensures var field := Spaces(a) + ((d + Spaces(b) + Zeros(nuls)) + Spaces(c));
      && (nuls == 0 ==> field == Spaces(a) + (d + Spaces(b + c)))
      && (d == [] ==> field == Spaces(a + b) + (Zeros(nuls) + Spaces(c)))
  {
  }

  lemma LowFirst(a: nat, d: Bytes, b: nat, nuls: nat, c: nat)
    requires IsText(d)
    ensures var field := Spaces(a) + ((d + Spaces(b) + Zeros(nuls)) + Spaces(c)); field != [] ==> field[0] < 128
  {
  }

  lemma TrimmedReads(field: Bytes, d: Bytes)
    requires (field != [] ==> field[0] < 128) && Trim(StripNuls(Trim(field))) == d
    requires (forall i :: 0 <= i < |d| ==> 48 <= d[i] < 56) && DigitsValue(d, 8) <= MAX_SAFE
    ensures ParseNumeric(field) == Ok(DigitsValue(d, 8))
  {
    hide Trim, StripNuls, DigitsValue, OctalFront;
    FrontOfDigits(d);
    NoDigits();
  }

  lemma NoDigits()
    ensures DigitsValue([], 8) == 0
  {
  }

  lemma BlankReads(a: nat, nuls: nat, c: nat)
    ensures Trim(StripNuls(Trim(Spaces(a) + (Zeros(nuls) + Spaces(c))))) == []
  {
    hide Trim, StripNuls;
    TrimsBoth(a, Zeros(nuls), c);
    assert [] + Zeros(nuls) == Zeros(nuls);
    StripsZeros([], nuls);
    assert Spaces(0) + ([] + Spaces(0)) == [];
    TrimsBoth(0, [], 0);
  }

  /** GNU base-256: twelve big-endian bytes, the first bit set. */
  function BinaryField(n: nat): (f: Bytes)
    requires n < 128 * Pow256(11)
    ensures |f| == 12
  {
    HighBitFree(n);
    var b := BeBytes(n, 12);
    [b[0] + 128] + b[1..]
  }

  lemma {:induction false} BeNatHead(b: byte, rest: Bytes)
    ensures BeNat([b] + rest) == b * Pow256(|rest|) + BeNat(rest)
    decreases |rest|
  {
    hide BeNat, Pow256;
    if rest == [] {
      OneByte(b);
      assert [b] + rest == [b];
    } else {
      HeadSnoc(b, rest);
      ThroughAll(b, Pow256(|rest| - 1), 256);
      BeNatSnoc([b] + rest);
      BeNatSnoc(rest);
      BeNatHead(b, Init(rest));
    }
  }

  lemma OneByte(b: byte)
    ensures BeNat([b]) == b && BeNat([]) == 0 && Pow256(0) == 1
  {
    assert Init([b]) == [];
  }

  lemma BeNatSnoc(bs: Bytes)
    requires bs != []
    ensures BeNat(bs) == 256 * BeNat(Init(bs)) + Last(bs) && Pow256(|bs|) == 256 * Pow256(|bs| - 1)
  {
  }

  lemma HeadSnoc(b: byte, rest: Bytes)
    requires rest != []
    ensures Init([b] + rest) == [b] + Init(rest) && Last([b] + rest) == Last(rest)
  {
  }

  lemma ThroughAll(b: nat, p: nat, k: nat)
    ensures b * (k * p) == k * (b * p)
  {
  }

  lemma HighBitFree(n: nat)
    requires n < 128 * Pow256(11)
    ensures BeBytes(n, 12)[0] < 128
  {
    hide Pow256, BeBytes, BeNat;
    var b := BeBytes(n, 12);
    Pow12();
    BeNatOfBeBytes(n, 12);
    assert b == [b[0]] + b[1..];
    BeNatHead(b[0], b[1..]);
    FewerTimes(b[0], Pow256(11), n);
  }

  lemma FewerTimes(k: nat, p: nat, n: nat)
    requires k * p <= n < 128 * p
    ensures k < 128
  {
    assert (k - 128) * p == k * p - 128 * p;
    assert k >= 128 ==> (k - 128) * p >= 0;
  }

  lemma Pow12()
    ensures Pow256(12) == 256 * Pow256(11) && 128 * Pow256(11) < Pow256(12)
  {
  }

  /** A base-256 field is read as its number, and refused when that is more than a safe integer. */
  lemma BinaryReads(n: nat)
    requires n < 128 * Pow256(11)
    ensures ParseNumeric(BinaryField(n)) == if n <= MAX_SAFE then Ok(n) else Err
  {
    hide Pow256, BeBytes, BeNat;
    var b, f := BeBytes(n, 12), BinaryField(n);
    Pow12();
    BeNatOfBeBytes(n, 12);
    HighBitFree(n);
    assert [f[0] - 128] + f[1..] == b;
  }
}
