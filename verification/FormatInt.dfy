/** The chunk-size printer, and the number parser as its inverse. */
module FormatInt {
  import opened Bytes
  import opened HttpMachine

  /** The digit with value d. */
  function NumMap(d: nat): (c: byte)
    requires d < 16
  {
    if d == 0 then 0x30 else if d == 1 then 0x31 else if d == 2 then 0x32 else if d == 3 then 0x33
    else if d == 4 then 0x34 else if d == 5 then 0x35 else if d == 6 then 0x36 else if d == 7 then 0x37
    else if d == 8 then 0x38 else if d == 9 then 0x39 else if d == 10 then 0x61 else if d == 11 then 0x62
    else if d == 12 then 0x63 else if d == 13 then 0x64 else if d == 14 then 0x65 else 0x66
  }

  const BUFFER: nat := 10
  const MAX: int := 0x7FFF_FFFF

  predicate IsBase(base: nat) { base == 10 || base == 16 }

  /** n written in the base, most significant digit first. */
  function Digits(n: nat, base: nat): (r: Str)
    requires IsBase(base)
    ensures r != []
  {
    (if n < base then [] else Digits(n / base, base)) + [NumMap(n % base)]
  }

  lemma Division(n: nat, base: nat)
    requires IsBase(base)
    ensures n == (n / base) * base + n % base && n % base < base
    ensures n / base <= n / 10 && (n < base ==> n % base == n)
    ensures n >= base <==> n / base > 0
  {
  }

  function Power10(k: nat): (r: nat)
  {
    if k == 0 then 1 else 10 * Power10(k - 1)
  }

  lemma {:induction false} FewDigits(n: nat, base: nat, k: nat)
    requires IsBase(base) && 1 <= k && n < Power10(k)
    ensures |Digits(n, base)| <= k
  {
    hide NumMap;
    Division(n, base);
    if n >= base {
      assert n / 10 < Power10(k - 1);
      FewDigits(n / base, base, k - 1);
    }
  }

  lemma FitsBuffer(n: nat, base: nat)
    requires IsBase(base) && n <= MAX
    ensures |Digits(n, base)| <= BUFFER
  {
    assert Power10(2) == 100 && Power10(4) == 10_000 && Power10(6) == 1_000_000;
    assert Power10(8) == 100_000_000 && Power10(10) == 10_000_000_000;
    FewDigits(n, base, BUFFER);
  }

  /** formatInt: the digits are laid down backwards in a ten-byte buffer, which never
      runs out; a number outside 31 bits gives the empty string. */
  method Format(n: int, base: nat) returns (r: Str)
    requires IsBase(base)
    ensures r == if 0 <= n <= MAX then Digits(n, base) else []
  {
    hide NumMap, Digits;
    if n < 0 || n > MAX { return []; }
    var buf := new byte[BUFFER];
    var i, rest := BUFFER, n;
    FitsBuffer(n, base);
    assert buf[i..] == [];
    while true
      invariant 1 <= i <= BUFFER && 0 <= rest
      invariant |Digits(rest, base)| <= i
      invariant Digits(n, base) == Digits(rest, base) + buf[i..]
      decreases i
    {
      Division(rest, base);
      LastDigit(rest, base);
      ghost var tail := buf[i..];
      i := i - 1;
      buf[i] := NumMap(rest % base);
      assert buf[i..] == [NumMap(rest % base)] + tail;
      rest := rest / base;
      if rest <= 0 { break; }
    }
    return buf[i..];
  }

  lemma LastDigit(n: nat, base: nat)
    requires IsBase(base)
    ensures Digits(n, base) == (if n < base then [] else Digits(n / base, base)) + [NumMap(n % base)]
  {
  }

  /** A printed digit has its value, and is neither a sign nor a space. */
  lemma DigitValue(d: nat)
    requires d < 16
    ensures Digit(NumMap(d)) == Some(d) && IsHex(NumMap(d))
  {
  }

  lemma {:induction false} DigitsValue(n: nat, base: nat)
    requires IsBase(base)
    ensures Magnitude(Digits(n, base), base) == Some(n)
  {
    Division(n, base);
    var d, q := n % base, n / base;
    DigitValue(d);
    var high, value := if n < base then [] else Digits(q, base), if n < base then 0 else q;
    assert Compose(value, base, d) == n;
    assert Digits(n, base) == high + [NumMap(d)];
    hide NumMap, Digit, Compose;
    if n >= base {
      assert q < n;
      DigitsValue(q, base);
    }
    assert Magnitude(high, base) == Some(value);
    hide Digits, Magnitude;
    MagnitudeSnoc(high, NumMap(d), base);
  }

  function Compose(high: nat, base: nat, low: nat): nat { high * base + low }

  lemma {:induction false} DigitsHex(n: nat, base: nat)
    requires IsBase(base)
    ensures forall i :: 0 <= i < |Digits(n, base)| ==> IsHex(Digits(n, base)[i])
  {
    Division(n, base);
    DigitValue(n % base);
    if n >= base { DigitsHex(n / base, base); }
    hide NumMap, IsHex;
  }

  lemma MagnitudeSnoc(s: Str, c: byte, base: nat)
    requires Magnitude(s, base).Some? && Digit(c).Some? && Digit(c).value < base
    ensures Magnitude(s + [c], base) == Some(Compose(Magnitude(s, base).value, base, Digit(c).value))
  {
    assert (s + [c])[..|s|] == s;
    hide Digit;
  }

  /** The parser reads back every number the printer lays out, below the parser's cutoff. */
  lemma ParseFormat(n: nat, base: nat, cutoff: nat)
    requires IsBase(base) && n < cutoff
    ensures ParseInt(Digits(n, base), base, cutoff) == Some(n)
    ensures TrimLength(Digits(n, base)) == Digits(n, base)
  {
    DigitsValue(n, base);
    DigitsHex(n, base);
    hide Digits, Magnitude;
    var s := Digits(n, base);
    assert IsHex(s[0]) && IsHex(s[|s| - 1]);
    assert SpacesFrom(s) == |s| && s[..|s|] == s;
  }
}
