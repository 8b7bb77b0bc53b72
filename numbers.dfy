// Decimal integers as the handlers read and write them: strconv.Atoi for
// query and path parameters, and the %d verb of fmt.Sprintf that
// GenerateUniqueSlug uses. Go's int is 64 bits wide on the platforms the
// service runs on.

module Numbers {
  import opened Common
  import Text

  const MinInt64: int := -0x8000_0000_0000_0000
  const MaxInt64: int := 0x7fff_ffff_ffff_ffff

  predicate IsInt64(n: int) {
    MinInt64 <= n <= MaxInt64
  }

  predicate AllDigits(s: string) {
    forall k :: 0 <= k < |s| ==> Text.IsAsciiDigit(s[k])
  }

  function DigitValue(c: char): nat
    requires Text.IsAsciiDigit(c)
  {
    c as int - '0' as int
  }

  /** The number a string of decimal digits denotes (leading zeros allowed). */
  function DigitsValue(s: string): nat
    requires AllDigits(s)
  {
    if |s| == 0 then 0 else DigitsValue(s[..|s| - 1]) * 10 + DigitValue(s[|s| - 1])
  }

  /** strconv.Atoi: an optional '+' or '-', then at least one decimal digit,
      and nothing else; a value outside the 64-bit range is a range error. */
  function Atoi(s: string): (r: Option<int>)
    ensures r.Some? ==> IsInt64(r.value) && |s| > 0
    ensures r.Some? && r.value < 0 ==> s[0] == '-'
  {
    if |s| == 0 then None
    else
      var signed := s[0] == '+' || s[0] == '-';
      var body := if signed then s[1..] else s;
      if |body| == 0 || !AllDigits(body) then None
      else
        var mag: int := DigitsValue(body);
        var v: int := if s[0] == '-' then -mag else mag;
        if IsInt64(v) then Some(v) else None
  }

  /** Up to 18 plain digits are read back as their decimal value. */
  lemma AtoiDigits(s: string)
    requires 0 < |s| <= 18 && AllDigits(s)
    ensures Atoi(s) == Some(DigitsValue(s))
  {
    DigitsBound(s);
  }

  /** Fewer than 19 digits always fit in 64 bits. */
  lemma {:induction false} DigitsBound(s: string)
    requires AllDigits(s)
    ensures DigitsValue(s) < Pow10(|s|)
    ensures |s| <= 18 ==> DigitsValue(s) <= MaxInt64
  {
    if |s| > 0 {
      DigitsBound(s[..|s| - 1]);
    }
    if |s| <= 18 {
      Pow10Monotone(|s|, 18);
      Pow10Of18();
    }
  }

  function Pow10(k: nat): nat
  {
    if k == 0 then 1 else 10 * Pow10(k - 1)
  }

  lemma Pow10Of18()
    ensures Pow10(18) == 1_000_000_000_000_000_000
  {
    assert Pow10(1) == 10;
    assert Pow10(2) == 100;
    assert Pow10(3) == 1000;
    assert Pow10(4) == 10000;
    assert Pow10(5) == 100000;
    assert Pow10(6) == 1000000;
    assert Pow10(7) == 10000000;
    assert Pow10(8) == 100000000;
    assert Pow10(9) == 1000000000;
    assert Pow10(10) == 10000000000;
    assert Pow10(11) == 100000000000;
    assert Pow10(12) == 1000000000000;
    assert Pow10(13) == 10000000000000;
    assert Pow10(14) == 100000000000000;
    assert Pow10(15) == 1000000000000000;
    assert Pow10(16) == 10000000000000000;
    assert Pow10(17) == 100000000000000000;
    assert Pow10(18) == 1000000000000000000;
  }

  lemma {:induction false} Pow10Monotone(i: nat, j: nat)
    requires i <= j
    ensures Pow10(i) <= Pow10(j)
    decreases j
  {
    if i < j {
      Pow10Monotone(i, j - 1);
    }
  }

  /** The shortest decimal spelling of a natural number. */
  function NatDigits(n: nat): (s: string)
    ensures |s| > 0 && AllDigits(s)
    ensures DigitsValue(s) == n
    ensures s[0] != '0' || n == 0
  {
    if n < 10 then [('0' as int + n) as char]
    else
      var front := NatDigits(n / 10);
      var s := front + [('0' as int + n % 10) as char];
      assert s[..|s| - 1] == front;
      s
  }

  /** The %d spelling of an integer: '-' before the digits of a negative one. */
  function Itoa(n: int): (s: string)
    ensures |s| > 0
    ensures n >= 0 ==> AllDigits(s)
    ensures n < 0 ==> s[0] == '-' && |s| > 1 && AllDigits(s[1..])
  {
    if n >= 0 then NatDigits(n) else "-" + NatDigits(-n)
  }

  /** Parsing what %d printed gives the number back, for every 64-bit value. */
  lemma AtoiItoa(n: int)
    requires IsInt64(n)
    ensures Atoi(Itoa(n)) == Some(n)
  {
    var s := Itoa(n);
    if n < 0 {
      assert s[1..] == NatDigits(-n);
    } else {
      assert s[0] != '+' && s[0] != '-';
    }
  }

  /** A numeric query parameter the handlers accept only when it parses
      and is positive; 0 stands for "not given", so the caller's default
      applies. */
  function PositiveParam(s: string): (n: nat)
    ensures n > 0 <==> Atoi(s).Some? && Atoi(s).value > 0
    ensures n > 0 ==> Atoi(s) == Some(n as int)
  {
    match Atoi(s)
    case Some(v) => if v > 0 then v else 0
    case None => 0
  }
}
