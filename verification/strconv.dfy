/**
 * Go's `strconv.Atoi` on a 64-bit platform, and `strconv.Itoa` as its partner:
 * an optional sign followed by one or more ASCII decimal digits, whose value must
 * fit a signed 64-bit integer; anything else is an error.
 */
module StrConv {
  import opened Wrappers
  import opened Text

  const MinInt: int := -0x8000_0000_0000_0000
  const MaxInt: int := 0x7fff_ffff_ffff_ffff

  /** Go's `int`: 64 bits wide. */
  predicate InIntRange(n: int) { MinInt <= n <= MaxInt }

  predicate AllDigits(s: string) {
    forall i :: 0 <= i < |s| ==> IsDigitAscii(s[i])
  }

  function DigitValue(c: char): nat
    requires IsDigitAscii(c)
  {
    c as int - '0' as int
  }

  function DigitChar(d: nat): (c: char)
    requires d < 10
    ensures IsDigitAscii(c) && DigitValue(c) == d
  {
    ('0' as int + d) as char
  }

  /** The value of a run of decimal digits, most significant first. */
  function DecimalValue(ds: string): nat
    requires AllDigits(ds)
  {
    if |ds| == 0 then 0
    else DecimalValue(ds[..|ds| - 1]) * 10 + DigitValue(ds[|ds| - 1])
  }

  /** The text after an optional leading sign. */
  function Unsigned(s: string): string {
    if |s| > 0 && (s[0] == '+' || s[0] == '-') then s[1..] else s
  }

  /** The syntax `Atoi` accepts: optional sign, then at least one digit. */
  predicate IsDecimal(s: string) {
    |Unsigned(s)| > 0 && AllDigits(Unsigned(s))
  }

  /** The number a decimal text denotes, whatever its size: the digits' value, negated after a '-'. */
  function SignedValue(s: string): int
    requires IsDecimal(s)
  {
    var magnitude: int := DecimalValue(Unsigned(s));
    if s[0] == '-' then -magnitude else magnitude
  }

  /** `strconv.Atoi(s)`; `None` is a syntax or range error. */
  function Atoi(s: string): (r: Option<int>)
    ensures r.Some? <==> IsDecimal(s) && InIntRange(SignedValue(s))
    ensures r.Some? ==> r.value == SignedValue(s)
    ensures r.Some? ==> (r.value < 0 ==> s[0] == '-')
    ensures IsDecimal(s) && |Unsigned(s)| <= 18 ==> r.Some?
  {
    var body := Unsigned(s);
    if |body| == 0 || !AllDigits(body) then None
    else
      var magnitude: int := DecimalValue(body);
      assert |body| <= 18 ==> magnitude < 1_000_000_000_000_000_000 by {
        if |body| <= 18 { DecimalValueBound(body); Pow10Monotone(|body|, 18); Pow10Of18(); }
      }
      var n: int := if s[0] == '-' then -magnitude else magnitude;
      if InIntRange(n) then Some(n) else None
  }

  function Pow10(k: nat): nat {
    if k == 0 then 1 else 10 * Pow10(k - 1)
  }

  lemma {:induction false} DecimalValueBound(ds: string)
    requires AllDigits(ds)
    ensures DecimalValue(ds) < Pow10(|ds|)
    decreases |ds|
  {
    if |ds| > 0 {
      DecimalValueBound(ds[..|ds| - 1]);
    }
  }

  lemma Pow10Of18()
    ensures Pow10(18) == 1_000_000_000_000_000_000
  {
    assert Pow10(1) == 10;
    assert Pow10(2) == 100;
    assert Pow10(3) == 1000;
    assert Pow10(4) == 10000;
    assert Pow10(5) == 100000;
    assert Pow10(6) == 1000000;
    assert Pow10(7) == 10000000;
    assert Pow10(8) == 100000000;
    assert Pow10(9) == 1000000000;
    assert Pow10(10) == 10000000000;
    assert Pow10(11) == 100000000000;
    assert Pow10(12) == 1000000000000;
    assert Pow10(13) == 10000000000000;
    assert Pow10(14) == 100000000000000;
    assert Pow10(15) == 1000000000000000;
    assert Pow10(16) == 10000000000000000;
    assert Pow10(17) == 100000000000000000;
    assert Pow10(18) == 1000000000000000000;
  }

  lemma {:induction false} Pow10Monotone(j: nat, k: nat)
    requires j <= k
    ensures Pow10(j) <= Pow10(k)
    decreases k - j
  {
    if j < k {
      Pow10Monotone(j, k - 1);
    }
  }

  /** The decimal digits of a natural number, without leading zeros. */
  function NatDigits(n: nat): (ds: string)
    ensures |ds| > 0 && AllDigits(ds)
    ensures DecimalValue(ds) == n
    decreases n
  {
    if n < 10 then [DigitChar(n)]
    else
      var ds := NatDigits(n / 10) + [DigitChar(n % 10)];
      assert ds[..|ds| - 1] == NatDigits(n / 10);
      ds
  }

  /** `strconv.Itoa(n)`: a '-' for negative numbers, then the digits of the magnitude. */
  function Itoa(n: int): string {
    if n < 0 then "-" + NatDigits(-n) else NatDigits(n)
  }

  /** Formatting then parsing gives back every 64-bit integer. */
  lemma AtoiItoa(n: int)
    requires InIntRange(n)
    ensures Atoi(Itoa(n)) == Some(n)
  {
    var s := Itoa(n);
    if n < 0 {
      assert Unsigned(s) == NatDigits(-n);
    } else {
      assert s[0] != '+' && s[0] != '-';
    }
  }

  /** The sign-and-digits grammar: no empty text, no lone sign, no separators. */
  lemma AtoiRejects()
    ensures Atoi("") == None
    ensures Atoi("-") == None
    ensures Atoi("abc") == None
    ensures Atoi("1_000") == None
    ensures Atoi(" 5") == None
  {
    assert !IsDigitAscii("1_000"[1]);
    assert !IsDigitAscii(" 5"[0]);
  }

  /** A leading zero adds nothing to the value of a run of digits. */
  lemma {:induction false} DecimalValueLeadingZero(ds: string)
    requires AllDigits(ds)
    ensures AllDigits("0" + ds) && DecimalValue("0" + ds) == DecimalValue(ds)
    decreases |ds|
  {
    var zs := "0" + ds;
    assert AllDigits(zs) by {
      forall i | 0 <= i < |zs| ensures IsDigitAscii(zs[i]) {
        if i > 0 { assert zs[i] == ds[i - 1]; }
      }
    }
    if |ds| > 0 {
      var init := ds[..|ds| - 1];
      DecimalValueLeadingZero(init);
      assert zs[..|zs| - 1] == "0" + init;
      assert zs[|zs| - 1] == ds[|ds| - 1];
    }
  }

  /** `Atoi` depends only on the syntax check and on the value the text denotes. */
  lemma AtoiOfSameValue(s: string, t: string)
    requires IsDecimal(s) && IsDecimal(t) && SignedValue(s) == SignedValue(t)
    ensures Atoi(s) == Atoi(t)
  {
  }

  /** A '+' sign and a leading zero after the sign leave the parse unchanged, range errors included. */
  lemma AtoiIgnoresPlusAndZeros(ds: string)
    requires |ds| > 0 && AllDigits(ds)
    ensures Atoi("+" + ds) == Atoi(ds)
    ensures Atoi("0" + ds) == Atoi(ds)
    ensures Atoi("-0" + ds) == Atoi("-" + ds)
  {
    DecimalValueLeadingZero(ds);
    assert ds[0] != '+' && ds[0] != '-';
    assert Unsigned(ds) == ds;
    assert Unsigned("+" + ds) == ds;
    AtoiOfSameValue("+" + ds, ds);
    assert Unsigned("0" + ds) == "0" + ds;
    AtoiOfSameValue("0" + ds, ds);
    assert Unsigned("-0" + ds) == "0" + ds;
    assert Unsigned("-" + ds) == ds;
    AtoiOfSameValue("-0" + ds, "-" + ds);
  }

  lemma AtoiAccepts()
    ensures Atoi("+7") == Some(7)
    ensures Atoi("-12") == Some(-12)
    ensures Atoi("007") == Some(7)
  {
    assert Unsigned("+7") == "7";
    assert Unsigned("-12") == "12";
    assert "12"[..1] == "1";
    assert "007"[..2] == "00" && "00"[..1] == "0";
  }
}
