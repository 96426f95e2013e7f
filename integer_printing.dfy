/**
 * `print_integer` and `print_uinteger` of jsoncons/json_output_handler.hpp:
 * write the decimal text of a 64-bit integer to a writer. Both fill a
 * character buffer with the digits least significant first (a do-while
 * loop, so zero still gives one digit) and then put the buffer to the
 * writer backwards. The writer is the text it has received so far; a
 * `put` appends one character.
 *
 * The specification of the text is `Decimal` (and `IntegerText` for signed
 * values); `DecimalValue`/`ParseInteger` read such text back, and the lemmas
 * prove the round trips both ways, the digit alphabet, the absence of
 * leading zeros, the sign rule and the 20-digit bound.
 */
module IntegerPrinting {
  import opened Numerics

  /** The size of the on-stack buffer `char_type buf[255]`. */
  const BUFFER_SIZE: nat := 255

  // ---------------------------------------------------------------------
  // Digits and decimal text

  predicate IsDigit(c: char) {
    '0' <= c <= '9'
  }

  /** `static_cast<char_type>(48 + d)` for a digit value `d`. */
  function DigitChar(d: nat): (c: char)
    requires d < 10
    ensures IsDigit(c)
    ensures c as int - 48 == d
  {
    (48 + d) as char
  }

  function DigitValue(c: char): int {
    c as int - 48
  }

  /** The decimal text of `n`: most significant digit first, no leading zero, "0" for zero. */
  function Decimal(n: nat): (s: string)
    ensures |s| >= 1
    decreases n
  {
    if n < 10 then [DigitChar(n)] else Decimal(n / 10) + [DigitChar(n % 10)]
  }

  /** The value of a digit string, read most significant digit first. */
  function DecimalValue(s: string): int
    decreases |s|
  {
    if s == [] then 0 else DecimalValue(s[..|s| - 1]) * 10 + DigitValue(s[|s| - 1])
  }

  /** The text `print_integer` writes: a minus sign for a negative value, then the digits of the magnitude. */
  function IntegerText(v: int): (t: string)
    ensures |t| >= 1 && (t[0] == '-' <==> v < 0)
  {
    if v < 0 then "-" + Decimal(-v)
    else
      DecimalDigits(v);
      Decimal(v)
  }

  /** Reads signed decimal text: an optional leading '-' and then digits. */
  function ParseInteger(s: string): int {
    if |s| > 0 && s[0] == '-' then -DecimalValue(s[1..]) else DecimalValue(s)
  }

  /** `s` backwards. */
  function Reverse(s: string): (r: string)
    ensures |r| == |s|
    decreases |s|
  {
    if s == [] then [] else [s[|s| - 1]] + Reverse(s[..|s| - 1])
  }

  function Pow10(k: nat): (p: nat)
    ensures p >= 1
  {
    if k == 0 then 1 else 10 * Pow10(k - 1)
  }

  // ---------------------------------------------------------------------
  // The magnitude as `print_integer` computes it

  /** Two's-complement negation of a 64-bit value: the negation of the least value wraps to itself. */
  function WrappingNegate(v: int64): (r: int64)
    ensures (r as int + v as int) % TWO_TO_THE_64 == 0
  {
    if v == -TWO_TO_THE_63 then v else -v
  }

  /** `static_cast<uint64_t>` of a 64-bit signed value: a negative value gains 2^64. */
  function ToUnsigned(v: int64): (u: uint64)
    ensures (u as int - v as int) % TWO_TO_THE_64 == 0
  {
    if v < 0 then v + TWO_TO_THE_64 else v
  }

  /**
   * `(value < 0) ? static_cast<uint64_t>(-value) : static_cast<uint64_t>(value)`.
   * The magnitude is exact for every value, the least one included: its
   * negation wraps back to itself, and the cast turns that into 2^63.
   */
  function Magnitude(value: int64): (u: uint64)
    ensures u == if value < 0 then -(value as int) else value as int
  {
    if value < 0 then ToUnsigned(WrappingNegate(value)) else ToUnsigned(value)
  }

  // ---------------------------------------------------------------------
  // The printing routines

  /**
   * The do-while loop of both routines: store the digits of `value` in
   * `buf`, least significant first, and return how many were stored.
   */
  method FillDigits(buf: array<char>, value: uint64) returns (p: nat)
    requires buf.Length == BUFFER_SIZE
    modifies buf
    ensures p <= 20
    ensures buf[..p] == Reverse(Decimal(value))
  {
    UInt64Digits(value);
    var u: nat := value;
    p := 0;
    while true
      invariant p <= |Decimal(value)|
      invariant Decimal(value) == Decimal(u) + Reverse(buf[..p])
      decreases u
    {
      ghost var written := buf[..p];
      DigitStep(Decimal(value), u, written);
      buf[p] := DigitChar(u % 10);
      p := p + 1;
      assert buf[..p] == written + [DigitChar(u % 10)];
      u := u / 10;
      if u == 0 {
        break;
      }
    }
    ReverseReverse(buf[..p]);
  }

  /**
   * One turn of the do-while: with `text` split as the digits of `u`
   * followed by the reversed digits written so far, writing `u % 10` and
   * dividing by 10 keeps the split (the digits of 0 being none).
   */
  lemma DigitStep(text: string, u: nat, written: string)
    requires text == Decimal(u) + Reverse(written)
    ensures u / 10 == 0 ==> text == Reverse(written + [DigitChar(u % 10)])
    ensures u / 10 != 0 ==> text == Decimal(u / 10) + Reverse(written + [DigitChar(u % 10)])
  {
    var d := DigitChar(u % 10);
    ReverseSnoc(written, d);
    if u < 10 {
      assert Decimal(u) == [d];
    } else {
      assert Decimal(u) == Decimal(u / 10) + [d];
      assert text == Decimal(u / 10) + ([d] + Reverse(written));
    }
  }

  /** The backwards walk `while (--p >= buf) os.put(*p)`: put `buf[p-1]`, ..., `buf[0]`. */
  method PutBackwards(buf: array<char>, p: nat, os: string) returns (out: string)
    requires p <= buf.Length
    ensures out == os + Reverse(buf[..p])
  {
    out := os;
    var q: nat := p;
    while q > 0
      invariant q <= p
      invariant out == os + Reverse(buf[q..p])
    {
      q := q - 1;
      assert buf[q..p] == [buf[q]] + buf[q + 1..p];
      ReverseCons(buf[q], buf[q + 1..p]);
      out := out + [buf[q]];
    }
    assert buf[..p] == buf[0..p];
  }

  /** `print_uinteger(value, os)`: `os` receives the decimal text of `value`. */
  method PrintUInteger(value: uint64, os: string) returns (out: string)
    ensures out == os + Decimal(value)
  {
    var buf := new char[BUFFER_SIZE];
    var p := FillDigits(buf, value);
    out := PutBackwards(buf, p, os);
    ReverseReverse(Decimal(value));
  }

  /** `print_integer(value, os)`: `os` receives '-' for a negative value, then the digits of its magnitude. */
  method PrintInteger(value: int64, os: string) returns (out: string)
    ensures out == os + IntegerText(value)
  {
    var buf := new char[BUFFER_SIZE];
    var u := Magnitude(value);
    var p := FillDigits(buf, u);
    ReverseReverse(Decimal(u));
    out := os;
    if value < 0 {
      out := out + ['-'];
    }
    ghost var signed := out;
    out := PutBackwards(buf, p, out);
    assert out == signed + Decimal(u);
    if value < 0 {
      assert IntegerText(value) == "-" + Decimal(u);
      assert out == os + (['-'] + Decimal(u));
    }
  }

  // ---------------------------------------------------------------------
  // Facts about the text

  lemma ReverseSnoc(s: string, c: char)
    ensures Reverse(s + [c]) == [c] + Reverse(s)
  {
    assert (s + [c])[..|s|] == s;
  }

  lemma {:induction false} ReverseCons(c: char, s: string)
    ensures Reverse([c] + s) == Reverse(s) + [c]
    decreases |s|
  {
    if s == [] {
      assert [c] + s == [c];
    } else {
      var init := s[..|s| - 1];
      assert ([c] + s)[..|s|] == [c] + init;
      ReverseCons(c, init);
    }
  }

  lemma {:induction false} ReverseReverse(s: string)
    ensures Reverse(Reverse(s)) == s
    decreases |s|
  {
    if s != [] {
      var init := s[..|s| - 1];
      ReverseCons(s[|s| - 1], Reverse(init));
      ReverseReverse(init);
      assert init + [s[|s| - 1]] == s;
    }
  }

  /** Reading the text back gives the number: `Decimal` loses nothing. */
  lemma {:induction false} DecimalRoundTrip(n: nat)
    ensures DecimalValue(Decimal(n)) == n
    decreases n
  {
    if n >= 10 {
      var s := Decimal(n);
      assert s[..|s| - 1] == Decimal(n / 10);
      DecimalRoundTrip(n / 10);
    }
  }

  /** Every character of the text is one of '0'..'9'. */
  lemma {:induction false} DecimalDigits(n: nat)
    ensures forall i :: 0 <= i < |Decimal(n)| ==> IsDigit(Decimal(n)[i])
    decreases n
  {
    if n >= 10 {
      DecimalDigits(n / 10);
    }
  }

  /** Zero is written as the single digit "0", and no other number starts with '0'. */
  lemma {:induction false} NoLeadingZero(n: nat)
    ensures n == 0 ==> Decimal(n) == "0"
    ensures Decimal(n)[0] == '0' <==> n == 0
    decreases n
  {
    if n >= 10 {
      NoLeadingZero(n / 10);
    }
  }

  lemma {:induction false} DecimalLength(n: nat, k: nat)
    requires 1 <= k && n < Pow10(k)
    ensures |Decimal(n)| <= k
    decreases k
  {
    if n >= 10 {
      assert k >= 2;
      DecimalLength(n / 10, k - 1);
    }
  }

  /** The printed digits of any 64-bit magnitude fit in 20 characters (well within the 255-slot buffer). */
  lemma UInt64Digits(value: uint64)
    ensures |Decimal(value)| <= 20
  {
    assert Pow10(5) == 100_000;
    assert Pow10(10) == 100_000 * 100_000;
    assert Pow10(15) == 100_000 * 100_000 * 100_000;
    assert Pow10(20) == 100_000 * 100_000 * 100_000 * 100_000;
    DecimalLength(value, 20);
  }

  /** A digit string that does not start with '0' has a positive value. */
  lemma {:induction false} LeadingDigitPositive(s: string)
    requires |s| >= 1 && s[0] != '0'
    requires forall i :: 0 <= i < |s| ==> IsDigit(s[i])
    ensures DecimalValue(s) > 0
    decreases |s|
  {
    if |s| > 1 {
      LeadingDigitPositive(s[..|s| - 1]);
    }
  }

  /**
   * The other round trip: every canonical digit string (digits only, no
   * leading zero unless it is "0") is the text of its own value, so
   * `Decimal` is onto the canonical strings.
   */
  lemma {:induction false} DecimalCanonical(s: string)
    requires |s| >= 1 && (s[0] != '0' || s == "0")
    requires forall i :: 0 <= i < |s| ==> IsDigit(s[i])
    ensures DecimalValue(s) >= 0 && Decimal(DecimalValue(s)) == s
    decreases |s|
  {
    var last := s[|s| - 1];
    if |s| == 1 {
      assert s == [last];
      assert DecimalValue(s) == DigitValue(last);
    } else {
      var init := s[..|s| - 1];
      LeadingDigitPositive(init);
      DecimalCanonical(init);
      var v := DecimalValue(s);
      assert v == DecimalValue(init) * 10 + DigitValue(last);
      assert v / 10 == DecimalValue(init) && v % 10 == DigitValue(last);
      assert s == init + [last];
    }
  }

  /** `print_integer` writes '-' exactly for negative values, and reading its text back gives the value. */
  lemma IntegerTextRoundTrip(v: int)
    ensures |IntegerText(v)| >= 1
    ensures IntegerText(v)[0] == '-' <==> v < 0
    ensures ParseInteger(IntegerText(v)) == v
  {
    if v < 0 {
      assert IntegerText(v)[1..] == Decimal(-v);
      DecimalRoundTrip(-v);
    } else {
      DecimalDigits(v);
      DecimalRoundTrip(v);
    }
  }

  /** Distinct values give distinct text. */
  lemma IntegerTextInjective(a: int, b: int)
    requires IntegerText(a) == IntegerText(b)
    ensures a == b
  {
    IntegerTextRoundTrip(a);
    IntegerTextRoundTrip(b);
  }
}
