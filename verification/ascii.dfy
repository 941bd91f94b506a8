/** Bytes on the serial wire and the decimal text of the 8-byte numeric fields. */
module Ascii {
  import opened Wrappers

  newtype byte = x: int | 0 <= x < 256

  /** '\n', the end of a line for `readline`. */
  const NL: byte := 10
  /** '-', the sign of a negative numeral. */
  const MINUS: byte := 45
  /** '0'; the digits '0'..'9' are the ten codes from here on. */
  const ZERO: byte := 48

  /** Every field of the wire format is read with `read(8)`. */
  const FIELD_WIDTH: nat := 8

  predicate IsDigit(b: byte) {
    ZERO <= b <= ZERO + 9
  }

  predicate AllDigits(s: seq<byte>) {
    forall i :: 0 <= i < |s| ==> IsDigit(s[i])
  }

  /** The numerals this model accepts: one or more digits, optionally after a single '-'. */
  predicate IsNumeral(f: seq<byte>) {
    || (|f| > 0 && AllDigits(f))
    || (|f| > 1 && f[0] == MINUS && AllDigits(f[1..]))
  }

  function Pow10(k: nat): (r: nat)
    ensures r >= 1
  {
    if k == 0 then 1 else 10 * Pow10(k - 1)
  }

  /** The integers whose numeral fits in one field: eight digits, or '-' and seven digits. */
  predicate Fits(n: int) {
    -9_999_999 <= n <= 99_999_999
  }

  lemma Pow10OfField()
    ensures Pow10(FIELD_WIDTH - 1) == 10_000_000 && Pow10(FIELD_WIDTH) == 100_000_000
  {
  }

  function DigitValue(b: byte): (d: nat)
    requires IsDigit(b)
    ensures d < 10
  {
    (b - ZERO) as nat
  }

  function DigitChar(d: nat): (b: byte)
    requires d < 10
    ensures IsDigit(b) && DigitValue(b) == d
  {
    ZERO + d as byte
  }

  /** The number a string of decimal digits denotes, most significant digit first. */
  function Value(s: seq<byte>): (n: nat)
    requires AllDigits(s)
    ensures n < Pow10(|s|)
  {
    if |s| == 0 then 0
    else
      var init := s[..|s| - 1];
      var n0 := Value(init);
      assert n0 * 10 <= (Pow10(|init|) - 1) * 10;
      n0 * 10 + DigitValue(s[|s| - 1])
  }

  /** The shortest decimal numeral of `n`: no leading zeros except for `n == 0` itself. */
  function Digits(n: nat): (s: seq<byte>)
    ensures |s| >= 1 && AllDigits(s)
    ensures |s| > 1 ==> s[0] != ZERO
  {
    if n < 10 then [DigitChar(n)] else Digits(n / 10) + [DigitChar(n % 10)]
  }

  function Zeros(k: nat): (s: seq<byte>)
    ensures |s| == k && AllDigits(s)
    ensures forall i :: 0 <= i < k ==> s[i] == ZERO
  {
    seq(k, _ => ZERO)
  }

  /** Left-pads a numeral with '0' to width `w`. */
  function Pad(s: seq<byte>, w: nat): (p: seq<byte>)
    requires |s| <= w && AllDigits(s)
    ensures |p| == w && AllDigits(p)
    ensures p[w - |s|..] == s
  {
    Zeros(w - |s|) + s
  }

  /** `int(field)` for the numerals of `IsNumeral`; `None` is the exception that ends the
      reader thread. */
  function DecodeInt(f: seq<byte>): (r: Option<int>)
    ensures r.Some? <==> IsNumeral(f)
    ensures r.Some? && r.value < 0 ==> f[0] == MINUS
    ensures r.Some? && f[0] != MINUS ==> r.value >= 0 && r.value < Pow10(|f|)
    ensures r.Some? && f[0] == MINUS ==> r.value <= 0 && -r.value < Pow10(|f| - 1)
  {
    if |f| > 0 && f[0] == MINUS then
      if |f| > 1 && AllDigits(f[1..]) then Some(-(Value(f[1..]) as int)) else None
    else if |f| > 0 && AllDigits(f) then Some(Value(f))
    else None
  }

  /** The field a well-behaved sender writes for `n`: zero-padded to eight bytes. */
  function EncodeInt(n: int): (f: seq<byte>)
    requires Fits(n)
    ensures |f| == FIELD_WIDTH && IsNumeral(f)
    ensures NL !in f
  {
    Pow10OfField();
    if n >= 0 then
      DigitsFit(n, FIELD_WIDTH);
      Pad(Digits(n), FIELD_WIDTH)
    else
      DigitsFit(-n, FIELD_WIDTH - 1);
      var p := Pad(Digits(-n), FIELD_WIDTH - 1);
      assert ([MINUS] + p)[1..] == p;
      [MINUS] + p
  }

  lemma {:induction false} DigitsFit(n: nat, w: nat)
    requires 1 <= w && n < Pow10(w)
    ensures |Digits(n)| <= w
    decreases w
  {
    if n >= 10 {
      assert w > 1;
      DigitsFit(n / 10, w - 1);
    }
  }

  lemma {:induction false} ValueOfDigits(n: nat)
    ensures Value(Digits(n)) == n
    decreases n
  {
    if n >= 10 {
      var d := Digits(n);
      assert d[..|d| - 1] == Digits(n / 10);
      ValueOfDigits(n / 10);
    }
  }

  lemma {:induction false} ValueOfZeros(k: nat)
    ensures Value(Zeros(k)) == 0
  {
    if k > 0 {
      assert Zeros(k)[..k - 1] == Zeros(k - 1);
      ValueOfZeros(k - 1);
    }
  }

  /** Leading zeros do not change the value of a numeral. */
  lemma {:induction false} ValueIgnoresLeadingZeros(k: nat, s: seq<byte>)
    requires AllDigits(s)
    ensures Value(Zeros(k) + s) == Value(s)
    decreases |s|
  {
    if |s| == 0 {
      assert Zeros(k) + s == Zeros(k);
      ValueOfZeros(k);
    } else {
      var z := Zeros(k) + s;
      assert z[..|z| - 1] == Zeros(k) + s[..|s| - 1];
      ValueIgnoresLeadingZeros(k, s[..|s| - 1]);
    }
  }

  /** Whatever an 8-byte field decodes to fits in a field. */
  lemma DecodedFits(f: seq<byte>)
    requires |f| == FIELD_WIDTH && DecodeInt(f).Some?
    ensures Fits(DecodeInt(f).value)
  {
    Pow10OfField();
  }

  lemma DecodeUnsigned(f: seq<byte>)
    requires |f| > 0 && AllDigits(f)
    ensures DecodeInt(f) == Some(Value(f))
  {
    assert IsDigit(f[0]);
  }

  lemma DecodeSigned(f: seq<byte>)
    requires |f| > 1 && f[0] == MINUS && AllDigits(f[1..])
    ensures DecodeInt(f) == Some(-(Value(f[1..]) as int))
  {
  }

  /** Round trip: every integer that fits a field is read back as itself. */
  lemma DecodeEncode(n: int)
    requires Fits(n)
    ensures DecodeInt(EncodeInt(n)) == Some(n)
  {
    Pow10OfField();
    var f := EncodeInt(n);
    if n >= 0 {
      DigitsFit(n, FIELD_WIDTH);
      var d := Digits(n);
      assert f == Zeros(FIELD_WIDTH - |d|) + d;
      ValueIgnoresLeadingZeros(FIELD_WIDTH - |d|, d);
      ValueOfDigits(n);
      DecodeUnsigned(f);
    } else {
      DigitsFit(-n, FIELD_WIDTH - 1);
      var d := Digits(-n);
      var p := Zeros(FIELD_WIDTH - 1 - |d|) + d;
      assert f == [MINUS] + p;
      assert f[1..] == p;
      ValueIgnoresLeadingZeros(FIELD_WIDTH - 1 - |d|, d);
      ValueOfDigits(-n);
      DecodeSigned(f);
    }
  }
}
