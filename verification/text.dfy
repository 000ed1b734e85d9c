/** Character classes, the 32-bit `int` range, and the decimal conversions the
    compiler relies on: `std::stoi` when the parser reads a constant, and
    `std::to_string` / `operator<<` when the printers render one. */
module Text {
  import opened Results

  /** `std::isspace` in the "C" locale: space, \t, \n, \v, \f, \r. The
      model works on characters where the C++ code reads bytes; the two agree
      on ASCII text. */
  predicate IsSpace(c: char) {
    c == ' ' || c == '\t' || c == '\n' || c == '\U{B}' || c == '\U{C}' || c == '\r'
  }

  predicate IsDigit(c: char) {
    '0' <= c <= '9'
  }

  predicate IsLetter(c: char) {
    'a' <= c <= 'z' || 'A' <= c <= 'Z'
  }

  /** The regex class `\w`. */
  predicate IsWordChar(c: char) {
    IsLetter(c) || IsDigit(c) || c == '_'
  }

  /** The regex class `[a-zA-Z_]`. */
  predicate IsIdentStart(c: char) {
    IsLetter(c) || c == '_'
  }

  predicate AllDigits(s: string) {
    forall i :: 0 <= i < |s| ==> IsDigit(s[i])
  }

  /** The end of the longest run of characters satisfying `p` that starts at `i`. */
  function SpanEnd(s: string, i: nat, p: char -> bool): (e: nat)
    requires i <= |s|
    ensures i <= e <= |s|
    ensures forall k :: i <= k < e ==> p(s[k])
    ensures e == |s| || !p(s[e])
    decreases |s| - i
  {
    if i == |s| || !p(s[i]) then i else SpanEnd(s, i + 1, p)
  }

  /** The run is determined by its end: any `e` with the three properties is it. */
  lemma SpanEndUnique(s: string, i: nat, p: char -> bool, e: nat)
    requires i <= e <= |s|
    requires forall k :: i <= k < e ==> p(s[k])
    requires e == |s| || !p(s[e])
    ensures SpanEnd(s, i, p) == e
  {
  }

  // ---------------------------------------------------------------------------
  // The C++ `int` type (32-bit two's complement on the target)

  const MinInt32: int := -0x8000_0000
  const MaxInt32: int := 0x7FFF_FFFF

  type Int32 = x: int | MinInt32 <= x <= MaxInt32

  // ---------------------------------------------------------------------------
  // Decimal digits

  function DigitValue(c: char): (d: nat)
    requires IsDigit(c)
    ensures d < 10
  {
    (c as int) - ('0' as int)
  }

  function DigitChar(d: nat): (c: char)
    requires d < 10
    ensures IsDigit(c) && DigitValue(c) == d
  {
    (('0' as int) + d) as char
  }

  /** The number a string of decimal digits denotes, most significant digit first. */
  function DecimalValue(s: string): nat
    requires AllDigits(s)
  {
    if |s| == 0 then 0 else DecimalValue(s[..|s| - 1]) * 10 + DigitValue(s[|s| - 1])
  }

  /** `std::to_string` of a non-negative number: its canonical decimal digits. */
  function NatToString(n: nat): (r: string)
    ensures 1 <= |r| && AllDigits(r)
    ensures |r| > 1 ==> r[0] != '0'
  {
    if n < 10 then [DigitChar(n)] else NatToString(n / 10) + [DigitChar(n % 10)]
  }

  /** `std::to_string` / `operator<<` of a signed integer. */
  function IntToString(v: int): string
  {
    if v < 0 then "-" + NatToString(-v) else NatToString(v)
  }

  lemma {:induction false} NatToStringRoundTrip(n: nat)
    ensures DecimalValue(NatToString(n)) == n
  {
    var s := NatToString(n);
    if n >= 10 {
      assert s[..|s| - 1] == NatToString(n / 10);
      NatToStringRoundTrip(n / 10);
    }
  }

  // ---------------------------------------------------------------------------
  // std::stoi

  datatype ConversionError =
    | InvalidArgument   // std::invalid_argument: no digits to convert
    | OutOfRange        // std::out_of_range: the value does not fit an `int`

  /** `std::stoi(t)` in base 10: leading white space is skipped, an optional sign
      is read, then the longest run of digits; the rest of `t` is ignored. */
  function StoI(t: string): (r: Result<int, ConversionError>)
    ensures r.Ok? ==> MinInt32 <= r.value <= MaxInt32
  {
    var i := SpanEnd(t, 0, IsSpace);
    var negative := i < |t| && t[i] == '-';
    var j := if i < |t| && (t[i] == '-' || t[i] == '+') then i + 1 else i;
    var e := SpanEnd(t, j, IsDigit);
    if e == j then Err(InvalidArgument)
    else
      var magnitude: int := DecimalValue(t[j..e]);
      var v: int := if negative then -magnitude else magnitude;
      if v < MinInt32 || v > MaxInt32 then Err(OutOfRange) else Ok(v)
  }

  /** On a non-empty digit string (every CONSTANT token the lexer produces),
      `stoi` yields the number the digits denote, or fails with out_of_range. */
  lemma StoIOfDigits(d: string)
    requires 1 <= |d| && AllDigits(d)
    ensures StoI(d) == if DecimalValue(d) <= MaxInt32 then Ok(DecimalValue(d)) else Err(OutOfRange)
  {
    assert SpanEnd(d, 0, IsSpace) == 0;
    assert SpanEnd(d, 0, IsDigit) == |d|;
    assert d[0..|d|] == d;
  }

  /** Rendering an `int` and reading it back with `stoi` gives the same `int`. */
  lemma IntToStringRoundTrip(v: Int32)
    ensures StoI(IntToString(v)) == Ok(v)
  {
    if v < 0 {
      var m := NatToString(-(v as int));
      var t := "-" + m;
      NatToStringRoundTrip(-(v as int));
      assert SpanEnd(t, 0, IsSpace) == 0;
      assert SpanEnd(t, 1, IsDigit) == |t| by {
        assert forall k :: 1 <= k < |t| ==> t[k] == m[k - 1];
      }
      assert t[1..|t|] == m;
    } else {
      NatToStringRoundTrip(v);
      StoIOfDigits(NatToString(v));
    }
  }

  /** Distinct integers render to distinct texts. */
  lemma IntToStringInjective(v: Int32, w: Int32)
    requires IntToString(v) == IntToString(w)
    ensures v == w
  {
    IntToStringRoundTrip(v);
    IntToStringRoundTrip(w);
  }

  // ---------------------------------------------------------------------------
  // Indentation of the debug dumps

  /** `indentString(n)`: two spaces per level. */
  function Indent(n: nat): (r: string)
    ensures |r| == 2 * n
    ensures forall i :: 0 <= i < |r| ==> r[i] == ' '
  {
    seq(2 * n, _ => ' ')
  }

  /** `r` starts with exactly `n` levels of indentation: `2 * n` spaces and
      then a character that is not a space. */
  predicate HasIndent(r: string, n: nat)
  {
    |r| > 2 * n && (forall k :: 0 <= k < 2 * n ==> r[k] == ' ') && r[2 * n] != ' '
  }
}
