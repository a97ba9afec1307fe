/** Shared vocabulary: optional and failing results, and the .NET text and
    integer conventions the collector relies on. */
module Common {

  datatype Option<+T> = None | Some(value: T)

  datatype Result<+T, +E> = Ok(value: T) | Err(error: E)

  /** The .NET exceptions that the modelled code either catches or lets escape. */
  datatype Exception =
    | NullReference
    | ArgumentNull
    | InvalidOperation
    | InvalidCast
    | ArgumentOutOfRange
    | ArgumentException
    | Overflow
    | PingFailure
    | DivideByZero
    | KeyNotFound(key: string)
    | FileNotFound
    | IOFailure
    | JsonFailure

  type byte = x: int | 0 <= x < 256

  const TwoTo32: int := 0x1_0000_0000
  const TwoTo31: int := 0x8000_0000

  type uint32 = x: int | 0 <= x < TwoTo32

  /** An explicit (int) cast from a 64-bit value: keeps the low 32 bits, two's complement. */
  function ToInt32(x: int): (r: int)
    ensures -TwoTo31 <= r < TwoTo31
    ensures -TwoTo31 <= x < TwoTo31 ==> r == x
  {
    var low := x % TwoTo32;
    if low < TwoTo31 then low else low - TwoTo32
  }

  /** The cast changes its argument by a whole number of 2^32 steps. */
  lemma ToInt32Congruent(x: int)
    ensures (ToInt32(x) - x) % TwoTo32 == 0
  {
  }

  /** C# integer division: truncates toward zero (Dafny's `/` is Euclidean). */
  function TDiv(a: int, b: int): (q: int)
    requires b != 0
    ensures a >= 0 && b > 0 ==> q == a / b
    ensures (a >= 0) == (b > 0) || q <= 0
  {
    if a >= 0 then (if b > 0 then a / b else -(a / (-b)))
    else (if b > 0 then -((-a) / b) else (-a) / (-b))
  }

  /** The quotient times the divisor lies between zero and the dividend,
      less than one divisor away from it: the quotient is rounded toward
      zero. */
  lemma TDivTruncates(a: int, b: int)
    requires b != 0
    ensures var p := TDiv(a, b) * b;
      if a >= 0 then 0 <= p <= a && a - p < (if b > 0 then b else -b)
      else a <= p <= 0 && p - a < (if b > 0 then b else -b)
  {
    var m := if a >= 0 then a else -a;
    var n := if b > 0 then b else -b;
    var d := m / n;
    EuclidBounds(m, n);
    SignProduct(a, b, d, n);
  }

  lemma EuclidBounds(m: nat, n: int)
    requires n > 0
    ensures 0 <= (m / n) * n <= m && m - (m / n) * n < n
  {
  }

  lemma SignProduct(a: int, b: int, d: int, n: int)
    requires b != 0 && n == (if b > 0 then b else -b)
    requires d == (if a >= 0 then a else -a) / n
    ensures TDiv(a, b) * b == (if a >= 0 then d * n else -(d * n))
  {
    if b < 0 {
      assert (-d) * b == d * n;
    }
  }

  function DigitChar(d: nat): char
    requires d < 10
  {
    (('0' as int) + d) as char
  }

  predicate IsDigit(c: char) { '0' <= c <= '9' }

  predicate AllDigits(s: string) { forall i :: 0 <= i < |s| ==> IsDigit(s[i]) }

  /** The invariant-culture decimal text of a non-negative integer, as `$"{n}"` prints it. */
  function DecimalText(n: nat): string
  {
    if n < 10 then [DigitChar(n)] else DecimalText(n / 10) + [DigitChar(n % 10)]
  }

  /** Decimal text is a non-empty run of digits, one digit exactly below ten. */
  lemma {:induction false} DecimalTextShape(n: nat)
    ensures var s := DecimalText(n); 1 <= |s| && AllDigits(s) && (n < 10 <==> |s| == 1)
  {
    if n >= 10 {
      DecimalTextShape(n / 10);
    }
  }

  function DigitValue(c: char): nat
    requires IsDigit(c)
  {
    (c as int) - ('0' as int)
  }

  /** Reads a run of decimal digits back into the number it denotes. */
  function ParseDecimal(s: string): nat
    requires AllDigits(s)
  {
    if |s| == 0 then 0 else 10 * ParseDecimal(s[..|s| - 1]) + DigitValue(s[|s| - 1])
  }

  lemma {:induction false} DecimalTextRoundTrip(n: nat)
    ensures AllDigits(DecimalText(n)) && ParseDecimal(DecimalText(n)) == n
  {
    var s := DecimalText(n);
    DecimalTextShape(n);
    if n >= 10 {
      DecimalTextRoundTrip(n / 10);
      assert s[..|s| - 1] == DecimalText(n / 10);
    }
  }

  function HexDigit(d: nat): char
    requires d < 16
  {
    if d < 10 then (('0' as int) + d) as char else (('A' as int) + d - 10) as char
  }

  predicate IsUpperHex(c: char) { '0' <= c <= '9' || 'A' <= c <= 'F' }

  /** `BitConverter.ToString(new byte[] { b })`: two upper-case hexadecimal digits. */
  function ByteHex(b: byte): (s: string)
    ensures |s| == 2 && IsUpperHex(s[0]) && IsUpperHex(s[1])
  {
    [HexDigit(b / 16), HexDigit(b % 16)]
  }

  function HexValue(c: char): nat
    requires IsUpperHex(c)
  {
    if c <= '9' then (c as int) - ('0' as int) else (c as int) - ('A' as int) + 10
  }

  lemma ByteHexRoundTrip(b: byte)
    ensures var s := ByteHex(b); 16 * HexValue(s[0]) + HexValue(s[1]) == b
  {
  }

  /** Number of occurrences of `c` in `s`. */
  function CountChar(s: string, c: char): (n: nat)
    ensures n <= |s|
  {
    if |s| == 0 then 0 else (if s[0] == c then 1 else 0) + CountChar(s[1..], c)
  }

  lemma {:induction false} CountCharAppend(a: string, b: string, c: char)
    ensures CountChar(a + b, c) == CountChar(a, c) + CountChar(b, c)
  {
    if |a| == 0 {
      assert a + b == b;
    } else {
      CountCharAppend(a[1..], b, c);
      assert (a + b)[1..] == a[1..] + b;
    }
  }

  /** Ordinal `StartsWith`. */
  predicate StartsWith(s: string, prefix: string)
  {
    |prefix| <= |s| && s[..|prefix|] == prefix
  }

  /** `s[i..]` begins with `pat`. */
  predicate MatchAt(s: string, pat: string, i: nat)
  {
    i + |pat| <= |s| && s[i..i + |pat|] == pat
  }

  predicate Contains(s: string, pat: string)
  {
    exists i: nat | i <= |s| :: MatchAt(s, pat, i)
  }

  /** `ToLower()` as it maps the ASCII letters under a culture without
      special casing rules. It runs under the current culture, and under a
      Turkish or Azeri culture 'I' maps to dotless 'ı' instead. */
  function Lower(s: string): (r: string)
    ensures |r| == |s|
    ensures forall i :: 0 <= i < |s| ==> (r[i] == s[i] <==> !('A' <= s[i] <= 'Z'))
  {
    seq(|s|, i requires 0 <= i < |s| =>
      if 'A' <= s[i] <= 'Z' then (s[i] as int + 32) as char else s[i])
  }
}
