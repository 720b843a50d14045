/**
 * The small part of HTTP the downloader relies on: response status classes
 * and the `Range: bytes=<first>-` request header of section 14.2 of RFC 9110
 * (the `bytes=<first>-` form of an int-range, section 14.1.2).
 */
module Http {

  /** One octet of a response body. */
  newtype Byte = x: int | 0 <= x < 256

  datatype Option<+T> = None | Some(value: T)

  /** 206 Partial Content, section 15.3.7 of RFC 9110. */
  const PartialContent: int := 206

  /**
   * The statuses for which `Response.raise_for_status` raises an HTTPError:
   * the client-error and server-error classes.
   */
  predicate IsErrorStatus(status: int)
  {
    400 <= status < 600
  }

  predicate IsDigit(c: char)
  {
    '0' <= c <= '9'
  }

  predicate AllDigits(s: string)
  {
    forall k :: 0 <= k < |s| ==> IsDigit(s[k])
  }

  function DigitChar(d: nat): (c: char)
    requires d < 10
    ensures IsDigit(c) && c as int - '0' as int == d
  {
    ('0' as int + d) as char
  }

  /** The decimal numeral Python's str() writes for a non-negative integer. */
  function Decimal(n: nat): (s: string)
    ensures s != [] && AllDigits(s)
    ensures s[0] == '0' ==> n == 0
    decreases n
  {
    if n < 10 then [DigitChar(n)] else Decimal(n / 10) + [DigitChar(n % 10)]
  }

  /** The value of a string of decimal digits, most significant digit first. */
  function DigitsValue(s: string): nat
    requires AllDigits(s)
  {
    if s == [] then 0
    else 10 * DigitsValue(s[..|s| - 1]) + (s[|s| - 1] as int - '0' as int)
  }

  lemma {:induction false} DecimalRoundTrip(n: nat)
    ensures DigitsValue(Decimal(n)) == n
  {
    var s := Decimal(n);
    if n >= 10 {
      assert s[..|s| - 1] == Decimal(n / 10);
      DecimalRoundTrip(n / 10);
    }
  }

  /** The header value the downloader sends: `bytes=<first>-`. */
  function RangeSpec(first: nat): string
  {
    "bytes=" + Decimal(first) + "-"
  }

  /**
   * How a server reads a `bytes=<first>-` range: the first byte position,
   * or None for any other text.
   */
  function ParseRangeSpec(h: string): Option<nat>
  {
    if |h| >= 8 && h[..6] == "bytes=" && h[|h| - 1] == '-' && AllDigits(h[6..|h| - 1])
    then Some(DigitsValue(h[6..|h| - 1]))
    else None
  }

  lemma RangeSpecRoundTrip(first: nat)
    ensures ParseRangeSpec(RangeSpec(first)) == Some(first)
  {
    var d := Decimal(first);
    var h := RangeSpec(first);
    assert h[..6] == "bytes=";
    assert h[6..|h| - 1] == d;
    DecimalRoundTrip(first);
  }

  /**
   * The request headers for an optional resume offset: no headers at all,
   * or the single Range header asking for everything from that offset on.
   */
  function Headers(range: Option<nat>): (h: map<string, string>)
    ensures h.Keys <= {"Range"}
    ensures "Range" in h <==> range.Some?
    ensures "Range" in h ==> ParseRangeSpec(h["Range"]) == range
  {
    match range
    case None => map[]
    case Some(first) =>
      RangeSpecRoundTrip(first);
      map["Range" := RangeSpec(first)]
  }
}
