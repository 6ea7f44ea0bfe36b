/** The timeout header: a duration as decimal nanoseconds in 64 bits, set by the client,
    parsed by the server, and combined with the server's own default. */
module Timeout {
  import opened Types
  import opened Messages
  import opened Dialing

  const U64_MAX: nat := 0xFFFF_FFFF_FFFF_FFFF

  // ------------------------------------------------------- decimal numbers

  function Digit(d: nat): char
    requires d < 10
  {
    '0' + d as char
  }

  predicate IsDigit(c: char) { '0' <= c <= '9' }

  /** Decimal digits without leading zeros; "0" for zero. */
  function ToDecimal(n: nat): (s: string)
    ensures s != []
  {
    if n < 10 then [Digit(n)] else ToDecimal(n / 10) + [Digit(n % 10)]
  }

  predicate AllDigits(s: string) {
    forall i :: 0 <= i < |s| ==> IsDigit(s[i])
  }

  function Value(s: string): nat
    requires AllDigits(s)
  {
    if s == [] then 0 else 10 * Value(s[..|s| - 1]) + (s[|s| - 1] - '0') as nat
  }

  /** Parsing an unsigned 64-bit integer: an optional plus sign, at least one digit, and a
      value in range. */
  function ParseU64(s: string): Option<nat> {
    var digits := if |s| > 0 && s[0] == '+' then s[1..] else s;
    if digits != [] && AllDigits(digits) && Value(digits) <= U64_MAX then Some(Value(digits)) else None
  }

  lemma {:induction false} ValueOfDecimal(n: nat)
    ensures AllDigits(ToDecimal(n)) && Value(ToDecimal(n)) == n
  {
    var s := ToDecimal(n);
    if n < 10 {
      assert s[..|s| - 1] == [];
    } else {
      ValueOfDecimal(n / 10);
      assert s[..|s| - 1] == ToDecimal(n / 10);
    }
  }

  lemma ParseUndoesPrint(n: nat)
    requires n <= U64_MAX
    ensures ParseU64(ToDecimal(n)) == Some(n)
  {
    ValueOfDecimal(n);
    assert IsDigit(ToDecimal(n)[0]);
  }

  /** The other way around: of all texts that parse to n, the printed one is the only one
      without a plus sign and superfluous zeros. */
  lemma {:induction false} PrintUndoesParse(s: string)
    requires s != [] && AllDigits(s) && (s[0] == '0' ==> |s| == 1)
    ensures ToDecimal(Value(s)) == s
  {
    var init, last := s[..|s| - 1], (s[|s| - 1] - '0') as nat;
    if init == [] {
      assert Value(s) == last;
    } else {
      assert init[0] == s[0] != '0';
      PrintUndoesParse(init);
      PositiveValue(init);
      assert Value(s) == 10 * Value(init) + last;
      assert s == init + [s[|s| - 1]];
    }
  }

  lemma {:induction false} PositiveValue(s: string)
    requires s != [] && AllDigits(s) && s[0] != '0'
    ensures Value(s) > 0
  {
    if |s| == 1 {
    } else {
      PositiveValue(s[..|s| - 1]);
    }
  }

  predicate AllZeros(s: string) {
    forall i :: 0 <= i < |s| ==> s[i] == '0'
  }

  lemma {:induction false} LeadingZeros(zeros: string, s: string)
    requires AllZeros(zeros) && AllDigits(s)
    ensures AllDigits(zeros + s) && Value(zeros + s) == Value(s)
    decreases |s|
  {
    if s == "" {
      assert zeros + s == zeros;
      ValueOfZeros(zeros);
    } else {
      var t := zeros + s;
      LeadingZeros(zeros, s[..|s| - 1]);
      assert t[..|t| - 1] == zeros + s[..|s| - 1] && t[|t| - 1] == s[|s| - 1];
    }
  }

  lemma {:induction false} ValueOfZeros(s: string)
    requires AllZeros(s)
    ensures AllDigits(s) && Value(s) == 0
  {
    if s == "" {
    } else {
      ValueOfZeros(s[..|s| - 1]);
    }
  }

  /** All digits but the superfluous zeros in front. */
  lemma {:induction false} SplitZeros(s: string) returns (zeros: string, rest: string)
    requires s != "" && AllDigits(s)
    ensures s == zeros + rest && AllZeros(zeros) && rest != "" && AllDigits(rest)
    ensures rest[0] == '0' ==> |rest| == 1
  {
    if |s| == 1 || s[0] != '0' {
      zeros, rest := "", s;
    } else {
      var z, r := SplitZeros(s[1..]);
      zeros, rest := "0" + z, r;
      assert s == "0" + s[1..];
    }
  }

  /** A text reads as a number in exactly one way: as the number in print, with any zeros and
      perhaps a plus sign in front, if it is within 64 bits. */
  ghost predicate Denotes(s: string, n: nat) {
    exists sign: string, zeros: string ::
      && (sign == "" || sign == "+") && AllZeros(zeros)
      && s == sign + zeros + ToDecimal(n) && n <= U64_MAX
  }

  lemma ParseMeansDenotes(s: string, n: nat)
    ensures ParseU64(s) == Some(n) <==> Denotes(s, n)
  {
    if ParseU64(s) == Some(n) {
      ParsedDenotes(s, n);
    }
    if Denotes(s, n) {
      DenotedParses(s, n);
    }
  }

  lemma ParsedDenotes(s: string, n: nat)
    requires ParseU64(s) == Some(n)
    ensures Denotes(s, n)
  {
    if s[0] == '+' {
      var zeros := DigitsDenote(s[1..]);
      assert s == "+" + s[1..];
      DenotesBy(s, "+", zeros, n);
    } else {
      var zeros := DigitsDenote(s);
      DenotesBy(s, "", zeros, n);
    }
  }

  lemma DenotesBy(s: string, sign: string, zeros: string, n: nat)
    requires (sign == "" || sign == "+") && AllZeros(zeros) && n <= U64_MAX
    requires s == sign + (zeros + ToDecimal(n))
    ensures Denotes(s, n)
  {
    assert s == sign + zeros + ToDecimal(n);
  }

  lemma DigitsDenote(digits: string) returns (zeros: string)
    requires digits != "" && AllDigits(digits)
    ensures AllZeros(zeros) && digits == zeros + ToDecimal(Value(digits))
  {
    var rest;
    zeros, rest := SplitZeros(digits);
    LeadingZeros(zeros, rest);
    PrintUndoesParse(rest);
  }

  lemma DenotedParses(s: string, n: nat)
    requires Denotes(s, n)
    ensures ParseU64(s) == Some(n)
  {
    var sign: string, zeros: string :|
      (sign == "" || sign == "+") && AllZeros(zeros) && s == sign + zeros + ToDecimal(n) && n <= U64_MAX;
    var digits := zeros + ToDecimal(n);
    ValueOfDecimal(n);
    LeadingZeros(zeros, ToDecimal(n));
    assert s == sign + digits;
    SignedParses(sign, digits);
  }

  lemma SignedParses(sign: string, digits: string)
    requires (sign == "" || sign == "+") && digits != "" && AllDigits(digits) && Value(digits) <= U64_MAX
    ensures ParseU64(sign + digits) == Some(Value(digits))
  {
    assert IsDigit(digits[0]);
    if sign == "" {
      assert sign + digits == digits;
    } else {
      assert (sign + digits)[1..] == digits;
    }
  }

  // -------------------------------------------------------------- the header

  function DurationToTimeout(d: Duration): Text {
    ToDecimal(if d <= U64_MAX then d else U64_MAX)
  }

  function SetTimeout(headers: HeaderMap, d: Duration): HeaderMap {
    headers[TIMEOUT := DurationToTimeout(d)]
  }

  /** The error is the value that could not be parsed. */
  function TryParseTimeout(headers: HeaderMap): Result<Option<Duration>, Text> {
    if TIMEOUT !in headers then Ok(None)
    else match ParseU64(headers[TIMEOUT])
      case Some(n) => Ok(Some(n))
      case None => Err(headers[TIMEOUT])
  }

  function RequestTimeout(headers: HeaderMap): Option<Duration> {
    match TryParseTimeout(headers)
    case Ok(d) => d
    case Err(_) => None
  }

  /** The deadline of a request at the server. */
  function EffectiveTimeout(headers: HeaderMap, default: Option<Duration>): Option<Duration> {
    match (RequestTimeout(headers), default)
    case (None, None) => None
    case (Some(d), None) => Some(d)
    case (None, Some(d)) => Some(d)
    case (Some(r), Some(d)) => Some(if r <= d then r else d)
  }

  /** For every duration, getting the timeout after setting it gives the duration back, or
      the greatest number of nanoseconds in 64 bits, and other headers stay. */
  lemma TimeoutRoundTrip(headers: HeaderMap, d: Duration)
    ensures RequestTimeout(SetTimeout(headers, d)) == Some(Min(d, U64_MAX))
    ensures SetTimeout(headers, d) - {TIMEOUT} == headers - {TIMEOUT}
  {
    ParseUndoesPrint(Min(d, U64_MAX));
    OtherHeadersStay(headers, TIMEOUT, DurationToTimeout(d));
  }

  lemma OtherHeadersStay(headers: HeaderMap, name: Text, value: Text)
    ensures headers[name := value] - {name} == headers - {name}
  {
  }

  /** The server never waits longer than its default nor than a timeout that was set and
      can be parsed, and takes one of the two; what cannot be parsed is as if not set. */
  lemma DeadlineIsShortest(headers: HeaderMap, default: Option<Duration>)
    ensures var e := EffectiveTimeout(headers, default);
            && (e.None? <==> default.None? && (TIMEOUT !in headers || ParseU64(headers[TIMEOUT]).None?))
            && (default.Some? ==> e.Some? && e.value <= default.value)
            && (TIMEOUT in headers && ParseU64(headers[TIMEOUT]).Some? ==>
                  e.Some? && e.value <= ParseU64(headers[TIMEOUT]).value)
            && (e.Some? ==> e == default || (TIMEOUT in headers && e == ParseU64(headers[TIMEOUT])))
  {
  }

  /** From setting a timeout at the client to the deadline at the server. */
  lemma DeadlineOfClientTimeout(headers: HeaderMap, d: Duration, contentType: Text, default: Option<Duration>)
    ensures EffectiveTimeout(SetTimeout(headers, d)[CONTENT_TYPE := contentType], default) ==
            Some(if default.Some? then Min(Min(d, U64_MAX), default.value) else Min(d, U64_MAX))
  {
    TimeoutRoundTrip(headers, d);
    OtherHeaderIsKept(SetTimeout(headers, d), contentType);
  }

  lemma OtherHeaderIsKept(headers: HeaderMap, contentType: Text)
    requires TIMEOUT in headers
    ensures var more := headers[CONTENT_TYPE := contentType]; TIMEOUT in more && more[TIMEOUT] == headers[TIMEOUT]
  {
    assert |TIMEOUT| == 7 && |CONTENT_TYPE| == 12;
  }
}
