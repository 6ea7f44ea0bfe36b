/** Text as UTF-8: an encoder, and a decoder that accepts exactly the well-formed byte
    sequences of table 3-7 of the Unicode Standard. */
module Utf8 {
  import opened Types
  import opened Messages

  predicate In(b: Byte, low: Byte, high: Byte) { low <= b <= high }

  predicate Continues(b: Bytes, i: nat) { i < |b| && In(b[i], 0x80, 0xBF) }

  function Tail(n: nat): Byte { (0x80 + n % 0x40) as Byte }

  function EncodeChar(c: char): Bytes {
    var n := c as int;
    if n < 0x80 then [n as Byte]
    else if n < 0x800 then [(0xC0 + n / 0x40) as Byte, Tail(n)]
    else if n < 0x1_0000 then [(0xE0 + n / 0x1000) as Byte, Tail(n / 0x40), Tail(n)]
    else [(0xF0 + n / 0x4_0000) as Byte, Tail(n / 0x1000), Tail(n / 0x40), Tail(n)]
  }

  function Low(b: Byte): int { b as int - 0x80 }

  /** The first character and the number of bytes it takes, if well-formed. */
  function DecodeChar(b: Bytes): (r: Option<(char, nat)>)
    ensures r.Some? ==> 0 < r.value.1 <= |b|
  {
    if b == [] then None
    else
      var first := b[0] as int;
      if first < 0x80 then Some((first as char, 1))
      else if 0xC2 <= first <= 0xDF && Continues(b, 1) then
        Some((((first - 0xC0) * 0x40 + Low(b[1])) as char, 2))
      else if 0xE0 <= first <= 0xEF && Continues(b, 1) && Continues(b, 2)
              && (first == 0xE0 ==> b[1] >= 0xA0) && (first == 0xED ==> b[1] <= 0x9F) then
        Some((((first - 0xE0) * 0x1000 + Low(b[1]) * 0x40 + Low(b[2])) as char, 3))
      else if 0xF0 <= first <= 0xF4 && Continues(b, 1) && Continues(b, 2) && Continues(b, 3)
              && (first == 0xF0 ==> b[1] >= 0x90) && (first == 0xF4 ==> b[1] <= 0x8F) then
        Some((((first - 0xF0) * 0x4_0000 + Low(b[1]) * 0x1000 + Low(b[2]) * 0x40 + Low(b[3])) as char, 4))
      else None
  }

  lemma SplitThree(n: nat, high: nat, mid: nat, low: nat)
    requires high == n / 0x1000 && mid == n / 0x40 % 0x40 && low == n % 0x40
    ensures n == high * 0x1000 + mid * 0x40 + low
    ensures n >= 0x800 && high == 0 ==> mid >= 0x20
    ensures n < 0xD800 && high == 0xD ==> mid <= 0x1F
  {
    var upper := n / 0x40;
    assert upper == high * 0x40 + mid;
  }

  lemma SplitFour(n: nat, top: nat, high: nat, mid: nat, low: nat)
    requires top == n / 0x4_0000 && high == n / 0x1000 % 0x40 && mid == n / 0x40 % 0x40 && low == n % 0x40
    ensures n == top * 0x4_0000 + high * 0x1000 + mid * 0x40 + low
    ensures n >= 0x1_0000 && top == 0 ==> high >= 0x10
    ensures n < 0x11_0000 ==> top <= 4 && (top == 4 ==> high <= 0xF)
  {
    var upper := n / 0x1000;
    assert upper == top * 0x40 + high;
    SplitThree(n, upper, mid, low);
  }

  lemma DecodeTwo(c: char, rest: Bytes)
    requires 0x80 <= c as int < 0x800
    ensures DecodeChar(EncodeChar(c) + rest) == Some((c, 2))
  {
    var n := c as int;
    var b := [(0xC0 + n / 0x40) as Byte, Tail(n)] + rest;
    assert b[0] as int == 0xC0 + n / 0x40 && Low(b[1]) == n % 0x40;
    assert n == n / 0x40 * 0x40 + n % 0x40;
  }

  lemma DecodeThree(c: char, rest: Bytes)
    requires 0x800 <= c as int < 0x1_0000
    ensures DecodeChar(EncodeChar(c) + rest) == Some((c, 3))
  {
    var n := c as int;
    var b := [(0xE0 + n / 0x1000) as Byte, Tail(n / 0x40), Tail(n)] + rest;
    assert b[0] as int == 0xE0 + n / 0x1000 && Low(b[1]) == n / 0x40 % 0x40 && Low(b[2]) == n % 0x40;
    SplitThree(n, n / 0x1000, n / 0x40 % 0x40, n % 0x40);
  }

  lemma DecodeFour(c: char, rest: Bytes)
    requires 0x1_0000 <= c as int
    ensures DecodeChar(EncodeChar(c) + rest) == Some((c, 4))
  {
    var n := c as int;
    var b := [(0xF0 + n / 0x4_0000) as Byte, Tail(n / 0x1000), Tail(n / 0x40), Tail(n)] + rest;
    assert b[0] as int == 0xF0 + n / 0x4_0000 && Low(b[1]) == n / 0x1000 % 0x40;
    assert Low(b[2]) == n / 0x40 % 0x40 && Low(b[3]) == n % 0x40;
    SplitFour(n, n / 0x4_0000, n / 0x1000 % 0x40, n / 0x40 % 0x40, n % 0x40);
  }

  lemma DecodeCharUndoes(c: char, rest: Bytes)
    ensures DecodeChar(EncodeChar(c) + rest) == Some((c, |EncodeChar(c)|))
  {
    var n := c as int;
    if 0x80 <= n < 0x800 {
      DecodeTwo(c, rest);
    } else if 0x800 <= n < 0x1_0000 {
      DecodeThree(c, rest);
    } else if n >= 0x1_0000 {
      DecodeFour(c, rest);
    }
  }

  function Encode(t: Text): Bytes {
    if t == [] then [] else EncodeChar(t[0]) + Encode(t[1..])
  }

  function Decode(b: Bytes): Option<Text> {
    if b == [] then Some([])
    else
      var first := DecodeChar(b);
      if first.None? then None
      else
        var others := Decode(b[first.value.1..]);
        if others.None? then None else Some([first.value.0] + others.value)
  }

  lemma {:induction false} DecodeUndoes(t: Text)
    ensures Decode(Encode(t)) == Some(t)
  {
    if t == [] {
    } else {
      var c, rest := t[0], Encode(t[1..]);
      DecodeCharUndoes(c, rest);
      DecodeUndoes(t[1..]);
      assert (EncodeChar(c) + rest)[|EncodeChar(c)|..] == rest;
      assert [c] + t[1..] == t;
    }
  }

  lemma EncodeTwo(b: Bytes)
    requires DecodeChar(b).Some? && DecodeChar(b).value.1 == 2
    ensures EncodeChar(DecodeChar(b).value.0) == b[..2]
  {
    Recombine(b[0] as int - 0xC0, Low(b[1]), DecodeChar(b).value.0 as int);
  }

  lemma EncodeThree(b: Bytes)
    requires DecodeChar(b).Some? && DecodeChar(b).value.1 == 3
    ensures EncodeChar(DecodeChar(b).value.0) == b[..3]
  {
    var c := DecodeChar(b).value.0;
    var first := b[0] as int - 0xE0;
    Recombine(first, Low(b[1]), c as int / 0x40);
    Recombine(first * 0x40 + Low(b[1]), Low(b[2]), c as int);
  }

  lemma EncodeFour(b: Bytes)
    requires DecodeChar(b).Some? && DecodeChar(b).value.1 == 4
    ensures EncodeChar(DecodeChar(b).value.0) == b[..4]
  {
    var c := DecodeChar(b).value.0;
    var upper := (b[0] as int - 0xF0) * 0x40 + Low(b[1]);
    Recombine(b[0] as int - 0xF0, Low(b[1]), upper);
    Recombine(upper, Low(b[2]), upper * 0x40 + Low(b[2]));
    Recombine(upper * 0x40 + Low(b[2]), Low(b[3]), c as int);
  }

  /** The decoder accepts nothing but what the encoder produces. */
  lemma EncodeCharUndoes(b: Bytes)
    requires DecodeChar(b).Some?
    ensures var (c, n) := DecodeChar(b).value; EncodeChar(c) == b[..n]
  {
    match DecodeChar(b).value.1
    case 2 => EncodeTwo(b);
    case 3 => EncodeThree(b);
    case 4 => EncodeFour(b);
    case _ =>
  }

  lemma Recombine(high: nat, low: nat, n: nat)
    requires low < 0x40
    ensures n == high * 0x40 + low ==> n / 0x40 == high && n % 0x40 == low
  {
  }

  lemma EncodeConcat(c: char, t: Text)
    ensures Encode([c] + t) == EncodeChar(c) + Encode(t)
  {
    assert ([c] + t)[1..] == t;
  }

  /** The text of well-formed bytes is the text of their first character and of the rest. */
  lemma DecodeParts(b: Bytes) returns (first: Bytes, rest: Bytes, c: char)
    requires b != [] && Decode(b).Some?
    ensures b == first + rest && |rest| < |b| && first == EncodeChar(c)
    ensures Decode(rest).Some? && Decode(b).value == [c] + Decode(rest).value
  {
    var n := DecodeChar(b).value.1;
    c := DecodeChar(b).value.0;
    first, rest := b[..n], b[n..];
    EncodeCharUndoes(b);
  }

  lemma {:induction false} EncodeUndoes(b: Bytes)
    requires Decode(b).Some?
    ensures Encode(Decode(b).value) == b
    decreases |b|
  {
    if b == [] {
    } else {
      var first, rest, c := DecodeParts(b);
      EncodeUndoes(rest);
      EncodeConcat(c, Decode(rest).value);
    }
  }
}
