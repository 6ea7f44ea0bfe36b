/** Numbers, texts, header maps and frames as bytes, each with a parser that undoes the
    printer and reports what is left over. */
module Encoding {
  import opened Types
  import opened Messages
  import Utf8
  import opened Arithmetic

  datatype WireError =
    | UnexpectedEof
    | InvalidProtocolHeader
    | InvalidVersion(version: nat)
    | FrameTooBig
    | Malformed
    | InvalidStatus(code: nat)

  type Parsed<T> = Result<(T, Bytes), WireError>

  // ------------------------------------------------------------------ numbers

  function Pow256(k: nat): (r: nat)
    ensures r > 0
  {
    if k == 0 then 1 else 0x100 * Pow256(k - 1)
  }

  /** The k low bytes of n, least significant first. */
  function LittleEndian(n: nat, k: nat): (b: Bytes)
    ensures |b| == k
  {
    if k == 0 then [] else [(n % 0x100) as Byte] + LittleEndian(n / 0x100, k - 1)
  }

  function FromLittleEndian(b: Bytes): nat {
    if b == [] then 0 else b[0] as nat + 0x100 * FromLittleEndian(b[1..])
  }

  /** Of equally many bytes different ones make different numbers. */
  lemma {:induction false} FromLittleEndianIsInjective(a: Bytes, b: Bytes)
    requires |a| == |b| && FromLittleEndian(a) == FromLittleEndian(b)
    ensures a == b
  {
    if a == [] {
    } else {
      FromLittleEndianIsInjective(a[1..], b[1..]);
      assert a == [a[0]] + a[1..] && b == [b[0]] + b[1..];
    }
  }

  /** The k low bytes of n, most significant first. */
  function BigEndian(n: nat, k: nat): (b: Bytes)
    ensures |b| == k
  {
    if k == 0 then [] else BigEndian(n / 0x100, k - 1) + [(n % 0x100) as Byte]
  }

  function FromBigEndian(b: Bytes): nat {
    if b == [] then 0 else 0x100 * FromBigEndian(b[..|b| - 1]) + b[|b| - 1] as nat
  }

  lemma {:induction false} LittleEndianRoundTrip(n: nat, k: nat)
    requires n < Pow256(k)
    ensures FromLittleEndian(LittleEndian(n, k)) == n
  {
    if k == 0 {
    } else {
      LittleEndianRoundTrip(n / 0x100, k - 1);
      assert LittleEndian(n, k)[1..] == LittleEndian(n / 0x100, k - 1);
    }
  }

  lemma {:induction false} BigEndianRoundTrip(n: nat, k: nat)
    requires n < Pow256(k)
    ensures FromBigEndian(BigEndian(n, k)) == n
  {
    if k == 0 {
    } else {
      BigEndianRoundTrip(n / 0x100, k - 1);
      assert BigEndian(n, k)[..k - 1] == BigEndian(n / 0x100, k - 1);
    }
  }

  /** Which byte goes where: least significant first, or most significant first. */
  lemma {:induction false} LittleEndianAt(n: nat, k: nat, i: nat)
    requires i < k
    ensures LittleEndian(n, k)[i] as nat == n / Pow256(i) % 0x100
  {
    if i == 0 {
    } else {
      LittleEndianAt(n / 0x100, k - 1, i - 1);
      DivideTwice(n, Pow256(i - 1));
    }
  }

  lemma {:induction false} BigEndianAt(n: nat, k: nat, i: nat)
    requires i < k
    ensures BigEndian(n, k)[k - 1 - i] as nat == n / Pow256(i) % 0x100
  {
    if i == 0 {
    } else {
      BigEndianAt(n / 0x100, k - 1, i - 1);
      DivideTwice(n, Pow256(i - 1));
    }
  }

  /** Reading bytes as a number and writing it in as many bytes gives them back. */
  lemma {:induction false} BigEndianUndoes(b: Bytes)
    ensures BigEndian(FromBigEndian(b), |b|) == b
  {
    if b == [] {
    } else {
      var init, last := b[..|b| - 1], b[|b| - 1];
      BigEndianUndoes(init);
      var n := FromBigEndian(b);
      assert n / 0x100 == FromBigEndian(init) && n % 0x100 == last as nat;
      assert b == init + [last];
    }
  }

  const U32_LIMIT: nat := 0x1_0000_0000
  const U64_LIMIT: nat := 0x1_0000_0000_0000_0000

  lemma Widths()
    ensures Pow256(2) == 0x1_0000 && Pow256(4) == U32_LIMIT && Pow256(8) == U64_LIMIT
  {
    assert Pow256(1) == 0x100;
    assert Pow256(2) == 0x1_0000;
    assert Pow256(3) == 0x100_0000;
    assert Pow256(4) == U32_LIMIT;
    assert Pow256(5) == 0x100_0000_0000;
    assert Pow256(6) == 0x1_0000_0000_0000;
    assert Pow256(7) == 0x100_0000_0000_0000;
  }

  function TakeU64(b: Bytes): Parsed<nat> {
    if |b| < 8 then Err(Malformed) else Ok((FromLittleEndian(b[..8]), b[8..]))
  }

  function TakeU16(b: Bytes): Parsed<nat> {
    if |b| < 2 then Err(Malformed) else Ok((FromLittleEndian(b[..2]), b[2..]))
  }

  lemma TakeU64Undoes(n: nat, rest: Bytes)
    requires n < U64_LIMIT
    ensures TakeU64(LittleEndian(n, 8) + rest) == Ok((n, rest))
  {
    Widths();
    LittleEndianRoundTrip(n, 8);
    assert (LittleEndian(n, 8) + rest)[..8] == LittleEndian(n, 8);
  }

  lemma TakeU16Undoes(n: nat, rest: Bytes)
    requires n < 0x1_0000
    ensures TakeU16(LittleEndian(n, 2) + rest) == Ok((n, rest))
  {
    Widths();
    LittleEndianRoundTrip(n, 2);
    assert (LittleEndian(n, 2) + rest)[..2] == LittleEndian(n, 2);
  }

  // --------------------------------------------------- texts and header maps

  function PutText(t: Text): Bytes {
    LittleEndian(|Utf8.Encode(t)|, 8) + Utf8.Encode(t)
  }

  function TakeText(b: Bytes): Parsed<Text> {
    var (n, rest) :- TakeU64(b);
    if |rest| < n then Err(Malformed)
    else
      var t := Utf8.Decode(rest[..n]);
      if t.None? then Err(Malformed) else Ok((t.value, rest[n..]))
  }

  lemma TakeTextUndoes(t: Text, rest: Bytes)
    requires |Utf8.Encode(t)| < U64_LIMIT
    ensures TakeText(PutText(t) + rest) == Ok((t, rest))
  {
    var u := Utf8.Encode(t);
    Utf8.DecodeUndoes(t);
    TakeU64Undoes(|u|, u + rest);
    Associates(LittleEndian(|u|, 8), u, rest);
    Halves(u, rest);
  }

  lemma Associates(a: Bytes, b: Bytes, c: Bytes)
    ensures a + b + c == a + (b + c)
  {
  }

  lemma Halves(a: Bytes, b: Bytes)
    ensures (a + b)[..|a|] == a && (a + b)[|a|..] == b
  {
  }

  type Pairs = seq<(Text, Text)>

  function PutPairs(pairs: Pairs): Bytes {
    if pairs == [] then [] else PutText(pairs[0].0) + PutText(pairs[0].1) + PutPairs(pairs[1..])
  }

  /** Reads n pairs, inserting each into the map; a repeated key takes the later value. */
  function TakePairs(n: nat, b: Bytes, m: HeaderMap): Parsed<HeaderMap> {
    if n == 0 then Ok((m, b))
    else
      var (k, rest) :- TakeText(b);
      var (v, rest) :- TakeText(rest);
      TakePairs(n - 1, rest, m[k := v])
  }

  function InsertPairs(m: HeaderMap, pairs: Pairs): HeaderMap
    decreases |pairs|
  {
    if pairs == [] then m else InsertPairs(m[pairs[0].0 := pairs[0].1], pairs[1..])
  }

  predicate Short(pairs: Pairs) {
    forall i :: 0 <= i < |pairs| ==> |Utf8.Encode(pairs[i].0)| < U64_LIMIT && |Utf8.Encode(pairs[i].1)| < U64_LIMIT
  }

  lemma {:induction false} TakePairsUndoes(pairs: Pairs, rest: Bytes, m: HeaderMap)
    requires Short(pairs)
    ensures TakePairs(|pairs|, PutPairs(pairs) + rest, m) == Ok((InsertPairs(m, pairs), rest))
    decreases |pairs|
  {
    if pairs == [] {
      assert PutPairs(pairs) + rest == rest;
    } else {
      var (k, v) := pairs[0];
      var tail := PutPairs(pairs[1..]) + rest;
      assert PutPairs(pairs) + rest == PutText(k) + (PutText(v) + tail);
      TakeTextUndoes(k, PutText(v) + tail);
      TakeTextUndoes(v, tail);
      TakePairsUndoes(pairs[1..], rest, m[k := v]);
    }
  }

  function PutHeaders(pairs: Pairs): Bytes {
    LittleEndian(|pairs|, 8) + PutPairs(pairs)
  }

  function TakeHeaders(b: Bytes): Parsed<HeaderMap> {
    var (n, rest) :- TakeU64(b);
    TakePairs(n, rest, map[])
  }

  lemma TakeHeadersUndoes(pairs: Pairs, rest: Bytes)
    requires Short(pairs) && |pairs| < U64_LIMIT
    ensures TakeHeaders(PutHeaders(pairs) + rest) == Ok((InsertPairs(map[], pairs), rest))
  {
    TakeU64Undoes(|pairs|, PutPairs(pairs) + rest);
    assert PutHeaders(pairs) + rest == LittleEndian(|pairs|, 8) + (PutPairs(pairs) + rest);
    TakePairsUndoes(pairs, rest, map[]);
  }

  /** An order in which a hash map may list its entries. */
  ghost predicate Enumerates(pairs: Pairs, m: HeaderMap) {
    && (forall i :: 0 <= i < |pairs| ==> pairs[i].0 in m && m[pairs[i].0] == pairs[i].1)
    && (forall k :: k in m ==> exists i :: 0 <= i < |pairs| && pairs[i].0 == k)
    && (forall i, j :: 0 <= i < j < |pairs| ==> pairs[i].0 != pairs[j].0)
  }

  lemma {:induction false} InsertPairsKeepsOthers(m: HeaderMap, pairs: Pairs, k: Text)
    ensures var r := InsertPairs(m, pairs);
            && (k in m ==> k in r)
            && (k in r ==> k in m || exists i :: 0 <= i < |pairs| && pairs[i].0 == k)
            && (k in r && (forall i :: 0 <= i < |pairs| ==> pairs[i].0 != k) ==> k in m && r[k] == m[k])
    decreases |pairs|
  {
    if pairs == [] {
    } else {
      var m' := m[pairs[0].0 := pairs[0].1];
      InsertPairsKeepsOthers(m', pairs[1..], k);
      if i :| 0 <= i < |pairs[1..]| && pairs[1..][i].0 == k {
        assert pairs[i + 1].0 == k;
      }
      if forall i :: 0 <= i < |pairs| ==> pairs[i].0 != k {
        assert forall i :: 0 <= i < |pairs[1..]| ==> pairs[1..][i] == pairs[i + 1];
      }
    }
  }

  lemma {:induction false} InsertPairsSets(m: HeaderMap, pairs: Pairs, i: nat)
    requires i < |pairs| && forall j :: i < j < |pairs| ==> pairs[j].0 != pairs[i].0
    ensures var r := InsertPairs(m, pairs); pairs[i].0 in r && r[pairs[i].0] == pairs[i].1
    decreases |pairs|
  {
    var m', rest := m[pairs[0].0 := pairs[0].1], pairs[1..];
    if i == 0 {
      InsertPairsKeepsOthers(m', rest, pairs[0].0);
      assert forall j :: 0 <= j < |rest| ==> rest[j] == pairs[j + 1];
    } else {
      InsertPairsSets(m', rest, i - 1);
    }
  }

  /** Whatever order the entries are listed in, inserting them gives the map back. */
  lemma EnumerationRebuildsMap(pairs: Pairs, m: HeaderMap)
    requires Enumerates(pairs, m)
    ensures InsertPairs(map[], pairs) == m
  {
    var r := InsertPairs(map[], pairs);
    forall k: Text
      ensures k in r <==> k in m
      ensures k in m ==> r[k] == m[k]
    {
      InsertPairsKeepsOthers(map[], pairs, k);
      if k in m {
        var i :| 0 <= i < |pairs| && pairs[i].0 == k;
        InsertPairsSets(map[], pairs, i);
      }
    }
  }

  // ------------------------------------------------------------------- frames

  function PutFrame(payload: Bytes): Bytes {
    BigEndian(|payload|, 4) + payload
  }

  function TakeFrame(limit: nat, b: Bytes): Parsed<Bytes> {
    if |b| < 4 then Err(UnexpectedEof)
    else
      var n := FromBigEndian(b[..4]);
      if n > limit then Err(FrameTooBig)
      else if |b| - 4 < n then Err(UnexpectedEof)
      else Ok((b[4..4 + n], b[4 + n..]))
  }

  lemma FrameParts(payload: Bytes, rest: Bytes)
    ensures var b := PutFrame(payload) + rest;
            && |b| == 4 + |payload| + |rest| && b[..4] == BigEndian(|payload|, 4)
            && b[4..4 + |payload|] == payload && b[4 + |payload|..] == rest
  {
  }

  lemma TakeFrameUndoes(limit: nat, payload: Bytes, rest: Bytes)
    requires |payload| < U32_LIMIT
    ensures TakeFrame(limit, PutFrame(payload) + rest) ==
            if |payload| <= limit then Ok((payload, rest)) else Err(FrameTooBig)
  {
    Widths();
    BigEndianRoundTrip(|payload|, 4);
    FrameParts(payload, rest);
  }

  /** Nothing but a frame within the limit is read as one. */
  lemma FrameIsGenuine(limit: nat, b: Bytes)
    requires TakeFrame(limit, b).Ok?
    ensures var (payload, rest) := TakeFrame(limit, b).value;
            b == PutFrame(payload) + rest && |payload| <= limit
  {
    var n := FromBigEndian(b[..4]);
    BigEndianUndoes(b[..4]);
    assert b == b[..4] + b[4..4 + n] + b[4 + n..];
  }

  /** A frame that was cut short is never accepted. */
  lemma CutFrameIsRejected(limit: nat, payload: Bytes, b: Bytes)
    requires |payload| < U32_LIMIT && b < PutFrame(payload)
    ensures TakeFrame(limit, b).Err?
  {
    if |b| >= 4 {
      Widths();
      BigEndianRoundTrip(|payload|, 4);
      assert b[..4] == PutFrame(payload)[..4] == BigEndian(|payload|, 4);
    }
  }
}
