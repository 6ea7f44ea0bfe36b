/** Matching dotted names against patterns, segment by segment, and a plain description
    of the same thing on strings. */
module MatchName {
  import opened Types

  /** What a further leading character does to the parts. */
  function Prepend(c: char, parts: seq<string>): seq<string>
    requires parts != []
  {
    if c == '.' then [""] + parts else [[c] + parts[0]] + parts[1..]
  }

  /** The parts between dots; one part if there is no dot. */
  function Split(s: string): (parts: seq<string>)
    ensures |parts| > 0
  {
    if s == "" then [""]
    else Prepend(s[0], Split(s[1..]))
  }

  function Join(parts: seq<string>): string {
    if parts == [] then ""
    else if |parts| == 1 then parts[0]
    else parts[0] + "." + Join(parts[1..])
  }

  predicate NoDot(s: string) { '.' !in s }

  predicate NoDots(parts: seq<string>) {
    forall i :: 0 <= i < |parts| ==> NoDot(parts[i])
  }

  /** None if the comparison of the pattern's first byte panics, because the first
      character takes more than one byte. */
  function MatchName(pattern: string, path: string): Option<bool> {
    if pattern == "" then Some(false)
    else if pattern == "." || pattern == path then Some(true)
    else if pattern[0] as int >= 0x80 then None
    else
      var pats, segs := Split(pattern), Split(path);
      if pattern[0] == '.' then
        Some(|pats| <= |segs| && pats == segs[..|pats|])
      else
        Some(|pats| <= |segs| && pats == segs[|segs| - |pats|..])
  }

  predicate StartsWith(s: string, t: string) { t <= s }

  predicate EndsWith(s: string, t: string) { |t| <= |s| && s[|s| - |t|..] == t }

  /** A pattern that starts with a dot matches itself and everything below it; any other
      pattern matches itself and everything that ends with it after a dot. */
  predicate Matches(pattern: string, path: string) {
    pattern != "" &&
    (pattern == "." || pattern == path
     || (if pattern[0] == '.' then StartsWith(path, pattern + ".") else EndsWith(path, "." + pattern)))
  }

  // ------------------------------------------------------- splitting, joining

  lemma {:induction false} JoinUndoesSplit(s: string)
    ensures Join(Split(s)) == s
    ensures NoDots(Split(s))
  {
    if s == "" {
    } else {
      JoinUndoesSplit(s[1..]);
      var rest := Split(s[1..]);
      if s[0] == '.' {
        assert ([""] + rest)[1..] == rest;
      } else {
        var parts := [[s[0]] + rest[0]] + rest[1..];
        assert parts[1..] == rest[1..];
        assert forall i :: 1 <= i < |parts| ==> parts[i] == rest[i];
      }
    }
  }

  lemma {:induction false} SplitOfNoDot(s: string)
    requires NoDot(s)
    ensures Split(s) == [s]
  {
    if s == "" {
    } else {
      assert NoDot(s[1..]) && s[0] != '.';
      SplitOfNoDot(s[1..]);
      assert [s[0]] + s[1..] == s;
      assert Split(s) == [[s[0]] + s[1..]] + [s[1..]][1..];
    }
  }

  /** Splitting works on the two sides of a dot separately. */
  lemma {:induction false} SplitAtDot(a: string, b: string)
    ensures Split(a + "." + b) == Split(a) + Split(b)
  {
    var s := a + "." + b;
    if a == "" {
      assert s[0] == '.' && s[1..] == b;
    } else {
      var x, y := Split(a[1..]), Split(b);
      assert s[0] == a[0] && s[1..] == a[1..] + "." + b;
      SplitAtDot(a[1..], b);
      SplitOneMore(a[0], x, y);
    }
  }

  lemma SplitOneMore(c: char, x: seq<string>, y: seq<string>)
    requires x != []
    ensures Prepend(c, x + y) == Prepend(c, x) + y
  {
    assert (x + y)[1..] == x[1..] + y;
  }

  lemma {:induction false} SplitUndoesJoin(parts: seq<string>)
    requires parts != [] && NoDots(parts)
    ensures Split(Join(parts)) == parts
  {
    SplitOfNoDot(parts[0]);
    if |parts| == 1 {
    } else {
      SplitUndoesJoin(parts[1..]);
      SplitAtDot(parts[0], Join(parts[1..]));
    }
    HeadAndTail(parts);
  }

  lemma HeadAndTail(parts: seq<string>)
    requires parts != []
    ensures [parts[0]] + parts[1..] == parts
  {
  }

  lemma {:induction false} JoinOfConcat(xs: seq<string>, ys: seq<string>)
    requires xs != [] && ys != []
    ensures Join(xs + ys) == Join(xs) + "." + Join(ys)
  {
    if |xs| == 1 {
      assert (xs + ys)[1..] == ys;
    } else {
      assert (xs + ys)[1..] == xs[1..] + ys && (xs + ys)[0] == xs[0];
      JoinOfConcat(xs[1..], ys);
      assert xs[0] + "." + (Join(xs[1..]) + "." + Join(ys)) == (xs[0] + "." + Join(xs[1..])) + "." + Join(ys);
    }
  }

  // ------------------------------------------------------------ main results

  /** Whole leading segments are a string prefix up to a dot, or everything. */
  lemma PrefixOfSegments(a: string, b: string)
    ensures var p, q := Split(a), Split(b);
            (|p| <= |q| && p == q[..|p|]) <==> (a == b || StartsWith(b, a + "."))
  {
    var p, q := Split(a), Split(b);
    if |p| <= |q| && p == q[..|p|] {
      SegmentsThenString(a, b, p, q[|p|..], q);
    }
    if StartsWith(b, a + ".") {
      var rest := b[|a| + 1..];
      assert b == a + "." + rest;
      SplitAtDot(a, rest);
    }
  }

  lemma SegmentsThenString(a: string, b: string, p: seq<string>, rest: seq<string>, q: seq<string>)
    requires p == Split(a) && q == Split(b) && p + rest == q
    ensures a == b || StartsWith(b, a + ".")
  {
    JoinUndoesSplit(a);
    JoinUndoesSplit(b);
    if rest == [] {
      assert p == q;
    } else {
      JoinOfConcat(p, rest);
    }
  }

  /** Whole trailing segments are a string suffix from a dot on, or everything. */
  lemma SuffixOfSegments(a: string, b: string)
    ensures var p, q := Split(a), Split(b);
            (|p| <= |q| && p == q[|q| - |p|..]) <==> (a == b || EndsWith(b, "." + a))
  {
    var p, q := Split(a), Split(b);
    if |p| <= |q| && p == q[|q| - |p|..] {
      SegmentsEndString(a, b, p, q[..|q| - |p|], q);
    }
    if EndsWith(b, "." + a) {
      var rest := b[..|b| - |a| - 1];
      assert b == rest + "." + a;
      SplitAtDot(rest, a);
    }
  }

  lemma SegmentsEndString(a: string, b: string, p: seq<string>, rest: seq<string>, q: seq<string>)
    requires p == Split(a) && q == Split(b) && rest + p == q
    ensures a == b || EndsWith(b, "." + a)
  {
    JoinUndoesSplit(a);
    JoinUndoesSplit(b);
    if rest == [] {
      assert p == q;
    } else {
      JoinOfConcat(rest, p);
      AfterADot(Join(rest), a);
    }
  }

  lemma AfterADot(x: string, a: string)
    ensures EndsWith(x + "." + a, "." + a)
  {
    var y := "." + a;
    assert x + "." + a == x + y;
    assert (x + y)[|x|..] == y;
  }

  /** The segment matcher agrees with the plain description whenever it returns, and it
      panics exactly for a pattern other than the path that starts outside ASCII. */
  lemma MatcherMeetsDescription(pattern: string, path: string)
    ensures MatchName(pattern, path).Some? ==> MatchName(pattern, path).value == Matches(pattern, path)
    ensures MatchName(pattern, path).None? <==> pattern != "" && pattern != path && pattern[0] as int >= 0x80
  {
    PrefixOfSegments(pattern, path);
    SuffixOfSegments(pattern, path);
  }

  /** What the matcher answers, in terms of the texts alone. */
  lemma MatchesByText(pattern: string, path: string)
    ensures MatchName("", path) == Some(false) && MatchName(".", path) == Some(true)
    ensures pattern != "" ==> MatchName(pattern, pattern) == Some(true)
    ensures pattern != "" && pattern != "." && pattern[0] == '.' ==>
              (MatchName(pattern, path) == Some(true) <==>
                 path == pattern || exists rest :: path == pattern + "." + rest)
    ensures pattern != "" && pattern[0] != '.' && pattern[0] as int < 0x80 ==>
              (MatchName(pattern, path) == Some(true) <==>
                 path == pattern || exists rest :: path == rest + "." + pattern)
  {
    MatcherMeetsDescription(pattern, path);
    StartsMeansExtends(path, pattern + ".");
    EndsMeansPreceded(path, "." + pattern);
    forall rest ensures rest + "." + pattern == rest + ("." + pattern) {}
  }

  lemma StartsMeansExtends(s: string, t: string)
    ensures StartsWith(s, t) <==> exists rest :: s == t + rest
  {
    if StartsWith(s, t) {
      assert s == t + s[|t|..];
    }
  }

  lemma EndsMeansPreceded(s: string, t: string)
    ensures EndsWith(s, t) <==> exists rest :: s == rest + t
  {
    if EndsWith(s, t) {
      assert s == s[..|s| - |t|] + t;
    }
  }

  /** A pattern that panics on every other path: a single letter outside ASCII. */
  lemma AccentedPatternPanics(path: string)
    requires path != "\U{E9}"
    ensures MatchName("\U{E9}", path).None?
  {
    MatcherMeetsDescription("\U{E9}", path);
  }
}
