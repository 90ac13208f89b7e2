/**
 * The PHP string primitives the core relies on, as plain functions over
 * `seq<char>`: truthiness of a string, `strpos(...) !== false`,
 * `str_replace($search, '', ...)`, `trim`, `strtolower` (ASCII only),
 * `implode` and `preg_split` on a single character, `explode('.', $s, 2)`.
 */
module Strings {

  /** PHP's truthiness of a string: only "" and "0" are falsy. */
  predicate Truthy(s: string) {
    s != "" && s != "0"
  }

  /** `strpos(s, p) !== false`: `p` occurs somewhere in `s`. */
  predicate Contains(s: string, p: string)
    decreases |s|
  {
    p <= s || (|s| > 0 && Contains(s[1..], p))
  }

  /**
   * `str_replace(p, '', s)`: every occurrence of `p` found by a left-to-right
   * scan of `s` is removed; the scan does not look at the text it produced.
   */
  function RemoveAll(s: string, p: string): (r: string)
    requires |p| > 0
    ensures |r| <= |s|
    decreases |s|
  {
    if |s| == 0 then ""
    else if p <= s then RemoveAll(s[|p|..], p)
    else [s[0]] + RemoveAll(s[1..], p)
  }

  /** Removing a string that does not occur changes nothing. */
  lemma {:induction false} RemoveAllAbsent(s: string, p: string)
    requires |p| > 0 && !Contains(s, p)
    ensures RemoveAll(s, p) == s
    decreases |s|
  {
    if |s| > 0 {
      RemoveAllAbsent(s[1..], p);
    }
  }

  /** Removing `p` from `p + t` where `t` lacks `p` gives back `t`. */
  lemma RemoveAllLeading(p: string, t: string)
    requires |p| > 0 && !Contains(t, p)
    ensures RemoveAll(p + t, p) == t
  {
    assert (p + t)[|p|..] == t;
    RemoveAllAbsent(t, p);
  }

  /** The characters PHP's `trim` strips by default. */
  predicate IsTrimChar(c: char) {
    c == ' ' || c == '\t' || c == '\n' || c == '\r' || c == '\0' || c == '\U{B}'
  }

  /** Length of the leading run of trim characters. */
  function LeadingTrim(s: string): (n: nat)
    ensures n <= |s|
    ensures forall k :: 0 <= k < n ==> IsTrimChar(s[k])
    ensures n == |s| || !IsTrimChar(s[n])
    decreases |s|
  {
    if |s| > 0 && IsTrimChar(s[0]) then 1 + LeadingTrim(s[1..]) else 0
  }

  /** Length of the trailing run of trim characters. */
  function TrailingTrim(s: string): (n: nat)
    ensures n <= |s|
    ensures forall k :: |s| - n <= k < |s| ==> IsTrimChar(s[k])
    ensures n == |s| || !IsTrimChar(s[|s| - n - 1])
    decreases |s|
  {
    if |s| > 0 && IsTrimChar(s[|s| - 1]) then 1 + TrailingTrim(s[..|s| - 1]) else 0
  }

  /**
   * PHP's `trim`: the slice of `s` that starts after its leading run of trim
   * characters and is followed only by trim characters, with no trim
   * character at either end.
   */
  function Trim(s: string): (r: string)
    ensures LeadingTrim(s) + |r| <= |s|
    ensures r == s[LeadingTrim(s)..LeadingTrim(s) + |r|]
    ensures forall k :: LeadingTrim(s) + |r| <= k < |s| ==> IsTrimChar(s[k])
    ensures r == [] || (!IsTrimChar(r[0]) && !IsTrimChar(r[|r| - 1]))
  {
    var lead := LeadingTrim(s);
    var rest := s[lead..];
    var trail := TrailingTrim(rest);
    var r := rest[..|rest| - trail];
    assert r == s[lead..lead + |r|];
    assert forall k :: lead + |r| <= k < |s| ==> IsTrimChar(s[k]) by {
      forall k | lead + |r| <= k < |s| ensures IsTrimChar(s[k]) {
        assert s[k] == rest[k - lead];
      }
    }
    assert r != [] ==> r[0] == s[lead] && r[|r| - 1] == rest[|rest| - trail - 1];
    r
  }

  /** A string without surrounding trim characters is its own trim. */
  lemma {:induction false} TrimOfTrimmed(s: string)
    requires s == [] || (!IsTrimChar(s[0]) && !IsTrimChar(s[|s| - 1]))
    ensures Trim(s) == s
  {
    assert LeadingTrim(s) == 0;
    assert TrailingTrim(s) == 0;
  }

  /** Trimming twice is trimming once. */
  lemma TrimIdempotent(s: string)
    ensures Trim(Trim(s)) == Trim(s)
  {
    TrimOfTrimmed(Trim(s));
  }

  /** `strtolower` on one character, ASCII letters only. */
  function LowerChar(c: char): char {
    if 'A' <= c <= 'Z' then (c as int + 32) as char else c
  }

  /** `strtolower`, ASCII letters only. */
  function ToLower(s: string): (r: string)
    ensures |r| == |s|
  {
    seq(|s|, i requires 0 <= i < |s| => LowerChar(s[i]))
  }

  /**
   * Lower-casing turns each ASCII capital into its small letter (32 code
   * points on), leaves no capital behind and changes nothing else.
   */
  lemma ToLowerSpec(s: string)
    ensures forall i :: 0 <= i < |s| && 'A' <= s[i] <= 'Z' ==> ToLower(s)[i] as int == s[i] as int + 32
    ensures forall i :: 0 <= i < |s| ==> !('A' <= ToLower(s)[i] <= 'Z')
    ensures forall i :: 0 <= i < |s| && !('A' <= s[i] <= 'Z') ==> ToLower(s)[i] == s[i]
  {
  }

  /** Lower-casing twice is lower-casing once. */
  lemma ToLowerIdempotent(s: string)
    ensures ToLower(ToLower(s)) == ToLower(s)
  {
  }

  /** `array_map('strtolower', xs)`. */
  function ToLowerAll(xs: seq<string>): (r: seq<string>)
    ensures |r| == |xs|
  {
    seq(|xs|, i requires 0 <= i < |xs| => ToLower(xs[i]))
  }

  /** `implode(sep, xs)`: the elements in order, `sep` between neighbours. */
  function Join(xs: seq<string>, sep: string): string
    decreases |xs|
  {
    if |xs| == 0 then ""
    else if |xs| == 1 then xs[0]
    else xs[0] + sep + Join(xs[1..], sep)
  }

  /** A character outside the separator occurs in a join iff it occurs in an element. */
  lemma {:induction false} CharInJoin(xs: seq<string>, sep: string, c: char)
    requires c !in sep
    ensures c in Join(xs, sep) <==> exists i :: 0 <= i < |xs| && c in xs[i]
    decreases |xs|
  {
    if |xs| > 1 {
      CharInJoin(xs[1..], sep, c);
      assert c in Join(xs, sep) <==> c in xs[0] || c in Join(xs[1..], sep);
      if exists i :: 0 <= i < |xs[1..]| && c in xs[1..][i] {
        var i :| 0 <= i < |xs[1..]| && c in xs[1..][i];
        assert c in xs[i + 1];
      }
      if exists i :: 0 <= i < |xs| && c in xs[i] {
        var i :| 0 <= i < |xs| && c in xs[i];
        if i > 0 { assert c in xs[1..][i - 1]; }
      }
    }
  }

  /**
   * `preg_split` on the single character `c` (no limit, no flags): the maximal
   * pieces of `s` between occurrences of `c`, possibly empty.
   */
  function Split(s: string, c: char): (r: seq<string>)
    ensures |r| >= 1
    ensures forall i :: 0 <= i < |r| ==> c !in r[i]
    decreases |s|
  {
    if |s| == 0 then [""]
    else
      var rest := Split(s[1..], c);
      if s[0] == c then [""] + rest
      else [[s[0]] + rest[0]] + rest[1..]
  }

  /** Joining the pieces with the separator gives back the split string. */
  lemma {:induction false} JoinSplit(s: string, c: char)
    ensures Join(Split(s, c), [c]) == s
    decreases |s|
  {
    if |s| > 0 {
      var rest := Split(s[1..], c);
      JoinSplit(s[1..], c);
      if s[0] == c {
        assert Split(s, c) == [""] + rest;
        assert Join([""] + rest, [c]) == "" + [c] + Join(rest, [c]) by {
          assert ([""] + rest)[1..] == rest;
        }
      } else {
        var r := Split(s, c);
        assert r == [[s[0]] + rest[0]] + rest[1..];
        if |rest| == 1 {
          assert Join(r, [c]) == [s[0]] + rest[0];
          assert s == [s[0]] + s[1..];
        } else {
          assert r[1..] == rest[1..];
          assert Join(rest, [c]) == rest[0] + [c] + Join(rest[1..], [c]);
          assert Join(r, [c]) == [s[0]] + rest[0] + [c] + Join(rest[1..], [c]);
          assert s == [s[0]] + s[1..];
        }
      }
    }
  }

  /** Splitting `x + t` where `x` lacks the separator glues `x` onto the first piece. */
  lemma {:induction false} SplitUnderPrefix(x: string, t: string, c: char)
    requires c !in x
    ensures Split(x + t, c) == [x + Split(t, c)[0]] + Split(t, c)[1..]
    decreases |x|
  {
    if |x| == 0 {
      assert x + t == t;
      assert x + Split(t, c)[0] == Split(t, c)[0];
      assert Split(t, c) == [Split(t, c)[0]] + Split(t, c)[1..];
    } else {
      assert (x + t)[0] == x[0] && x[0] != c;
      assert (x + t)[1..] == x[1..] + t;
      SplitUnderPrefix(x[1..], t, c);
      var rest := Split(x[1..] + t, c);
      assert Split(x + t, c) == [[x[0]] + rest[0]] + rest[1..];
      assert rest[0] == x[1..] + Split(t, c)[0];
      assert rest[1..] == Split(t, c)[1..];
      assert [x[0]] + (x[1..] + Split(t, c)[0]) == x + Split(t, c)[0] by {
        assert x == [x[0]] + x[1..];
      }
    }
  }

  /**
   * Splitting a joined list gives the list back, provided no element contains
   * the separator (an empty list joins to "", which splits to [""]).
   */
  lemma {:induction false} SplitJoin(xs: seq<string>, c: char)
    requires |xs| >= 1
    requires forall i :: 0 <= i < |xs| ==> c !in xs[i]
    ensures Split(Join(xs, [c]), c) == xs
    decreases |xs|
  {
    if |xs| == 1 {
      SplitUnderPrefix(xs[0], "", c);
      assert xs[0] + "" == xs[0];
    } else {
      var tail := Join(xs[1..], [c]);
      SplitJoin(xs[1..], c);
      assert xs[0] + [c] + tail == xs[0] + ([c] + tail);
      SplitUnderPrefix(xs[0], [c] + tail, c);
      assert ([c] + tail)[1..] == tail;
      assert Split([c] + tail, c) == [""] + xs[1..];
      assert xs[0] + "" == xs[0];
      assert xs == [xs[0]] + xs[1..];
    }
  }

  /** `explode('.', s, 2)[1]`: what follows the first dot of `s`. */
  function AfterFirstDot(s: string): (r: string)
    requires '.' in s
    ensures |r| < |s| && r == s[|s| - |r|..] && s[|s| - |r| - 1] == '.'
    ensures '.' !in s[..|s| - |r| - 1]
  {
    if s[0] == '.' then s[1..]
    else
      var r := AfterFirstDot(s[1..]);
      assert s[1..][..|s| - 1 - |r| - 1] == s[1..|s| - |r| - 1];
      r
  }

  /** The part after the first dot of `t + "." + k` is `k` when `t` has no dot. */
  lemma {:induction false} AfterFirstDotOfQualified(t: string, k: string)
    requires '.' !in t
    ensures '.' in t + "." + k && AfterFirstDot(t + "." + k) == k
    decreases |t|
  {
    var s := t + "." + k;
    assert s[|t|] == '.';
    if |t| > 0 {
      assert s[1..] == t[1..] + "." + k;
      AfterFirstDotOfQualified(t[1..], k);
    } else {
      assert s[1..] == k;
    }
  }
}
