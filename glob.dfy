/**
 * The `*` wildcard of filter expressions.
 *
 * `GlobMatch` is the reference meaning: every `*` of the pattern stands for
 * any, possibly empty, run of characters and every other character stands
 * for itself, and the whole subject has to be consumed.
 *
 * `AnchoredMatch` is what the filter actually runs: the pattern is cut at its
 * `*`s into literal segments, which are joined with `.*` and anchored with
 * `^...$`. A segment list `[s0, s1, ..., sn]` therefore denotes the regular
 * expression `^s0.*s1.* ... .*sn$` over literal segments.
 */
module Glob {
  import opened Strings

  /** Reference glob semantics of a `*`-pattern. */
  predicate GlobMatch(p: string, s: string)
    decreases |p| + |s|
  {
    if p == [] then s == []
    else if p[0] == '*' then GlobMatch(p[1..], s) || (|s| > 0 && GlobMatch(p, s[1..]))
    else |s| > 0 && s[0] == p[0] && GlobMatch(p[1..], s[1..])
  }

  /** `^s0.*s1 ... .*sn$`: `s` starts with `s0` and the rest floats. */
  predicate AnchoredMatch(segs: seq<string>, s: string)
    requires |segs| >= 1
    decreases |segs|, 0, 0
  {
    if |segs| == 1 then s == segs[0]
    else segs[0] <= s && FloatingMatch(segs[1..], s[|segs[0]|..])
  }

  /** `.*s0.*s1 ... .*sn$`: some suffix of `s` matches the segments anchored. */
  predicate FloatingMatch(segs: seq<string>, s: string)
    requires |segs| >= 1
    decreases |segs|, 1, |s|
  {
    AnchoredMatch(segs, s) || (|s| > 0 && FloatingMatch(segs, s[1..]))
  }

  /** A leading literal character of the first segment must lead the subject. */
  lemma LiteralHead(c: char, segs: seq<string>, s: string)
    requires |segs| >= 1
    ensures AnchoredMatch([[c] + segs[0]] + segs[1..], s)
            == (|s| > 0 && s[0] == c && AnchoredMatch(segs, s[1..]))
  {
    var segs' := [[c] + segs[0]] + segs[1..];
    assert segs'[1..] == segs[1..];
    if |s| > 0 {
      assert ([c] + segs[0] <= s) == (s[0] == c && segs[0] <= s[1..]);
      if |segs| > 1 && [c] + segs[0] <= s {
        assert s[|segs'[0]|..] == s[1..][|segs[0]|..];
      }
    }
  }

  /**
   * The compiled form agrees with the reference: cutting the pattern at its
   * `*`s and matching the segments anchored is glob matching.
   */
  lemma {:induction false} CompiledMatchesGlob(p: string, s: string)
    ensures AnchoredMatch(Split(p, '*'), s) == GlobMatch(p, s)
    decreases |p|, 1, |s|
  {
    if p == [] {
    } else if p[0] == '*' {
      var rest := Split(p[1..], '*');
      assert Split(p, '*') == [""] + rest;
      assert ([""] + rest)[1..] == rest;
      assert s[|""|..] == s;
      StarHead(p, s);
    } else {
      var rest := Split(p[1..], '*');
      assert Split(p, '*') == [[p[0]] + rest[0]] + rest[1..];
      LiteralHead(p[0], rest, s);
      assert [rest[0]] + rest[1..] == rest;
      if |s| > 0 {
        CompiledMatchesGlob(p[1..], s[1..]);
      }
    }
  }

  /** A leading `*` of the pattern is the floating match of the rest. */
  lemma {:induction false} StarHead(p: string, s: string)
    requires p != [] && p[0] == '*'
    ensures FloatingMatch(Split(p[1..], '*'), s) == GlobMatch(p, s)
    decreases |p|, 0, |s|
  {
    CompiledMatchesGlob(p[1..], s);
    if |s| > 0 {
      StarHead(p, s[1..]);
    }
  }

  /** A pattern without `*` matches exactly itself. */
  lemma {:induction false} GlobWithoutStar(p: string, s: string)
    requires '*' !in p
    ensures GlobMatch(p, s) <==> s == p
    decreases |p|
  {
    if p != [] {
      assert '*' !in p[1..];
      if |s| > 0 {
        GlobWithoutStar(p[1..], s[1..]);
        assert s == [s[0]] + s[1..];
        assert p == [p[0]] + p[1..];
      }
    }
  }

  /** The pattern `*` matches every string. */
  lemma {:induction false} StarMatchesAll(s: string)
    ensures GlobMatch("*", s)
    decreases |s|
  {
    assert "*"[1..] == "";
    if |s| > 0 {
      StarMatchesAll(s[1..]);
    }
  }

  /** A floating single segment is a suffix test. */
  lemma {:induction false} FloatingSuffix(b: string, s: string)
    ensures FloatingMatch([b], s) <==> |b| <= |s| && s[|s| - |b|..] == b
    decreases |s|
  {
    if |s| > 0 {
      FloatingSuffix(b, s[1..]);
      if |b| <= |s| - 1 {
        assert s[|s| - |b|..] == s[1..][|s[1..]| - |b|..];
      }
    }
  }

  /** Cutting `a*b` at its only `*` gives `a` and `b`. */
  lemma SplitOneStar(a: string, b: string)
    requires '*' !in a && '*' !in b
    ensures Split(a + "*" + b, '*') == [a, b]
  {
    assert Join([a, b], "*") == a + "*" + b;
    SplitJoin([a, b], '*');
  }

  /** The anchored match of two segments: a prefix and a non-overlapping suffix. */
  lemma TwoSegments(a: string, b: string, s: string)
    ensures AnchoredMatch([a, b], s) <==> |a| + |b| <= |s| && a <= s && s[|s| - |b|..] == b
  {
    assert [a, b][1..] == [b];
    if a <= s {
      FloatingSuffix(b, s[|a|..]);
      if |a| + |b| <= |s| {
        assert s[|a|..][|s[|a|..]| - |b|..] == s[|s| - |b|..];
      }
    }
  }

  /**
   * Anchoring: with a single `*`, `a*b` matches exactly the strings that start
   * with `a`, end with `b` and are long enough for both not to overlap.
   */
  lemma OneStarAnchored(a: string, b: string, s: string)
    requires '*' !in a && '*' !in b
    ensures GlobMatch(a + "*" + b, s)
            <==> |a| + |b| <= |s| && a <= s && s[|s| - |b|..] == b
  {
    SplitOneStar(a, b);
    CompiledMatchesGlob(a + "*" + b, s);
    TwoSegments(a, b, s);
  }

  /** The examples `a*b*c` ~ `abc`, `a*b*c` ~ `aXbYc` and `a*b*c` !~ `bac`. */
  lemma GlobExamples()
    ensures GlobMatch("a*b*c", "abc")
    ensures GlobMatch("a*b*c", "aXbYc")
    ensures !GlobMatch("a*b*c", "bac")
  {
    assert GlobMatch("c", "c");
    assert GlobMatch("*c", "c");
    assert GlobMatch("b*c", "bc");
    assert GlobMatch("*b*c", "bc");
    assert GlobMatch("*c", "Yc");
    assert GlobMatch("b*c", "bYc");
    assert GlobMatch("*b*c", "bYc");
    assert GlobMatch("*b*c", "XbYc");
  }
}
