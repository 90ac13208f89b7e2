/**
 * A filter leaf: a column, a comparison sign and an expression that is either
 * one string (possibly a `*`-pattern) or a list of strings. Leaves are objects
 * whose column and expression are rewritten in place by resolution passes;
 * changing the sign yields a new leaf instead.
 */
module Filters {
  import opened Strings
  import opened Glob

  /** A leaf's expression: one string, or a list meaning "any of these". */
  datatype Expr = Single(text: string) | List(items: seq<string>)

  /**
   * A row attribute as the in-memory matcher reads it: unset or null, a
   * scalar, or a list of values.
   */
  datatype Attr = Null | Scalar(value: string) | Multi(values: seq<string>)

  /** A row: attribute name to attribute. A name not in the map is unset. */
  type Row = map<string, Attr>

  /** How a chain combines its children: all of them, or any of them. */
  datatype ChainKind = MatchAll | MatchAny

  /** A filter tree: leaves and chains of filters. */
  datatype Filter = Leaf(node: FilterExpression) | Chain(kind: ChainKind, children: seq<Filter>)

  /**
   * The regular expression `matches` compiles from a `*`-pattern: its literal
   * segments (quoted, so they match only themselves), and whether the pattern
   * text is well formed. Quoting does not escape the `/` that delimits the
   * pattern, so a segment holding `/` makes the whole pattern invalid.
   */
  datatype Regex = Regex(segments: seq<string>, wellFormed: bool)

  /** `preg_match` of the compiled pattern: an invalid pattern matches nothing. */
  predicate PregMatch(re: Regex, s: string) {
    re.wellFormed && |re.segments| >= 1 && AnchoredMatch(re.segments, s)
  }

  /** An expression as text: a list is bracketed and separated as given. */
  function Render(e: Expr, open: string, sep: string, close: string): string {
    match e
    case Single(t) => t
    case List(items) => open + Join(items, sep) + close
  }

  /**
   * Reference meaning of a leaf on a row. The attribute has to be set and not
   * null. A list expression holds of a scalar attribute that is one of the
   * list's items. A single expression is a glob pattern: it holds of a scalar
   * that it matches, and of a list attribute some of whose values it matches;
   * a pattern with both `*` and `/` holds of nothing.
   */
  predicate RowMatches(column: string, e: Expr, row: Row) {
    column in row &&
    match row[column]
    case Null => false
    case Scalar(v) =>
      (match e
       case List(items) => v in items
       case Single(p) => !('*' in p && '/' in p) && GlobMatch(p, v))
    case Multi(vs) =>
      (match e
       case List(_) => false
       case Single(p) => !('*' in p && '/' in p) && exists w :: w in vs && GlobMatch(p, w))
  }

  class FilterExpression {
    var column: string
    var sign: string
    var expression: Expr

    /** A new leaf; the column is trimmed, sign and expression kept verbatim. */
    constructor (column: string, sign: string, expression: Expr)
      ensures this.column == Trim(column)
      ensures this.sign == sign && this.expression == expression
    {
      this.column := Trim(column);
      this.sign := sign;
      this.expression := expression;
    }

    predicate IsExpression() { true }

    predicate IsChain() { false }

    predicate IsEmpty() { false }

    function GetColumn(): string
      reads this
    {
      column
    }

    function GetSign(): string
      reads this
    {
      sign
    }

    function GetExpression(): Expr
      reads this
    {
      expression
    }

    /** Replaces the column in place and returns this very leaf. */
    method SetColumn(c: string) returns (self: FilterExpression)
      modifies this
      ensures self == this
      ensures column == c && sign == old(sign) && expression == old(expression)
    {
      column := c;
      self := this;
    }

    /** Replaces the expression in place and returns this very leaf. */
    method SetExpression(e: Expr) returns (self: FilterExpression)
      modifies this
      ensures self == this
      ensures expression == e && column == old(column) && sign == old(sign)
    {
      expression := e;
      self := this;
    }

    /**
     * The same leaf when the sign does not change; otherwise a fresh leaf made
     * by the leaf factory (which trims the column) with the new sign, while
     * this leaf stays as it was.
     */
    method SetSign(s: string) returns (r: FilterExpression)
      ensures s == sign ==> r == this
      ensures s != sign ==> fresh(r) && r.column == Trim(column) && r.sign == s && r.expression == expression
    {
      if s != sign {
        r := new FilterExpression(column, s, expression);
        return;
      }
      r := this;
    }

    function ListFilteredColumns(): seq<string>
      reads this
    {
      [column]
    }

    /** Human-readable rendering: `column sign value`, a list as `( v1 | v2 )`. */
    function ToString(): string
      reads this
    {
      column + " " + sign + " " + Render(expression, "( ", " | ", " )")
    }

    /** Compact rendering for textual transport: `column` `sign` `value`, a list as `(v1|v2)`. */
    function ToQueryString(): string
      reads this
    {
      column + sign + Render(expression, "(", "|", ")")
    }

    /**
     * The pattern `matches` builds from a `*`-expression: the pieces between
     * the `*`s, quoted one by one. It matches exactly what the glob matches,
     * unless a piece holds `/`, which makes it invalid.
     */
    static method CompilePattern(pattern: string) returns (re: Regex)
      ensures re.segments == Split(pattern, '*')
      ensures re.wellFormed <==> '/' !in pattern
      ensures forall s :: PregMatch(re, s) <==> '/' !in pattern && GlobMatch(pattern, s)
    {
      var pieces := Split(pattern, '*');
      var parts: seq<string> := [];
      var wellFormed := true;
      var i := 0;
      while i < |pieces|
        invariant 0 <= i <= |pieces|
        invariant parts == pieces[..i]
        invariant wellFormed <==> forall j :: 0 <= j < i ==> '/' !in pieces[j]
      {
        parts := parts + [pieces[i]];
        wellFormed := wellFormed && '/' !in pieces[i];
        i := i + 1;
      }
      assert parts == pieces;
      re := Regex(parts, wellFormed);
      JoinSplit(pattern, '*');
      CharInJoin(pieces, "*", '/');
      forall s ensures PregMatch(re, s) <==> '/' !in pattern && GlobMatch(pattern, s) {
        CompiledMatchesGlob(pattern, s);
      }
    }

    /**
     * In-memory match against a row, following the reference meaning. A
     * pattern without `*` is compared for equality (or membership in a list
     * attribute); a pattern with `*` is compiled to an anchored regular
     * expression and tried on the value, or on each value of a list.
     */
    method Matches(row: Row) returns (b: bool)
      ensures b == RowMatches(column, expression, row)
    {
      if column !in row || row[column].Null? {
        return false;
      }
      var value := row[column];
      if expression.List? {
        return value.Scalar? && value.value in expression.items;
      }
      var pattern := expression.text;
      if '*' !in pattern {
        if value.Multi? {
          forall w | w in value.values ensures GlobMatch(pattern, w) <==> w == pattern {
            GlobWithoutStar(pattern, w);
          }
          return pattern in value.values;
        }
        GlobWithoutStar(pattern, value.value);
        return value.value == pattern;
      }

      var re := CompilePattern(pattern);

      if value.Multi? {
        var candidates := value.values;
        var k := 0;
        while k < |candidates|
          invariant 0 <= k <= |candidates|
          invariant forall j :: 0 <= j < k ==> !PregMatch(re, candidates[j])
        {
          if PregMatch(re, candidates[k]) {
            return true;
          }
          k := k + 1;
        }
        return false;
      }
      return PregMatch(re, value.value);
    }

    /** `this AND other`, as a new chain; neither operand changes. */
    function AndFilter(other: Filter): Filter
    {
      Chain(MatchAll, [Leaf(this), other])
    }

    /** `this OR other`, as a new chain; neither operand changes. */
    function OrFilter(other: Filter): Filter
    {
      Chain(MatchAny, [Leaf(this), other])
    }
  }

  /** A leaf is an expression, not a chain, never empty, and filters exactly its column. */
  lemma LeafShape(e: FilterExpression)
    ensures e.IsExpression() && !e.IsChain() && !e.IsEmpty()
    ensures e.ListFilteredColumns() == [e.column]
  {
  }

  /**
   * Combining a leaf with another filter builds a two-operand chain: all-of
   * for `and`, any-of for `or`, with this leaf first and the other filter
   * second, neither of them changed.
   */
  lemma ChainShapes(e: FilterExpression, other: Filter)
    ensures var a := e.AndFilter(other);
            a.Chain? && a.kind == MatchAll && |a.children| == 2
            && a.children[0] == Leaf(e) && a.children[1] == other
    ensures var o := e.OrFilter(other);
            o.Chain? && o.kind == MatchAny && |o.children| == 2
            && o.children[0] == Leaf(e) && o.children[1] == other
    ensures e.AndFilter(other) != e.OrFilter(other)
  {
  }

  /** An unset or null attribute never matches, whatever the expression. */
  lemma UnsetNeverMatches(column: string, e: Expr, row: Row)
    requires column !in row || row[column] == Null
    ensures !RowMatches(column, e, row)
  {
  }

  /** A list expression is set membership of a scalar attribute. */
  lemma ListIsMembership(column: string, items: seq<string>, row: Row)
    ensures RowMatches(column, List(items), row)
            <==> column in row && row[column].Scalar? && row[column].value in items
  {
  }

  /**
   * Without `*`, a single expression is exact equality with a scalar, or
   * membership in a list attribute.
   */
  lemma NoStarIsEquality(column: string, p: string, row: Row)
    requires '*' !in p
    ensures RowMatches(column, Single(p), row)
            <==> column in row
                 && ((row[column].Scalar? && row[column].value == p)
                     || (row[column].Multi? && p in row[column].values))
  {
    if column in row {
      match row[column]
      case Null =>
      case Scalar(v) => GlobWithoutStar(p, v);
      case Multi(vs) =>
        forall w | w in vs ensures GlobMatch(p, w) <==> w == p {
          GlobWithoutStar(p, w);
        }
    }
  }

  /** The pattern `*` matches every set scalar and every non-empty list attribute. */
  lemma LoneStarMatchesAll(column: string, row: Row)
    requires column in row
    ensures row[column].Scalar? ==> RowMatches(column, Single("*"), row)
    ensures row[column].Multi? ==> (RowMatches(column, Single("*"), row) <==> row[column].values != [])
  {
    assert '/' !in "*";
    match row[column]
    case Null =>
    case Scalar(v) => StarMatchesAll(v);
    case Multi(vs) =>
      if vs != [] {
        StarMatchesAll(vs[0]);
        assert vs[0] in vs;
      }
  }

  /**
   * The renderings: `column sign value` with single spaces, and the three
   * run together; a list renders as `( v1 | v2 )` and `(v1|v2)`, items in
   * list order.
   */
  lemma Renderings(e: FilterExpression)
    ensures e.expression.Single? ==>
              && e.ToString() == e.column + " " + e.sign + " " + e.expression.text
              && e.ToQueryString() == e.column + e.sign + e.expression.text
    ensures e.expression.List? ==>
              && e.ToString() == e.column + " " + e.sign + " " + "( " + Join(e.expression.items, " | ") + " )"
              && e.ToQueryString() == e.column + e.sign + "(" + Join(e.expression.items, "|") + ")"
  {
  }

  /** The leaf `host = [a, b]` renders as `host = ( a | b )` and `host=(a|b)`. */
  lemma RenderingExample(e: FilterExpression)
    requires e.column == "host" && e.sign == "=" && e.expression == List(["a", "b"])
    ensures e.ToString() == "host = ( a | b )"
    ensures e.ToQueryString() == "host=(a|b)"
  {
    assert Join(["a", "b"], " | ") == "a | b" by {
      assert ["a", "b"][1..] == ["b"];
    }
    assert Join(["a", "b"], "|") == "a|b" by {
      assert ["a", "b"][1..] == ["b"];
    }
  }

  /**
   * The compact rendering of a list leaf is lossless: cutting the text between
   * the brackets at `|` gives the items back, provided no item holds `|`.
   */
  lemma QueryStringListRoundTrip(e: FilterExpression)
    requires e.expression.List? && |e.expression.items| >= 1
    requires forall i :: 0 <= i < |e.expression.items| ==> '|' !in e.expression.items[i]
    ensures var q := e.ToQueryString();
            var head := |e.column| + |e.sign| + 1;
            head <= |q| - 1 && q[head - 1] == '(' && q[|q| - 1] == ')'
            && Split(q[head..|q| - 1], '|') == e.expression.items
  {
    var items := e.expression.items;
    var q := e.ToQueryString();
    var inner := Join(items, "|");
    assert q == e.column + e.sign + "(" + inner + ")";
    assert q[|e.column| + |e.sign| + 1..|q| - 1] == inner;
    SplitJoin(items, '|');
  }
}
