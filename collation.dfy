/**
 * PostgreSQL collation handling.
 *
 * For a PostgreSQL datasource every query column has a trailing
 * ` COLLATE <collation>` instruction removed, and the columns it was removed
 * from are remembered. A filter leaf on such a column is later rewritten to
 * compare case-insensitively: its column is wrapped in `LOWER(...)` and its
 * value or values are lower-cased.
 */
module Collation {
  import opened Options
  import opened Strings
  import opened Filters
  import opened StatementMaps

  /** The instruction the pattern `/ COLLATE .+$/` looks for. */
  const Collate: string := " COLLATE "

  /** The pattern matches at `i`: the instruction starts there and at least one character follows it. */
  predicate CollateAt(s: string, i: nat) {
    i + |Collate| < |s| && s[i..i + |Collate|] == Collate
  }

  /** The leftmost match at or after `from`, if any. */
  function CollateIndex(s: string, from: nat): (r: Option<nat>)
    ensures r.Some? ==> from <= r.value && CollateAt(s, r.value)
                        && forall j :: from <= j < r.value ==> !CollateAt(s, j)
    ensures r.None? ==> forall j :: from <= j ==> !CollateAt(s, j)
    decreases |s| - from
  {
    if from + |Collate| >= |s| then None
    else if CollateAt(s, from) then Some(from)
    else CollateIndex(s, from + 1)
  }

  /** `preg_replace('/ COLLATE .+$/', '', s)`: `s` cut at its leftmost match, `s` itself when there is none. */
  function StripCollate(s: string): (r: string)
    ensures |r| <= |s| && r == s[..|r|]
  {
    match CollateIndex(s, 0)
    case Some(i) => s[..i]
    case None => s
  }

  /** The replacement count is positive. */
  predicate HasCollate(s: string) {
    CollateIndex(s, 0).Some?
  }

  /**
   * What the strip removes is exactly one instruction with a non-empty rest,
   * and what it keeps holds no match; a column without a match is kept whole.
   */
  lemma StripCollateSpec(s: string)
    ensures HasCollate(s) ==> exists rest :: |rest| >= 1 && s == StripCollate(s) + Collate + rest
    ensures !HasCollate(s) ==> StripCollate(s) == s
    ensures !HasCollate(StripCollate(s))
  {
    var r := StripCollate(s);
    if HasCollate(s) {
      var i := CollateIndex(s, 0).value;
      var rest := s[i + |Collate|..];
      assert s == s[..i] + s[i..i + |Collate|] + rest;
    }
    if HasCollate(r) {
      var j := CollateIndex(r, 0).value;
      assert r[j..j + |Collate|] == s[j..j + |Collate|];
      assert CollateAt(s, j);
    }
  }

  /** Stripping twice is stripping once. */
  lemma StripCollateIdempotent(s: string)
    ensures StripCollate(StripCollate(s)) == StripCollate(s)
  {
    StripCollateSpec(s);
  }

  /** `x COLLATE ci` is cut to `x`; `x COLLATE ` with nothing after it is kept. */
  lemma StripCollateExample()
    ensures StripCollate("x" + Collate + "ci") == "x"
    ensures StripCollate("x" + Collate) == "x" + Collate
  {
    var s := "x" + Collate + "ci";
    assert s[1..1 + |Collate|] == Collate;
    assert s[0..|Collate|][0] == 'x' != Collate[0];
    assert CollateIndex(s, 0) == Some(1);
    assert s[..1] == "x";
    var t := "x" + Collate;
    assert t[0..|Collate|][0] == 'x' != Collate[0];
  }

  /** One table's query columns with their instructions removed; aliases untouched. */
  function StripTable(tc: TableColumns): TableColumns
  {
    TableColumns(tc.table, seq(|tc.entries|, j requires 0 <= j < |tc.entries|
                                 => Entry(tc.entries[j].alias, StripCollate(tc.entries[j].column))))
  }

  /** All query columns with their instructions removed; tables untouched and in order. */
  function StripAll(qc: seq<TableColumns>): seq<TableColumns>
  {
    seq(|qc|, i requires 0 <= i < |qc| => StripTable(qc[i]))
  }

  /** The stripped columns of a list of entries that had an instruction, in order. */
  function CollatedEntries(es: seq<Entry>): seq<string>
    decreases |es|
  {
    if es == [] then []
    else CollatedEntries(es[..|es| - 1])
         + (if HasCollate(es[|es| - 1].column) then [StripCollate(es[|es| - 1].column)] else [])
  }

  /** The stripped columns of all tables that had an instruction, table by table, in order. */
  function Collated(qc: seq<TableColumns>): seq<string>
    decreases |qc|
  {
    if qc == [] then [] else Collated(qc[..|qc| - 1]) + CollatedEntries(qc[|qc| - 1].entries)
  }

  /** Every column that had an instruction is recorded, stripped. */
  lemma {:induction false} CollatedEntriesHas(es: seq<Entry>, j: nat)
    requires j < |es| && HasCollate(es[j].column)
    ensures StripCollate(es[j].column) in CollatedEntries(es)
    decreases |es|
  {
    var init := es[..|es| - 1];
    if j < |init| {
      CollatedEntriesHas(init, j);
      assert init[j] == es[j];
    }
  }

  /** Every recorded column comes from one that had an instruction. */
  lemma {:induction false} CollatedEntriesFrom(es: seq<Entry>, c: string) returns (j: nat)
    requires c in CollatedEntries(es)
    ensures j < |es| && HasCollate(es[j].column) && c == StripCollate(es[j].column)
    decreases |es|
  {
    var init := es[..|es| - 1];
    if c in CollatedEntries(init) {
      j := CollatedEntriesFrom(init, c);
      assert init[j] == es[j];
    } else {
      j := |es| - 1;
    }
  }

  /**
   * A column is recorded exactly when it had an instruction, and is then
   * recorded in its stripped form.
   */
  lemma CollatedEntriesSpec(es: seq<Entry>, c: string)
    ensures c in CollatedEntries(es) <==>
            exists j :: 0 <= j < |es| && HasCollate(es[j].column) && c == StripCollate(es[j].column)
  {
    if c in CollatedEntries(es) {
      var j := CollatedEntriesFrom(es, c);
    }
    if exists j :: 0 <= j < |es| && HasCollate(es[j].column) && c == StripCollate(es[j].column) {
      var j :| 0 <= j < |es| && HasCollate(es[j].column) && c == StripCollate(es[j].column);
      CollatedEntriesHas(es, j);
    }
  }

  /** Recording stripped columns is exactly what made them strippable: their earlier form had an instruction. */
  lemma {:induction false} CollatedAreStripped(qc: seq<TableColumns>, c: string)
    requires c in Collated(qc)
    ensures exists i, j :: 0 <= i < |qc| && 0 <= j < |qc[i].entries|
              && HasCollate(qc[i].entries[j].column) && c == StripAll(qc)[i].entries[j].column
    decreases |qc|
  {
    var init := qc[..|qc| - 1];
    var last := qc[|qc| - 1];
    if c in Collated(init) {
      CollatedAreStripped(init, c);
      var i, j :| 0 <= i < |init| && 0 <= j < |init[i].entries|
                  && HasCollate(init[i].entries[j].column) && c == StripAll(init)[i].entries[j].column;
      assert HasCollate(qc[i].entries[j].column) && c == StripAll(qc)[i].entries[j].column by {
        assert qc[i] == init[i];
        assert StripAll(qc)[i] == StripTable(qc[i]) && StripAll(init)[i] == StripTable(init[i]);
      }
    } else {
      assert c in CollatedEntries(last.entries);
      var j := CollatedEntriesFrom(last.entries, c);
      assert c == StripAll(qc)[|qc| - 1].entries[j].column by {
        assert StripAll(qc)[|qc| - 1] == StripTable(last);
      }
    }
  }

  // ---------------------------------------------------------------------------
  // The rewrite of a filter leaf

  /** `strpos(column, 'LOWER') === 0`. */
  predicate StartsWithLower(column: string) {
    "LOWER" <= column
  }

  /** The leaf is on a column whose collation was removed and is not yet wrapped. */
  predicate NeedsLowering(withoutCollation: seq<string>, column: string) {
    column in withoutCollation && !StartsWithLower(column)
  }

  /** The value or values lower-cased, element-wise for a list. */
  function LowerExpr(e: Expr): Expr
  {
    match e
    case Single(v) => Single(ToLower(v))
    case List(vs) => List(ToLowerAll(vs))
  }

  /** The rewritten column and expression of a leaf. */
  datatype LeafState = LeafParts(column: string, expression: Expr)

  /** The rewrite of one leaf, as a value. */
  function LowerCaseRewrite(withoutCollation: seq<string>, leaf: LeafState): LeafState {
    if NeedsLowering(withoutCollation, leaf.column)
    then LeafParts("LOWER(" + leaf.column + ")", LowerExpr(leaf.expression))
    else leaf
  }

  /** A rewritten leaf is wrapped and lower-cased; any other leaf is left alone. */
  lemma LowerCaseRewriteSpec(withoutCollation: seq<string>, leaf: LeafState)
    ensures var r := LowerCaseRewrite(withoutCollation, leaf);
            && (NeedsLowering(withoutCollation, leaf.column) ==>
                  && StartsWithLower(r.column)
                  && r.column == "LOWER(" + leaf.column + ")"
                  && r.expression.Single? == leaf.expression.Single?
                  && (r.expression.Single? ==> r.expression.text == ToLower(leaf.expression.text))
                  && (r.expression.List? ==>
                        (&& |r.expression.items| == |leaf.expression.items|
                         && forall i :: 0 <= i < |leaf.expression.items| ==>
                              r.expression.items[i] == ToLower(leaf.expression.items[i]))))
            && (!NeedsLowering(withoutCollation, leaf.column) ==> r == leaf)
  {
  }

  /** Rewriting twice is rewriting once: a wrapped column starts with `LOWER`. */
  lemma LowerCaseRewriteIdempotent(withoutCollation: seq<string>, leaf: LeafState)
    ensures LowerCaseRewrite(withoutCollation, LowerCaseRewrite(withoutCollation, leaf))
            == LowerCaseRewrite(withoutCollation, leaf)
  {
    if NeedsLowering(withoutCollation, leaf.column) {
      assert "LOWER" <= "LOWER(" + leaf.column + ")";
    }
  }
}
