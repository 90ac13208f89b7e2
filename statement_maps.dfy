/**
 * The four statement maps and the lookups over them.
 *
 * Each table of the statement column specification lists entries
 * `alias => column` or bare `column`s. The builder walks every entry of every
 * table in order and records it twice: keyed by its alias (the column when it
 * has none) in the alias-to-table and alias-to-column maps, and keyed by its
 * column in the column-to-table and column-to-alias maps. Both recordings
 * follow one rule: a key seen for the first time gets an unqualified entry; a
 * key seen again has its unqualified entry, if still set, moved to
 * `"<table>.<key>"` and replaced by null, and gets a `"<table>.<key>"` entry for
 * the current table as well.
 */
module StatementMaps {
  import opened Options
  import opened Strings
  import opened OrderedMaps
  import opened Errors

  /** One entry of a table's statement columns: `alias => column`, or a bare `column`. */
  datatype Entry = Entry(alias: Option<string>, column: string)

  /** A table and its statement-column entries in declaration order. */
  datatype TableColumns = TableColumns(table: string, entries: seq<Entry>)

  /** The statement column specification: tables in declaration order. */
  type ColumnSpec = seq<TableColumns>

  /** The key an entry is recorded under in the alias maps. */
  function Key(e: Entry): string {
    e.alias.GetOr(e.column)
  }

  /** One recording: the table, the key it is recorded under and the value stored for it. */
  datatype Triple = Triple(table: string, key: string, value: string)

  /** A map from keys to tables and its companion map from the same keys to values. */
  datatype Track = Track(tables: OMap, values: OMap)

  /** Keyed by alias (storing the column), or keyed by column (storing the alias). */
  datatype Kind = ByAlias | ByColumn

  function TripleOf(kind: Kind, table: string, e: Entry): Triple {
    match kind
    case ByAlias => Triple(table, Key(e), e.column)
    case ByColumn => Triple(table, e.column, Key(e))
  }

  /** The recordings of one table, in entry order. */
  function TableTriples(kind: Kind, tc: TableColumns): (r: seq<Triple>)
    ensures |r| == |tc.entries|
  {
    seq(|tc.entries|, i requires 0 <= i < |tc.entries| => TripleOf(kind, tc.table, tc.entries[i]))
  }

  /** The recordings of a whole specification, table by table, entry by entry. */
  function Triples(kind: Kind, spec: ColumnSpec): seq<Triple>
    decreases |spec|
  {
    if spec == [] then [] else Triples(kind, spec[..|spec| - 1]) + TableTriples(kind, spec[|spec| - 1])
  }

  /** `"<table>.<key>"`. */
  function Qualified(table: string, key: string): string {
    table + "." + key
  }

  /** One step of the builder: record `x` in the track, with the ambiguity rule. */
  function Record(tr: Track, x: Triple): Track {
    var k := x.key;
    if HasKey(tr.tables, k) then
      var demoted :=
        if IsSet(tr.tables, k) then
          var et := tr.tables.m[k].value;
          Track(Put(Put(tr.tables, Qualified(et, k), Some(et)), k, None),
                Put(Put(tr.values, Qualified(et, k), ValueAt(tr.values, k)), k, None))
        else tr;
      Track(Put(demoted.tables, Qualified(x.table, k), Some(x.table)),
            Put(demoted.values, Qualified(x.table, k), Some(x.value)))
    else
      Track(Put(tr.tables, k, Some(x.table)), Put(tr.values, k, Some(x.value)))
  }

  /** The track after recording every triple in order, starting from empty maps. */
  function Fold(ts: seq<Triple>): Track
    decreases |ts|
  {
    if ts == [] then Track(Empty(), Empty()) else Record(Fold(ts[..|ts| - 1]), ts[|ts| - 1])
  }

  /** `statementAliasTableMap` and `statementAliasColumnMap` of a specification. */
  function AliasTrack(spec: ColumnSpec): Track {
    Fold(Triples(ByAlias, spec))
  }

  /** `statementColumnTableMap` and `statementColumnAliasMap` of a specification. */
  function ColumnTrack(spec: ColumnSpec): Track {
    Fold(Triples(ByColumn, spec))
  }

  // ---------------------------------------------------------------------------
  // What the builder produces, key by key

  /** The tables of the recordings under key `k`, one per recording, in order. */
  function Occ(ts: seq<Triple>, k: string): seq<string>
    decreases |ts|
  {
    if ts == [] then []
    else Occ(ts[..|ts| - 1], k) + (if ts[|ts| - 1].key == k then [ts[|ts| - 1].table] else [])
  }

  /** The value of the last recording of key `k` for table `t`. */
  function LastValue(ts: seq<Triple>, t: string, k: string): (v: string)
    requires t in Occ(ts, k)
    ensures Triple(t, k, v) in ts
    decreases |ts|
  {
    var x := ts[|ts| - 1];
    if x.table == t && x.key == k then x.value
    else
      var v := LastValue(ts[..|ts| - 1], t, k);
      assert Triple(t, k, v) in ts[..|ts| - 1];
      v
  }

  predicate DotFree(s: string) {
    '.' !in s
  }

  ghost predicate DotFreeKeys(ts: seq<Triple>) {
    forall i :: 0 <= i < |ts| ==> DotFree(ts[i].key)
  }

  /**
   * The maps hold, for key `k`: nothing when no recording used `k`; an
   * unqualified entry to the one table and its value when exactly one did;
   * null unqualified entries when two or more did, and then a qualified entry
   * `"<t>.<k>"` for every table `t` among them, holding that table's last
   * value. No other qualified entry exists for `k`.
   */
  ghost predicate KeyFacts(ts: seq<Triple>, tr: Track, k: string) {
    UnqualifiedFacts(ts, tr, k) && QualifiedKeys(ts, tr, k) && QualifiedValues(ts, tr, k)
  }

  /** The unqualified entries for `k`. */
  ghost predicate UnqualifiedFacts(ts: seq<Triple>, tr: Track, k: string) {
    var occ := Occ(ts, k);
    && (|occ| == 0 ==> !HasKey(tr.tables, k) && !HasKey(tr.values, k))
    && (|occ| == 1 ==> ValueAt(tr.tables, k) == Some(occ[0])
                       && ValueAt(tr.values, k) == Some(LastValue(ts, occ[0], k)))
    && (|occ| >= 2 ==> HasKey(tr.tables, k) && tr.tables.m[k] == None
                       && HasKey(tr.values, k) && tr.values.m[k] == None)
  }

  /** Which qualified keys `"<t>.<k>"` exist. */
  ghost predicate QualifiedKeys(ts: seq<Triple>, tr: Track, k: string) {
    var occ := Occ(ts, k);
    && (forall t :: HasKey(tr.tables, Qualified(t, k)) <==> |occ| >= 2 && t in occ)
    && (forall t :: HasKey(tr.values, Qualified(t, k)) <==> |occ| >= 2 && t in occ)
  }

  /** What the qualified keys `"<t>.<k>"` hold. */
  ghost predicate QualifiedValues(ts: seq<Triple>, tr: Track, k: string) {
    var occ := Occ(ts, k);
    forall t :: |occ| >= 2 && t in occ ==>
      ValueAt(tr.tables, Qualified(t, k)) == Some(t)
      && ValueAt(tr.values, Qualified(t, k)) == Some(LastValue(ts, t, k))
  }

  /** `s` ends with `"." + k`. */
  predicate EndsWithDotKey(s: string, k: string) {
    |s| > |k| && s[|s| - |k| - 1] == '.' && s[|s| - |k|..] == k
  }

  lemma QualifiedShape(t: string, k: string)
    ensures EndsWithDotKey(Qualified(t, k), k)
    ensures !DotFree(Qualified(t, k))
  {
    var q := Qualified(t, k);
    assert q[|t|] == '.';
    assert q[|q| - |k|..] == k;
  }

  /** With dot-free keys, a qualified key ends in `"." + k` for its own key `k` only. */
  lemma QualifiedEndsOnlyWith(t: string, k: string, k0: string)
    requires DotFree(k) && DotFree(k0) && k != k0
    ensures !EndsWithDotKey(Qualified(t, k), k0)
  {
    var q := Qualified(t, k);
    QualifiedShape(t, k);
    if |q| > |k0| && q[|q| - |k0| - 1] == '.' {
      if |k0| > |k| {
        assert q[|q| - |k0|..][|k0| - |k| - 1] == q[|q| - |k| - 1];
      } else {
        assert q[|q| - |k|..] == k;
      }
    }
  }

  /** Qualifying one key with two tables gives one string only for one table. */
  lemma QualifiedSameKey(t1: string, t2: string, k: string)
    ensures Qualified(t1, k) == Qualified(t2, k) ==> t1 == t2
  {
    if Qualified(t1, k) == Qualified(t2, k) {
      assert |t1| == |t2|;
      assert t1 == Qualified(t1, k)[..|t1|];
    }
  }

  /** Recording `x` touches only key `x.key` and keys ending in `"." + x.key`. */
  lemma RecordFrame(tr: Track, x: Triple, q: string)
    requires q != x.key && !EndsWithDotKey(q, x.key)
    ensures HasKey(Record(tr, x).tables, q) == HasKey(tr.tables, q)
    ensures HasKey(Record(tr, x).values, q) == HasKey(tr.values, q)
    ensures ValueAt(Record(tr, x).tables, q) == ValueAt(tr.tables, q)
    ensures ValueAt(Record(tr, x).values, q) == ValueAt(tr.values, q)
  {
    QualifiedShape(x.table, x.key);
    if IsSet(tr.tables, x.key) {
      QualifiedShape(tr.tables.m[x.key].value, x.key);
    }
  }

  lemma OccSnoc(ps: seq<Triple>, x: Triple, k: string)
    ensures Occ(ps + [x], k) == Occ(ps, k) + (if x.key == k then [x.table] else [])
  {
    assert (ps + [x])[..|ps|] == ps;
  }

  lemma LastValueSnoc(ps: seq<Triple>, x: Triple, t: string, k: string)
    requires t in Occ(ps + [x], k)
    ensures x.table == t && x.key == k ==> LastValue(ps + [x], t, k) == x.value
    ensures !(x.table == t && x.key == k) ==> t in Occ(ps, k) && LastValue(ps + [x], t, k) == LastValue(ps, t, k)
  {
    OccSnoc(ps, x, k);
    assert (ps + [x])[..|ps|] == ps;
  }

  /** Recording a triple under another key keeps the facts about `k`. */
  lemma RecordOtherKey(ps: seq<Triple>, tr: Track, x: Triple, k: string)
    requires DotFree(k) && DotFree(x.key) && x.key != k
    requires KeyFacts(ps, tr, k)
    ensures KeyFacts(ps + [x], Record(tr, x), k)
  {
    var tr' := Record(tr, x);
    OccSnoc(ps, x, k);
    assert Occ(ps + [x], k) == Occ(ps, k);
    QualifiedShape(x.table, k);
    RecordFrame(tr, x, k);
    forall t
      ensures HasKey(tr'.tables, Qualified(t, k)) == HasKey(tr.tables, Qualified(t, k))
      ensures HasKey(tr'.values, Qualified(t, k)) == HasKey(tr.values, Qualified(t, k))
      ensures ValueAt(tr'.tables, Qualified(t, k)) == ValueAt(tr.tables, Qualified(t, k))
      ensures ValueAt(tr'.values, Qualified(t, k)) == ValueAt(tr.values, Qualified(t, k))
    {
      QualifiedShape(t, k);
      QualifiedEndsOnlyWith(t, k, x.key);
      RecordFrame(tr, x, Qualified(t, k));
    }
    forall t | t in Occ(ps, k)
      ensures LastValue(ps + [x], t, k) == LastValue(ps, t, k)
    {
      LastValueSnoc(ps, x, t, k);
    }
  }

  /** Recording the first triple under `k`. */
  lemma RecordFirst(ps: seq<Triple>, tr: Track, x: Triple, k: string)
    requires x.key == k && DotFree(k) && |Occ(ps, k)| == 0
    requires KeyFacts(ps, tr, k)
    ensures KeyFacts(ps + [x], Record(tr, x), k)
  {
    var tr' := Record(tr, x);
    OccSnoc(ps, x, k);
    assert Occ(ps + [x], k) == [x.table];
    LastValueSnoc(ps, x, x.table, k);
    forall t
      ensures HasKey(tr'.tables, Qualified(t, k)) == HasKey(tr.tables, Qualified(t, k))
      ensures HasKey(tr'.values, Qualified(t, k)) == HasKey(tr.values, Qualified(t, k))
    {
      QualifiedShape(t, k);
    }
  }

  /**
   * Recording under a key that is set unqualified: the entry moves to its
   * qualified key, the unqualified one becomes null, and the new table gets
   * its qualified entry.
   */
  lemma RecordDemotes(tr: Track, x: Triple, et: string)
    requires IsSet(tr.tables, x.key) && tr.tables.m[x.key] == Some(et)
    ensures Record(tr, x).tables.m
            == tr.tables.m[Qualified(et, x.key) := Some(et)][x.key := None][Qualified(x.table, x.key) := Some(x.table)]
    ensures Record(tr, x).values.m
            == tr.values.m[Qualified(et, x.key) := ValueAt(tr.values, x.key)][x.key := None]
                          [Qualified(x.table, x.key) := Some(x.value)]
  {
  }

  /** The maps the demotion of `et`'s entry under `k` produces, when `x` is recorded. */
  ghost predicate Demoted(tr: Track, x: Triple, k: string, et: string, tr': Track) {
    && tr'.tables.m == tr.tables.m[Qualified(et, k) := Some(et)][k := None][Qualified(x.table, k) := Some(x.table)]
    && tr'.values.m == tr.values.m[Qualified(et, k) := ValueAt(tr.values, k)][k := None]
                                  [Qualified(x.table, k) := Some(x.value)]
  }

  lemma SecondUnqualified(ps: seq<Triple>, tr: Track, x: Triple, k: string, et: string, tr': Track)
    requires x.key == k && DotFree(k) && Occ(ps, k) == [et] && Demoted(tr, x, k, et, tr')
    ensures UnqualifiedFacts(ps + [x], tr', k)
  {
    assert Occ(ps + [x], k) == [et, x.table] by {
      OccSnoc(ps, x, k);
    }
    QualifiedShape(x.table, k);
  }

  lemma SecondKeys(ps: seq<Triple>, tr: Track, x: Triple, k: string, et: string, tr': Track)
    requires x.key == k && DotFree(k) && Occ(ps, k) == [et] && Demoted(tr, x, k, et, tr')
    requires forall t :: !HasKey(tr.tables, Qualified(t, k)) && !HasKey(tr.values, Qualified(t, k))
    ensures QualifiedKeys(ps + [x], tr', k)
  {
    var occ' := Occ(ps + [x], k);
    assert occ' == [et, x.table] by {
      OccSnoc(ps, x, k);
    }
    forall t
      ensures HasKey(tr'.tables, Qualified(t, k)) <==> t == et || t == x.table
      ensures HasKey(tr'.values, Qualified(t, k)) <==> t == et || t == x.table
    {
      QualifiedShape(t, k);
      QualifiedSameKey(t, et, k);
      QualifiedSameKey(t, x.table, k);
    }
  }

  lemma SecondValues(ps: seq<Triple>, tr: Track, x: Triple, k: string, et: string, tr': Track)
    requires x.key == k && DotFree(k) && Occ(ps, k) == [et] && Demoted(tr, x, k, et, tr')
    requires ValueAt(tr.values, k) == Some(LastValue(ps, et, k))
    ensures QualifiedValues(ps + [x], tr', k)
  {
    var occ' := Occ(ps + [x], k);
    assert occ' == [et, x.table] by {
      OccSnoc(ps, x, k);
    }
    forall t | |occ'| >= 2 && t in occ'
      ensures ValueAt(tr'.tables, Qualified(t, k)) == Some(t)
      ensures ValueAt(tr'.values, Qualified(t, k)) == Some(LastValue(ps + [x], t, k))
    {
      QualifiedShape(t, k);
      LastValueSnoc(ps, x, t, k);
      if t != x.table {
        QualifiedSameKey(t, x.table, k);
      }
    }
  }

  /** Recording the second triple under `k`: the first one is demoted to its qualified key. */
  lemma RecordSecond(ps: seq<Triple>, tr: Track, x: Triple, k: string)
    requires x.key == k && DotFree(k) && |Occ(ps, k)| == 1
    requires KeyFacts(ps, tr, k)
    ensures KeyFacts(ps + [x], Record(tr, x), k)
  {
    var et := Occ(ps, k)[0];
    assert Occ(ps, k) == [et];
    RecordDemotes(tr, x, et);
    var tr' := Record(tr, x);
    assert Demoted(tr, x, k, et, tr');
    SecondUnqualified(ps, tr, x, k, et, tr');
    SecondKeys(ps, tr, x, k, et, tr');
    SecondValues(ps, tr, x, k, et, tr');
  }

  /** Recording a further triple under an already ambiguous `k`. */
  lemma RecordFurther(ps: seq<Triple>, tr: Track, x: Triple, k: string)
    requires x.key == k && DotFree(k) && |Occ(ps, k)| >= 2
    requires KeyFacts(ps, tr, k)
    ensures KeyFacts(ps + [x], Record(tr, x), k)
  {
    var tr' := Record(tr, x);
    var occ := Occ(ps, k);
    var occ' := Occ(ps + [x], k);
    assert occ' == occ + [x.table] by {
      OccSnoc(ps, x, k);
    }
    var q := Qualified(x.table, k);
    assert tr'.tables.m == tr.tables.m[q := Some(x.table)] && tr'.values.m == tr.values.m[q := Some(x.value)] by {
      QualifiedShape(x.table, k);
    }
    assert forall t :: HasKey(tr'.tables, Qualified(t, k)) <==> |occ'| >= 2 && t in occ' by {
      forall t ensures HasKey(tr'.tables, Qualified(t, k)) <==> t in occ || t == x.table {
        QualifiedSameKey(t, x.table, k);
      }
    }
    assert forall t :: HasKey(tr'.values, Qualified(t, k)) <==> |occ'| >= 2 && t in occ' by {
      forall t ensures HasKey(tr'.values, Qualified(t, k)) <==> t in occ || t == x.table {
        QualifiedSameKey(t, x.table, k);
      }
    }
    forall t | t in occ'
      ensures ValueAt(tr'.tables, Qualified(t, k)) == Some(t)
      ensures ValueAt(tr'.values, Qualified(t, k)) == Some(LastValue(ps + [x], t, k))
    {
      QualifiedSameKey(t, x.table, k);
      LastValueSnoc(ps, x, t, k);
    }
  }

  /**
   * The ambiguity rule, for every dot-free key of a specification with
   * dot-free keys: see `KeyFacts`.
   */
  lemma {:induction false} FoldKeyFacts(ts: seq<Triple>, k: string)
    requires DotFreeKeys(ts) && DotFree(k)
    ensures KeyFacts(ts, Fold(ts), k)
    decreases |ts|
  {
    if ts != [] {
      var ps := ts[..|ts| - 1];
      var x := ts[|ts| - 1];
      assert ts == ps + [x];
      assert DotFreeKeys(ps) && DotFree(x.key);
      FoldKeyFacts(ps, k);
      var n := |Occ(ps, k)|;
      if x.key != k {
        RecordOtherKey(ps, Fold(ps), x, k);
      } else if n == 0 {
        RecordFirst(ps, Fold(ps), x, k);
      } else if n == 1 {
        RecordSecond(ps, Fold(ps), x, k);
      } else {
        RecordFurther(ps, Fold(ps), x, k);
      }
    }
  }

  /** A track whose two maps list the same keys in the same order, each once. */
  ghost predicate Aligned(tr: Track) {
    && tr.tables.keys == tr.values.keys
    && tr.tables.m.Keys == tr.values.m.Keys
    && Valid(tr.tables) && Valid(tr.values)
  }

  lemma PutAligned(tr: Track, k: string, v: Option<string>, w: Option<string>)
    requires Aligned(tr)
    ensures Aligned(Track(Put(tr.tables, k, v), Put(tr.values, k, w)))
  {
    PutValid(tr.tables, k, v);
    PutValid(tr.values, k, w);
  }

  /** Recording stores the same keys in both maps. */
  lemma RecordAligned(tr: Track, x: Triple)
    requires Aligned(tr)
    ensures Aligned(Record(tr, x))
  {
    var k := x.key;
    if HasKey(tr.tables, k) {
      var d := tr;
      if IsSet(tr.tables, k) {
        var et := tr.tables.m[k].value;
        var e := Track(Put(tr.tables, Qualified(et, k), Some(et)), Put(tr.values, Qualified(et, k), ValueAt(tr.values, k)));
        PutAligned(tr, Qualified(et, k), Some(et), ValueAt(tr.values, k));
        PutAligned(e, k, None, None);
        d := Track(Put(e.tables, k, None), Put(e.values, k, None));
      }
      PutAligned(d, Qualified(x.table, k), Some(x.table), Some(x.value));
    } else {
      PutAligned(tr, k, Some(x.table), Some(x.value));
    }
  }

  /** The table map and its companion always list the same keys, in the same order. */
  lemma {:induction false} FoldAligned(ts: seq<Triple>)
    ensures Aligned(Fold(ts))
    decreases |ts|
  {
    if ts != [] {
      FoldAligned(ts[..|ts| - 1]);
      RecordAligned(Fold(ts[..|ts| - 1]), ts[|ts| - 1]);
    }
  }

  // ---------------------------------------------------------------------------
  // The specification's recordings

  /** Folding one more triple records it on top. */
  lemma FoldSnoc(ps: seq<Triple>, x: Triple)
    ensures Fold(ps + [x]) == Record(Fold(ps), x)
  {
    assert (ps + [x])[..|ps|] == ps;
  }

  /** Every alias and every column of the specification is dot-free. */
  ghost predicate DotFreeSpec(spec: ColumnSpec) {
    forall i, j :: 0 <= i < |spec| && 0 <= j < |spec[i].entries| ==>
      DotFree(spec[i].entries[j].column) && DotFree(Key(spec[i].entries[j]))
  }

  /** A recording stems from an entry of the specification. */
  ghost predicate FromEntry(kind: Kind, spec: ColumnSpec, x: Triple) {
    exists i, j :: 0 <= i < |spec| && 0 <= j < |spec[i].entries| && x == TripleOf(kind, spec[i].table, spec[i].entries[j])
  }

  /** Every recording of a specification stems from one of its entries, and each entry is recorded. */
  lemma {:induction false} TriplesFromEntries(kind: Kind, spec: ColumnSpec)
    ensures forall x :: x in Triples(kind, spec) <==> FromEntry(kind, spec, x)
    decreases |spec|
  {
    if spec != [] {
      var init := spec[..|spec| - 1];
      var last := spec[|spec| - 1];
      TriplesFromEntries(kind, init);
      forall x ensures x in Triples(kind, spec) <==> FromEntry(kind, spec, x) {
        if x in TableTriples(kind, last) {
          var j :| 0 <= j < |last.entries| && TableTriples(kind, last)[j] == x;
          assert x == TripleOf(kind, spec[|spec| - 1].table, spec[|spec| - 1].entries[j]);
        }
        if FromEntry(kind, init, x) {
          var i, j :| 0 <= i < |init| && 0 <= j < |init[i].entries| && x == TripleOf(kind, init[i].table, init[i].entries[j]);
          assert spec[i] == init[i];
        }
        if FromEntry(kind, spec, x) {
          var i, j :| 0 <= i < |spec| && 0 <= j < |spec[i].entries| && x == TripleOf(kind, spec[i].table, spec[i].entries[j]);
          if i < |spec| - 1 {
            assert init[i] == spec[i];
            assert FromEntry(kind, init, x);
          } else {
            assert TableTriples(kind, last)[j] == x;
          }
        }
      }
    }
  }

  /** The number of entries of a specification, over all its tables. */
  function EntryCount(spec: ColumnSpec): nat
    decreases |spec|
  {
    if spec == [] then 0 else EntryCount(spec[..|spec| - 1]) + |spec[|spec| - 1].entries|
  }

  /** There is one recording per entry. */
  lemma {:induction false} TriplesLength(kind: Kind, spec: ColumnSpec)
    ensures |Triples(kind, spec)| == EntryCount(spec)
    decreases |spec|
  {
    if spec != [] {
      TriplesLength(kind, spec[..|spec| - 1]);
    }
  }

  /** Entry `j` of table `i` is recording number `EntryCount(spec[..i]) + j`. */
  lemma {:induction false} TriplesAt(kind: Kind, spec: ColumnSpec, i: nat, j: nat)
    requires i < |spec| && j < |spec[i].entries|
    ensures EntryCount(spec[..i]) + j < |Triples(kind, spec)|
    ensures Triples(kind, spec)[EntryCount(spec[..i]) + j] == TripleOf(kind, spec[i].table, spec[i].entries[j])
    decreases |spec|
  {
    var init := spec[..|spec| - 1];
    TriplesLength(kind, init);
    if i < |spec| - 1 {
      TriplesAt(kind, init, i, j);
      assert spec[..i] == init[..i] && spec[i] == init[i];
    } else {
      assert spec[..i] == init;
    }
  }

  /** Every recording is that of some entry, at that entry's position. */
  lemma {:induction false} TriplesCover(kind: Kind, spec: ColumnSpec, n: nat) returns (i: nat, j: nat)
    requires n < |Triples(kind, spec)|
    ensures i < |spec| && j < |spec[i].entries| && n == EntryCount(spec[..i]) + j
    ensures Triples(kind, spec)[n] == TripleOf(kind, spec[i].table, spec[i].entries[j])
    decreases |spec|
  {
    var init := spec[..|spec| - 1];
    TriplesLength(kind, init);
    if n < EntryCount(init) {
      i, j := TriplesCover(kind, init, n);
      assert spec[..i] == init[..i] && spec[i] == init[i];
    } else {
      i, j := |spec| - 1, n - EntryCount(init);
      assert spec[..i] == init;
    }
  }

  /** The recordings of a dot-free specification have dot-free keys. */
  lemma SpecKeysDotFree(kind: Kind, spec: ColumnSpec)
    requires DotFreeSpec(spec)
    ensures DotFreeKeys(Triples(kind, spec))
  {
    TriplesFromEntries(kind, spec);
    forall n | 0 <= n < |Triples(kind, spec)| ensures DotFree(Triples(kind, spec)[n].key) {
      var x := Triples(kind, spec)[n];
      assert x in Triples(kind, spec);
      var i, j :| 0 <= i < |spec| && 0 <= j < |spec[i].entries| && x == TripleOf(kind, spec[i].table, spec[i].entries[j]);
    }
  }

  /**
   * The builder's ambiguity rule on a specification, for alias keys and, in
   * the same way and independently, for column keys.
   */
  lemma StatementMapsAmbiguity(spec: ColumnSpec, k: string)
    requires DotFreeSpec(spec) && DotFree(k)
    ensures KeyFacts(Triples(ByAlias, spec), AliasTrack(spec), k)
    ensures KeyFacts(Triples(ByColumn, spec), ColumnTrack(spec), k)
  {
    SpecKeysDotFree(ByAlias, spec);
    SpecKeysDotFree(ByColumn, spec);
    FoldKeyFacts(Triples(ByAlias, spec), k);
    FoldKeyFacts(Triples(ByColumn, spec), k);
  }

  // ---------------------------------------------------------------------------
  // Lookups

  /**
   * `resolveStatementColumnAlias` (over the alias-to-column map) and
   * `reassembleStatementColumnAlias` (over the column-to-alias map): the
   * unqualified entry when set, else the entry qualified with the table.
   */
  function LookupQualified(om: OMap, table: string, name: string): Option<string> {
    if IsSet(om, name) then om.m[name]
    else if IsSet(om, Qualified(table, name)) then om.m[Qualified(table, name)]
    else None
  }

  /**
   * `validateStatementColumnAssociation`: a set unqualified alias entry, else a
   * set unqualified column entry, decides by its table; otherwise a qualified
   * entry for the table in either map does.
   */
  predicate ValidateAssociation(table: string, name: string, aliases: Track, columns: Track) {
    if IsSet(aliases.tables, name) then aliases.tables.m[name] == Some(table)
    else if IsSet(columns.tables, name) then columns.tables.m[name] == Some(table)
    else IsSet(aliases.tables, Qualified(table, name)) || IsSet(columns.tables, Qualified(table, name))
  }

  /**
   * `requireStatementColumn` for an already normalised table name: a name that
   * resolves as an alias yields its column, one that reassembles as a column
   * yields itself, provided the alias is associated with the table; a name
   * that does neither is left to the general repository, `delegate`.
   */
  function RequireStatementColumn(table: string, name: string, aliases: Track, columns: Track,
                                  delegate: (string, string) -> Result<string>): Result<string>
  {
    var column := LookupQualified(aliases.values, table, name);
    if column.Some? then
      if ValidateAssociation(table, name, aliases, columns) then Ok(column.value)
      else Err(StatementColumnNotFound(name, table))
    else
      var alias := LookupQualified(columns.values, table, name);
      if alias.Some? then
        if ValidateAssociation(table, alias.value, aliases, columns) then Ok(name)
        else Err(StatementColumnNotFound(name, table))
      else delegate(table, name)
  }

  /**
   * A lookup in the value map of a built track: the only recording's value
   * when the name was recorded once, the table's last value when it was
   * recorded several times and the table is among them, else nothing.
   */
  lemma LookupCharacterized(ts: seq<Triple>, table: string, name: string)
    requires DotFreeKeys(ts) && DotFree(name)
    ensures LookupQualified(Fold(ts).values, table, name)
            == (var occ := Occ(ts, name);
                if |occ| == 1 then Some(LastValue(ts, occ[0], name))
                else if |occ| >= 2 && table in occ then Some(LastValue(ts, table, name))
                else None)
  {
    FoldKeyFacts(ts, name);
  }

  /** The table map of a built track at `name` and at `"<table>.<name>"`. */
  lemma TablesCharacterized(ts: seq<Triple>, table: string, name: string)
    requires DotFreeKeys(ts) && DotFree(name)
    ensures var occ := Occ(ts, name);
            && (IsSet(Fold(ts).tables, name) <==> |occ| == 1)
            && (|occ| == 1 ==> Fold(ts).tables.m[name] == Some(occ[0]))
            && (IsSet(Fold(ts).tables, Qualified(table, name)) <==> |occ| >= 2 && table in occ)
  {
    FoldKeyFacts(ts, name);
    var occ := Occ(ts, name);
    assert HasKey(Fold(ts).tables, Qualified(table, name)) <==> |occ| >= 2 && table in occ;
  }

  /**
   * Association in terms of the recordings: a name recorded once as an alias
   * belongs to that alias's table; failing that, a name recorded once as a
   * column belongs to that column's table; otherwise it belongs to every table
   * that recorded it ambiguously.
   */
  ghost predicate Associated(ats: seq<Triple>, cts: seq<Triple>, table: string, name: string) {
    var oa := Occ(ats, name);
    var oc := Occ(cts, name);
    if |oa| == 1 then oa[0] == table
    else if |oc| == 1 then oc[0] == table
    else (|oa| >= 2 && table in oa) || (|oc| >= 2 && table in oc)
  }

  /** The association check on built maps decides exactly `Associated`. */
  lemma ValidateCharacterized(ats: seq<Triple>, cts: seq<Triple>, table: string, name: string)
    requires DotFreeKeys(ats) && DotFreeKeys(cts) && DotFree(name)
    ensures ValidateAssociation(table, name, Fold(ats), Fold(cts)) == Associated(ats, cts, table, name)
  {
    TablesCharacterized(ats, table, name);
    TablesCharacterized(cts, table, name);
  }

  /** Association is sound: an associated name is an alias or a column the table declares. */
  lemma ValidateSound(spec: ColumnSpec, table: string, name: string)
    requires DotFreeSpec(spec) && DotFree(name)
    requires ValidateAssociation(table, name, AliasTrack(spec), ColumnTrack(spec))
    ensures table in Occ(Triples(ByAlias, spec), name) || table in Occ(Triples(ByColumn, spec), name)
  {
    SpecKeysDotFree(ByAlias, spec);
    SpecKeysDotFree(ByColumn, spec);
    ValidateCharacterized(Triples(ByAlias, spec), Triples(ByColumn, spec), table, name);
  }

  /**
   * A name that resolves as an alias is required either to the column the
   * table declares for that alias, or to a statement error naming the table.
   */
  lemma RequireResolvedSound(spec: ColumnSpec, table: string, name: string,
                             delegate: (string, string) -> Result<string>)
    requires DotFreeSpec(spec) && DotFree(name)
    requires LookupQualified(AliasTrack(spec).values, table, name).Some?
    ensures var r := RequireStatementColumn(table, name, AliasTrack(spec), ColumnTrack(spec), delegate);
            && (r.Ok? ==> Triple(table, name, r.value) in Triples(ByAlias, spec))
            && (r.Err? ==> r.error == StatementColumnNotFound(name, table))
  {
    var ats := Triples(ByAlias, spec);
    SpecKeysDotFree(ByAlias, spec);
    SpecKeysDotFree(ByColumn, spec);
    LookupCharacterized(ats, table, name);
    ValidateCharacterized(ats, Triples(ByColumn, spec), table, name);
  }

  /**
   * An alias the table declares is required to the column of the table's last
   * entry for it, except exactly when the alias is ambiguous and, as a column
   * name, belongs unambiguously to another table: then it is a statement error.
   */
  lemma RequireResolvedComplete(spec: ColumnSpec, table: string, name: string,
                                delegate: (string, string) -> Result<string>)
    requires DotFreeSpec(spec) && DotFree(name)
    requires table in Occ(Triples(ByAlias, spec), name)
    ensures var oa := Occ(Triples(ByAlias, spec), name);
            var oc := Occ(Triples(ByColumn, spec), name);
            var r := RequireStatementColumn(table, name, AliasTrack(spec), ColumnTrack(spec), delegate);
            if |oa| >= 2 && |oc| == 1 && oc[0] != table then r == Err(StatementColumnNotFound(name, table))
            else r == Ok(LastValue(Triples(ByAlias, spec), table, name))
  {
    SpecKeysDotFree(ByAlias, spec);
    SpecKeysDotFree(ByColumn, spec);
    ResolvedFromTriples(Triples(ByAlias, spec), Triples(ByColumn, spec), table, name, delegate);
  }

  /** `RequireResolvedComplete` over the recordings themselves. */
  lemma ResolvedFromTriples(ats: seq<Triple>, cts: seq<Triple>, table: string, name: string,
                            delegate: (string, string) -> Result<string>)
    requires DotFreeKeys(ats) && DotFreeKeys(cts) && DotFree(name)
    requires table in Occ(ats, name)
    ensures var oa := Occ(ats, name);
            var oc := Occ(cts, name);
            var r := RequireStatementColumn(table, name, Fold(ats), Fold(cts), delegate);
            if |oa| >= 2 && |oc| == 1 && oc[0] != table then r == Err(StatementColumnNotFound(name, table))
            else r == Ok(LastValue(ats, table, name))
  {
    var v := LastValue(ats, table, name);
    var oa := Occ(ats, name);
    assert |oa| == 1 ==> oa[0] == table;
    assert LookupQualified(Fold(ats).values, table, name) == Some(v) by {
      LookupCharacterized(ats, table, name);
    }
    assert ValidateAssociation(table, name, Fold(ats), Fold(cts)) == Associated(ats, cts, table, name) by {
      ValidateCharacterized(ats, cts, table, name);
    }
  }

  /** The values a specification records under its column keys are its aliases, hence dot-free. */
  lemma ColumnValuesDotFree(spec: ColumnSpec, x: Triple)
    requires DotFreeSpec(spec) && x in Triples(ByColumn, spec)
    ensures DotFree(x.value)
  {
    TriplesFromEntries(ByColumn, spec);
    var i, j :| 0 <= i < |spec| && 0 <= j < |spec[i].entries| && x == TripleOf(ByColumn, spec[i].table, spec[i].entries[j]);
  }

  /**
   * A name that does not resolve as an alias but reassembles as a column is
   * required to itself exactly when the alias it reassembles to is associated
   * with the table, and to a statement error otherwise. The alias is that of an entry
   * listing the name as its column, though not necessarily an entry of the
   * table itself.
   */
  lemma RequireReassembledSound(spec: ColumnSpec, table: string, name: string,
                                delegate: (string, string) -> Result<string>)
    requires DotFreeSpec(spec) && DotFree(name)
    requires LookupQualified(AliasTrack(spec).values, table, name).None?
    requires LookupQualified(ColumnTrack(spec).values, table, name).Some?
    ensures var alias := LookupQualified(ColumnTrack(spec).values, table, name).value;
            var r := RequireStatementColumn(table, name, AliasTrack(spec), ColumnTrack(spec), delegate);
            && (exists t :: Triple(t, name, alias) in Triples(ByColumn, spec))
            && (r.Ok? <==> Associated(Triples(ByAlias, spec), Triples(ByColumn, spec), table, alias))
            && (r.Ok? ==> r.value == name
                          && (table in Occ(Triples(ByAlias, spec), alias) || table in Occ(Triples(ByColumn, spec), alias)))
            && (r.Err? ==> r.error == StatementColumnNotFound(name, table))
  {
    var ats, cts := Triples(ByAlias, spec), Triples(ByColumn, spec);
    SpecKeysDotFree(ByAlias, spec);
    SpecKeysDotFree(ByColumn, spec);
    LookupCharacterized(cts, table, name);
    var occ := Occ(cts, name);
    var owner := if |occ| == 1 then occ[0] else table;
    var alias := LastValue(cts, owner, name);
    assert LookupQualified(ColumnTrack(spec).values, table, name) == Some(alias);
    assert Triple(owner, name, alias) in cts;
    ColumnValuesDotFree(spec, Triple(owner, name, alias));
    ValidateCharacterized(ats, cts, table, alias);
  }

  /** The specification of the example below: `a` declares `x => c`, `b` declares `x => d`. */
  function ExampleSpec(): ColumnSpec {
    [TableColumns("a", [Entry(Some("x"), "c")]), TableColumns("b", [Entry(Some("x"), "d")])]
  }

  lemma ExampleTriples()
    ensures Triples(ByAlias, ExampleSpec()) == [Triple("a", "x", "c"), Triple("b", "x", "d")]
    ensures Triples(ByColumn, ExampleSpec()) == [Triple("a", "c", "x"), Triple("b", "d", "x")]
  {
    var spec := ExampleSpec();
    assert spec[..1][..0] == [];
    assert Triples(ByAlias, spec[..1]) == [Triple("a", "x", "c")];
    assert Triples(ByColumn, spec[..1]) == [Triple("a", "c", "x")];
  }

  lemma ExampleOccurrences()
    ensures var ats := [Triple("a", "x", "c"), Triple("b", "x", "d")];
            var cts := [Triple("a", "c", "x"), Triple("b", "d", "x")];
            && DotFreeKeys(ats) && DotFreeKeys(cts)
            && Occ(ats, "c") == [] && Occ(cts, "c") == ["a"] && LastValue(cts, "a", "c") == "x"
            && Occ(ats, "x") == ["a", "b"] && Occ(cts, "x") == []
  {
    var ats := [Triple("a", "x", "c"), Triple("b", "x", "d")];
    var cts := [Triple("a", "c", "x"), Triple("b", "d", "x")];
    assert ats[..1] == [Triple("a", "x", "c")] && cts[..1] == [Triple("a", "c", "x")];
    assert ats[..1][..0] == [] && cts[..1][..0] == [];
  }

  /**
   * The reassembling branch checks the alias, not the column: with `a`
   * declaring `x => c` and `b` declaring `x => d`, the name `c` is required
   * for table `b` as `c`, although `b` declares no column `c`, because the
   * alias `x` it reassembles to is also one of `b`'s.
   */
  lemma ReassembleAcrossTables(delegate: (string, string) -> Result<string>)
    ensures RequireStatementColumn("b", "c", AliasTrack(ExampleSpec()), ColumnTrack(ExampleSpec()), delegate) == Ok("c")
    ensures "b" !in Occ(Triples(ByColumn, ExampleSpec()), "c")
  {
    ExampleTriples();
    ExampleOccurrences();
    ReassembleFromTriples([Triple("a", "x", "c"), Triple("b", "x", "d")], [Triple("a", "c", "x"), Triple("b", "d", "x")],
                          delegate);
  }

  /** The example over recordings with the same occurrences. */
  lemma ReassembleFromTriples(ats: seq<Triple>, cts: seq<Triple>, delegate: (string, string) -> Result<string>)
    requires DotFreeKeys(ats) && DotFreeKeys(cts)
    requires Occ(ats, "c") == [] && Occ(cts, "c") == ["a"] && LastValue(cts, "a", "c") == "x"
    requires Occ(ats, "x") == ["a", "b"] && Occ(cts, "x") == []
    ensures RequireStatementColumn("b", "c", Fold(ats), Fold(cts), delegate) == Ok("c")
  {
    assert LookupQualified(Fold(ats).values, "b", "c") == None by {
      LookupCharacterized(ats, "b", "c");
    }
    assert LookupQualified(Fold(cts).values, "b", "c") == Some("x") by {
      LookupCharacterized(cts, "b", "c");
    }
    assert ValidateAssociation("b", "x", Fold(ats), Fold(cts)) by {
      assert Associated(ats, cts, "b", "x") by {
        assert "b" in Occ(ats, "x");
      }
      ValidateCharacterized(ats, cts, "b", "x");
    }
  }

  /**
   * `a` and `b` both declare the alias `x`; `c` declares the dotted alias
   * `a.x`, which is also the key the builder uses for `a`'s entry for `x`.
   */
  function DottedSpec(): ColumnSpec {
    [TableColumns("a", [Entry(Some("x"), "c1")]), TableColumns("b", [Entry(Some("x"), "c2")]),
     TableColumns("c", [Entry(Some("a.x"), "c3")])]
  }

  lemma DottedTriples()
    ensures Triples(ByAlias, DottedSpec()) == [Triple("a", "x", "c1"), Triple("b", "x", "c2"), Triple("c", "a.x", "c3")]
    ensures Triples(ByColumn, DottedSpec()) == [Triple("a", "c1", "x"), Triple("b", "c2", "x"), Triple("c", "c3", "a.x")]
  {
    var spec := DottedSpec();
    assert spec[..2][..1][..0] == [];
    assert spec[..2][..1] == spec[..1];
    assert Triples(ByAlias, spec[..1]) == [Triple("a", "x", "c1")];
    assert Triples(ByColumn, spec[..1]) == [Triple("a", "c1", "x")];
    assert Triples(ByAlias, spec[..2]) == [Triple("a", "x", "c1"), Triple("b", "x", "c2")];
    assert Triples(ByColumn, spec[..2]) == [Triple("a", "c1", "x"), Triple("b", "c2", "x")];
  }

  /**
   * Why the key-by-key facts need dot-free names: recording the alias `a.x`
   * demotes `a`'s qualified entry for `x` and nulls it, so `x` no longer
   * resolves for `a`, although `a` declares it, and requiring `x` for `a` is
   * handed to the general repository.
   */
  lemma DottedAliasShadows(delegate: (string, string) -> Result<string>)
    ensures "a" in Occ(Triples(ByAlias, DottedSpec()), "x")
    ensures LookupQualified(AliasTrack(DottedSpec()).values, "a", "x") == None
    ensures RequireStatementColumn("a", "x", AliasTrack(DottedSpec()), ColumnTrack(DottedSpec()), delegate)
            == delegate("a", "x")
  {
    DottedAliasLookup();
    DottedColumnLookup();
  }

  /** In the example, `a` declares the alias `x`, yet `x` does not resolve for `a`. */
  lemma DottedAliasLookup()
    ensures "a" in Occ(Triples(ByAlias, DottedSpec()), "x")
    ensures LookupQualified(AliasTrack(DottedSpec()).values, "a", "x") == None
  {
    DottedTriples();
    assert Qualified("a", "x") == "a.x";
    DottedAliasFold("a", "b", "c", "x", "c1", "c2", "c3");
  }

  /** In the example, `x` does not reassemble for `a` either. */
  lemma DottedColumnLookup()
    ensures LookupQualified(ColumnTrack(DottedSpec()).values, "a", "x") == None
  {
    DottedTriples();
    DottedColumnFold();
  }

  /**
   * Recording the dotted key `"<a>.<x>"` while `x` is ambiguous and `a` has
   * its qualified entry for `x` nulls that entry: `x` no longer resolves for `a`.
   */
  lemma RecordDottedShadows(tr: Track, a: string, x: string, c: string, v: string)
    requires IsSet(tr.tables, Qualified(a, x)) && !IsSet(tr.values, x)
    ensures LookupQualified(Record(tr, Triple(c, Qualified(a, x), v)).values, a, x) == None
  {
    var q := Qualified(a, x);
    var et := tr.tables.m[q].value;
    assert |Qualified(et, q)| > |q| > |x| && |Qualified(c, q)| > |q|;
  }

  /**
   * Two tables declaring `x` and a third declaring the alias `"<a>.<x>"`:
   * `x` no longer resolves for `a`.
   */
  lemma DottedAliasFold(a: string, b: string, c: string, x: string, v1: string, v2: string, v3: string)
    requires DotFree(x) && a != b
    ensures var ats := [Triple(a, x, v1), Triple(b, x, v2), Triple(c, Qualified(a, x), v3)];
            Occ(ats, x) == [a, b] && LookupQualified(Fold(ats).values, a, x) == None
  {
    var x1, x2, x3 := Triple(a, x, v1), Triple(b, x, v2), Triple(c, Qualified(a, x), v3);
    var s2 := [x1] + [x2];
    assert Occ(s2, x) == [a, b] by {
      assert [] + [x1] == [x1];
      OccSnoc([], x1, x);
      OccSnoc([x1], x2, x);
    }
    assert IsSet(Fold(s2).tables, Qualified(a, x)) && !IsSet(Fold(s2).values, x) by {
      assert DotFreeKeys(s2);
      FoldKeyFacts(s2, x);
    }
    assert Occ(s2 + [x3], x) == [a, b] by {
      QualifiedShape(a, x);
      OccSnoc(s2, x3, x);
    }
    assert LookupQualified(Fold(s2 + [x3]).values, a, x) == None by {
      FoldSnoc(s2, x3);
      RecordDottedShadows(Fold(s2), a, x, c, v3);
    }
    assert s2 + [x3] == [x1, x2, x3];
  }

  lemma DottedColumnFold()
    ensures LookupQualified(Fold([Triple("a", "c1", "x"), Triple("b", "c2", "x"), Triple("c", "c3", "a.x")]).values, "a", "x")
            == None
  {
    var x1, x2, x3 := Triple("a", "c1", "x"), Triple("b", "c2", "x"), Triple("c", "c3", "a.x");
    var s2 := [x1] + [x2];
    var cts := s2 + [x3];
    assert [] + [x1] == [x1];
    assert |"c1"| != |"x"|;
    OccSnoc([], x1, "x");
    OccSnoc([x1], x2, "x");
    OccSnoc(s2, x3, "x");
    assert DotFreeKeys(cts) by {
      assert DotFree("c1") && DotFree("c2") && DotFree("c3");
    }
    LookupCharacterized(cts, "a", "x");
    assert cts == [x1, x2, x3];
  }
}
