/**
 * The database repository: table prefixes and aliases, statement columns,
 * owner-table search, joins, and collation handling for PostgreSQL.
 *
 * The datasource contributes its table prefix and its database type. The
 * general repository this one extends contributes its query columns, its two
 * query maps (alias to table, column to table), its query-column alias
 * resolution and its own statement-column check; all of these are inputs.
 * Join handlers are a registry from a table name to the tables its handler
 * joins in.
 */
module Repository {
  import opened Options
  import opened Strings
  import opened OrderedMaps
  import opened Errors
  import opened TableNames
  import opened StatementMaps
  import opened Collation
  import opened Filters

  /** The database type of a PostgreSQL datasource. */
  const PostgreSql: string := "pgsql"

  /** What the general repository provides, taken as given. */
  datatype Parent = Parent(
    queryColumns: seq<TableColumns>,
    aliasTableMap: OMap,
    columnTableMap: OMap,
    resolveQueryColumnAlias: (string, string) -> Option<string>,
    requireStatementColumn: (string, string) -> Result<string>)

  /** One call of a join handler: the owning table, and the target and name it was called with. */
  datatype JoinCall = JoinCall(table: string, target: TableRef, name: string)

  // ---------------------------------------------------------------------------
  // Owner-table search

  /** A key of the form `<t>.<column>`: `column` is the part after its first dot. */
  predicate QualifiesAs(key: string, column: string) {
    '.' in key && AfterFirstDot(key) == column
  }

  /** The table stored under the first key, in key order, that qualifies as `column`. */
  function ScanQualified(om: OMap, keys: seq<string>, column: string): Option<string>
    decreases |keys|
  {
    if keys == [] then None
    else if QualifiesAs(keys[0], column) then ValueAt(om, keys[0])
    else ScanQualified(om, keys[1..], column)
  }

  /**
   * `findTableName`: a set unqualified alias entry, else a set unqualified
   * column entry, else the first qualified alias key for the column.
   */
  function OwnerTable(aliasTableMap: OMap, columnTableMap: OMap, column: string): Option<string> {
    if IsSet(aliasTableMap, column) then aliasTableMap.m[column]
    else if IsSet(columnTableMap, column) then columnTableMap.m[column]
    else ScanQualified(aliasTableMap, aliasTableMap.keys, column)
  }

  /** The scan yields the value of the first qualifying key, and nothing when no key qualifies. */
  lemma {:induction false} ScanQualifiedFirst(om: OMap, keys: seq<string>, column: string)
    ensures (forall i :: 0 <= i < |keys| ==> !QualifiesAs(keys[i], column)) ==> ScanQualified(om, keys, column) == None
    ensures forall i :: 0 <= i < |keys| && QualifiesAs(keys[i], column)
                        && (forall j :: 0 <= j < i ==> !QualifiesAs(keys[j], column))
                        ==> ScanQualified(om, keys, column) == ValueAt(om, keys[i])
    decreases |keys|
  {
    if keys != [] {
      ScanQualifiedFirst(om, keys[1..], column);
      forall i | 0 <= i < |keys| && QualifiesAs(keys[i], column)
                 && (forall j :: 0 <= j < i ==> !QualifiesAs(keys[j], column))
        ensures ScanQualified(om, keys, column) == ValueAt(om, keys[i])
      {
        if i > 0 {
          assert !QualifiesAs(keys[0], column);
          forall j | 0 <= j < i - 1 ensures !QualifiesAs(keys[1..][j], column) {
            assert keys[1..][j] == keys[j + 1];
          }
          assert keys[1..][i - 1] == keys[i];
        }
      }
      if forall i :: 0 <= i < |keys| ==> !QualifiesAs(keys[i], column) {
        forall i | 0 <= i < |keys[1..]| ensures !QualifiesAs(keys[1..][i], column) {
          assert keys[1..][i] == keys[i + 1];
        }
      }
    }
  }

  /** A key `<t>.<k>` whose table part has no dot qualifies exactly as `k`. */
  lemma QualifiedKeyQualifies(t: string, k: string, column: string)
    requires DotFree(t)
    ensures QualifiesAs(Qualified(t, k), column) <==> k == column
  {
    AfterFirstDotOfQualified(t, k);
  }

  // ---------------------------------------------------------------------------
  // Queries

  /** The part of a repository query a join touches: the joined tables and the handler calls made. */
  class RepositoryQuery {
    var joinedTables: set<string>
    var joinCalls: seq<JoinCall>

    constructor (joined: set<string>)
      ensures joinedTables == joined && joinCalls == []
    {
      joinedTables := joined;
      joinCalls := [];
    }

    /** `getQuery()->hasJoinedTable(t)`. */
    predicate HasJoinedTable(t: string)
      reads this
    {
      t in joinedTables
    }
  }

  // ---------------------------------------------------------------------------
  // The repository

  class DbRepository {
    /** The datasource's table prefix and database type. */
    const prefix: string
    const dbType: string
    /** The general repository's contributions. */
    const parent: Parent
    /** What `initializeTableAliases` and `initializeStatementColumns` return. */
    const aliasesConfig: map<string, string>
    const statementColumnsConfig: ColumnSpec
    /** The join handlers, by the table they join: the tables each one joins into a query. */
    const handlers: map<string, set<string>>

    /** Caches, null until first use. */
    var queryColumns: Option<seq<TableColumns>>
    var tableAliases: Option<map<string, string>>
    var statementColumns: Option<ColumnSpec>
    var statementAliasTableMap: Option<OMap>
    var statementAliasColumnMap: Option<OMap>
    var statementColumnTableMap: Option<OMap>
    var statementColumnAliasMap: Option<OMap>
    /** The query columns a COLLATE instruction was removed from, in their stripped form. */
    var columnsWithoutCollation: seq<string>

    /**
     * A filled cache holds what it caches, the four statement maps are those
     * the builder makes from the statement columns, and only a PostgreSQL
     * repository has columns without collation.
     */
    ghost predicate Valid()
      reads this
    {
      && (tableAliases.Some? ==> tableAliases.value == aliasesConfig)
      && (statementColumns.Some? ==> statementColumns.value == statementColumnsConfig)
      && (statementAliasTableMap.Some? ==> statementAliasTableMap.value == AliasTrack(statementColumnsConfig).tables)
      && (statementAliasColumnMap.Some? ==> statementAliasColumnMap.value == AliasTrack(statementColumnsConfig).values)
      && (statementColumnTableMap.Some? ==> statementColumnTableMap.value == ColumnTrack(statementColumnsConfig).tables)
      && (statementColumnAliasMap.Some? ==> statementColumnAliasMap.value == ColumnTrack(statementColumnsConfig).values)
      && (dbType != PostgreSql ==> columnsWithoutCollation == [])
    }

    /** The statement columns and the four statement maps are all cached, as the builder makes them. */
    ghost predicate StatementMapsBuilt()
      reads this
    {
      && statementColumns == Some(statementColumnsConfig)
      && statementAliasTableMap == Some(AliasTrack(statementColumnsConfig).tables)
      && statementAliasColumnMap == Some(AliasTrack(statementColumnsConfig).values)
      && statementColumnTableMap == Some(ColumnTrack(statementColumnsConfig).tables)
      && statementColumnAliasMap == Some(ColumnTrack(statementColumnsConfig).values)
    }

    /**
     * A new repository over the datasource. When the query columns are given
     * up front, a PostgreSQL repository strips their COLLATE instructions
     * right away.
     */
    constructor (prefix: string, dbType: string, parent: Parent, aliasesConfig: map<string, string>,
                 statementColumnsConfig: ColumnSpec, handlers: map<string, set<string>>,
                 presetQueryColumns: Option<seq<TableColumns>>)
      ensures Valid()
      ensures this.prefix == prefix && this.dbType == dbType && this.parent == parent
      ensures this.aliasesConfig == aliasesConfig && this.statementColumnsConfig == statementColumnsConfig
      ensures this.handlers == handlers
      ensures tableAliases == None && statementColumns == None
      ensures statementAliasTableMap == None && statementAliasColumnMap == None
      ensures statementColumnTableMap == None && statementColumnAliasMap == None
      ensures dbType == PostgreSql && presetQueryColumns.Some? ==>
                queryColumns == Some(StripAll(presetQueryColumns.value))
                && columnsWithoutCollation == Collated(presetQueryColumns.value)
      ensures !(dbType == PostgreSql && presetQueryColumns.Some?) ==>
                queryColumns == presetQueryColumns && columnsWithoutCollation == []
    {
      this.prefix := prefix;
      this.dbType := dbType;
      this.parent := parent;
      this.aliasesConfig := aliasesConfig;
      this.statementColumnsConfig := statementColumnsConfig;
      this.handlers := handlers;
      queryColumns := presetQueryColumns;
      tableAliases := None;
      statementColumns := None;
      statementAliasTableMap := None;
      statementAliasColumnMap := None;
      statementColumnTableMap := None;
      statementColumnAliasMap := None;
      columnsWithoutCollation := [];
      new;
      if dbType == PostgreSql && presetQueryColumns.Some? {
        var stripped := RemoveCollateInstruction(presetQueryColumns.value);
        queryColumns := Some(stripped);
      }
    }

    /**
     * `removeCollateInstruction`: every column cut at its COLLATE instruction,
     * and each column that had one appended, stripped, to the columns without
     * collation.
     */
    method RemoveCollateInstruction(qc: seq<TableColumns>) returns (r: seq<TableColumns>)
      modifies this`columnsWithoutCollation
      ensures r == StripAll(qc)
      ensures columnsWithoutCollation == old(columnsWithoutCollation) + Collated(qc)
    {
      ghost var start := columnsWithoutCollation;
      r := [];
      var i := 0;
      while i < |qc|
        invariant 0 <= i <= |qc| && |r| == i
        invariant forall k :: 0 <= k < i ==> r[k] == StripTable(qc[k])
        invariant columnsWithoutCollation == start + Collated(qc[..i])
      {
        var tc := qc[i];
        var entries := RemoveCollateFromTable(tc);
        assert TableColumns(tc.table, entries) == StripTable(qc[i]);
        r := r + [TableColumns(tc.table, entries)];
        CollatedStep(qc, i);
        AppendAssociative(start, Collated(qc[..i]), CollatedEntries(tc.entries));
        i := i + 1;
      }
      StripAllPointwise(qc, r);
      assert qc[..|qc|] == qc;
    }

    /** The inner loop of `removeCollateInstruction`, over the columns of one table. */
    method RemoveCollateFromTable(tc: TableColumns) returns (entries: seq<Entry>)
      modifies this`columnsWithoutCollation
      ensures entries == StripTable(tc).entries
      ensures columnsWithoutCollation == old(columnsWithoutCollation) + CollatedEntries(tc.entries)
    {
      ghost var start := columnsWithoutCollation;
      entries := [];
      var j := 0;
      while j < |tc.entries|
        invariant 0 <= j <= |tc.entries|
        invariant entries == StripTable(tc).entries[..j]
        invariant columnsWithoutCollation == start + CollatedEntries(tc.entries[..j])
      {
        var e := tc.entries[j];
        var column := StripCollate(e.column);
        if HasCollate(e.column) {
          columnsWithoutCollation := columnsWithoutCollation + [column];
          AppendAssociative(start, CollatedEntries(tc.entries[..j]), [column]);
        }
        CollatedEntriesStep(tc.entries, j);
        entries := entries + [Entry(e.alias, column)];
        StripTableStep(tc, j);
        j := j + 1;
      }
      assert tc.entries[..|tc.entries|] == tc.entries;
    }

    /**
     * `getQueryColumns`: the cached query columns, or else the general
     * repository's, with COLLATE instructions stripped for PostgreSQL, which
     * are then cached.
     */
    method GetQueryColumns() returns (r: seq<TableColumns>)
      requires Valid()
      modifies this`queryColumns, this`columnsWithoutCollation
      ensures Valid() && queryColumns == Some(r)
      ensures old(queryColumns).Some? ==> r == old(queryColumns).value && columnsWithoutCollation == old(columnsWithoutCollation)
      ensures old(queryColumns).None? && dbType == PostgreSql ==>
                r == StripAll(parent.queryColumns)
                && columnsWithoutCollation == old(columnsWithoutCollation) + Collated(parent.queryColumns)
      ensures old(queryColumns).None? && dbType != PostgreSql ==>
                r == parent.queryColumns && columnsWithoutCollation == old(columnsWithoutCollation)
    {
      if queryColumns.None? {
        r := parent.queryColumns;
        if dbType == PostgreSql {
          r := RemoveCollateInstruction(r);
        }
        queryColumns := Some(r);
      } else {
        r := queryColumns.value;
      }
    }

    /** `getTableAliases`: the configured table aliases, cached on first use. */
    method GetTableAliases() returns (r: map<string, string>)
      requires Valid()
      modifies this`tableAliases
      ensures Valid() && r == aliasesConfig && tableAliases == Some(r)
    {
      if tableAliases.None? {
        tableAliases := Some(aliasesConfig);
      }
      r := tableAliases.value;
    }

    /** `getStatementColumns`: the configured statement columns, cached on first use. */
    method GetStatementColumns() returns (r: ColumnSpec)
      requires Valid()
      modifies this`statementColumns
      ensures Valid() && r == statementColumnsConfig && statementColumns == Some(r)
    {
      if statementColumns.None? {
        statementColumns := Some(statementColumnsConfig);
      }
      r := statementColumns.value;
    }

    /**
     * One recording of `initializeStatementMaps`, as done for the alias maps
     * (keyed by alias, storing the column) and for the column maps (keyed by
     * column, storing the alias): a new key gets an unqualified entry; a key
     * seen before has a set unqualified entry moved under its table and
     * nulled, and gets an entry qualified with the current table.
     */
    static method RecordStatementColumn(tables: OMap, values: OMap, table: string, key: string, value: string)
      returns (tables': OMap, values': OMap)
      ensures Track(tables', values') == Record(Track(tables, values), Triple(table, key, value))
    {
      tables', values' := tables, values;
      if HasKey(tables', key) {
        if tables'.m[key] != None {
          var existingTable, existingValue := tables'.m[key].value, ValueAt(values', key);
          tables' := Put(tables', Qualified(existingTable, key), Some(existingTable));
          values' := Put(values', Qualified(existingTable, key), existingValue);
          tables' := Put(tables', key, None);
          values' := Put(values', key, None);
        }
        tables' := Put(tables', Qualified(table, key), Some(table));
        values' := Put(values', Qualified(table, key), Some(value));
      } else {
        tables' := Put(tables', key, Some(table));
        values' := Put(values', key, Some(value));
      }
    }

    /**
     * The inner loop of `initializeStatementMaps`, over the entries of one
     * table: each entry recorded in the alias maps and in the column maps.
     */
    static method RecordTableColumns(byAlias: Track, byColumn: Track, tc: TableColumns,
                                     ghost ats: seq<Triple>, ghost cts: seq<Triple>)
      returns (byAlias': Track, byColumn': Track)
      requires byAlias == Fold(ats) && byColumn == Fold(cts)
      ensures byAlias' == Fold(ats + TableTriples(ByAlias, tc))
      ensures byColumn' == Fold(cts + TableTriples(ByColumn, tc))
    {
      byAlias' := RecordTrack(byAlias, ByAlias, tc, ats);
      byColumn' := RecordTrack(byColumn, ByColumn, tc, cts);
    }

    /** The recordings of one table's entries in one pair of maps, entry by entry. */
    static method RecordTrack(tr: Track, kind: Kind, tc: TableColumns, ghost ps: seq<Triple>)
      returns (tr': Track)
      requires tr == Fold(ps)
      ensures tr' == Fold(ps + TableTriples(kind, tc))
    {
      tr' := tr;
      ghost var done := ps;
      var j := 0;
      assert TableTriples(kind, tc)[..0] == [];
      while j < |tc.entries|
        invariant 0 <= j <= |tc.entries|
        invariant done == ps + TableTriples(kind, tc)[..j]
        invariant tr' == Fold(done)
      {
        var x := TripleOf(kind, tc.table, tc.entries[j]);
        var tables, values := RecordStatementColumn(tr'.tables, tr'.values, x.table, x.key, x.value);
        FoldSnoc(done, x);
        tr' := Track(tables, values);
        TableTriplesSnoc(ps, kind, tc, j);
        done := done + [x];
        j := j + 1;
      }
      assert TableTriples(kind, tc)[..j] == TableTriples(kind, tc);
    }

    /**
     * `initializeStatementMaps`: walks every entry of every table and records
     * it in the alias maps and in the column maps; the four maps are exactly
     * the builder's.
     */
    method InitializeStatementMaps()
      requires Valid()
      modifies this`statementColumns, this`statementAliasTableMap, this`statementAliasColumnMap,
               this`statementColumnTableMap, this`statementColumnAliasMap
      ensures Valid() && StatementMapsBuilt()
    {
      var spec := GetStatementColumns();
      var byAlias, byColumn := BuildStatementMaps(spec);
      statementAliasTableMap, statementAliasColumnMap := Some(byAlias.tables), Some(byAlias.values);
      statementColumnTableMap, statementColumnAliasMap := Some(byColumn.tables), Some(byColumn.values);
    }

    /** The loops of `initializeStatementMaps`: every table in order, each through its entries. */
    static method BuildStatementMaps(spec: ColumnSpec) returns (byAlias: Track, byColumn: Track)
      ensures byAlias == AliasTrack(spec) && byColumn == ColumnTrack(spec)
    {
      byAlias, byColumn := Track(Empty(), Empty()), Track(Empty(), Empty());
      ghost var ats, cts := [], [];
      var i := 0;
      while i < |spec|
        invariant 0 <= i <= |spec|
        invariant ats == Triples(ByAlias, spec[..i]) && cts == Triples(ByColumn, spec[..i])
        invariant byAlias == Fold(ats) && byColumn == Fold(cts)
      {
        byAlias, byColumn := RecordTableColumns(byAlias, byColumn, spec[i], ats, cts);
        ats, cts := ats + TableTriples(ByAlias, spec[i]), cts + TableTriples(ByColumn, spec[i]);
        assert ats == Triples(ByAlias, spec[..i + 1]) && cts == Triples(ByColumn, spec[..i + 1]) by {
          TriplesStep(ByAlias, spec, i);
          TriplesStep(ByColumn, spec, i);
        }
        i := i + 1;
      }
      assert spec[..|spec|] == spec;
    }

    /**
     * `getStatementAliasTableMap`: the cached map; on first use all four
     * statement maps are built and cached, and otherwise nothing changes.
     */
    method GetStatementAliasTableMap() returns (r: OMap)
      requires Valid()
      modifies this`statementColumns, this`statementAliasTableMap, this`statementAliasColumnMap,
               this`statementColumnTableMap, this`statementColumnAliasMap
      ensures Valid() && r == AliasTrack(statementColumnsConfig).tables && statementAliasTableMap == Some(r)
      ensures old(statementAliasTableMap).Some? ==> unchanged(this)
      ensures old(statementAliasTableMap).None? ==> StatementMapsBuilt()
    {
      if statementAliasTableMap.None? {
        InitializeStatementMaps();
      }
      r := statementAliasTableMap.value;
    }

    /**
     * `getStatementAliasColumnMap`: the cached map; on first use all four
     * statement maps are built and cached, and otherwise nothing changes.
     */
    method GetStatementAliasColumnMap() returns (r: OMap)
      requires Valid()
      modifies this`statementColumns, this`statementAliasTableMap, this`statementAliasColumnMap,
               this`statementColumnTableMap, this`statementColumnAliasMap
      ensures Valid() && r == AliasTrack(statementColumnsConfig).values && statementAliasColumnMap == Some(r)
      ensures old(statementAliasColumnMap).Some? ==> unchanged(this)
      ensures old(statementAliasColumnMap).None? ==> StatementMapsBuilt()
    {
      if statementAliasColumnMap.None? {
        InitializeStatementMaps();
      }
      r := statementAliasColumnMap.value;
    }

    /**
     * `getStatementColumnTableMap`: the cached map; on first use all four
     * statement maps are built and cached, and otherwise nothing changes.
     */
    method GetStatementColumnTableMap() returns (r: OMap)
      requires Valid()
      modifies this`statementColumns, this`statementAliasTableMap, this`statementAliasColumnMap,
               this`statementColumnTableMap, this`statementColumnAliasMap
      ensures Valid() && r == ColumnTrack(statementColumnsConfig).tables && statementColumnTableMap == Some(r)
      ensures old(statementColumnTableMap).Some? ==> unchanged(this)
      ensures old(statementColumnTableMap).None? ==> StatementMapsBuilt()
    {
      if statementColumnTableMap.None? {
        InitializeStatementMaps();
      }
      r := statementColumnTableMap.value;
    }

    /**
     * `getStatementColumnAliasMap`: the cached map; on first use all four
     * statement maps are built and cached, and otherwise nothing changes.
     */
    method GetStatementColumnAliasMap() returns (r: OMap)
      requires Valid()
      modifies this`statementColumns, this`statementAliasTableMap, this`statementAliasColumnMap,
               this`statementColumnTableMap, this`statementColumnAliasMap
      ensures Valid() && r == ColumnTrack(statementColumnsConfig).values && statementColumnAliasMap == Some(r)
      ensures old(statementColumnAliasMap).Some? ==> unchanged(this)
      ensures old(statementColumnAliasMap).None? ==> StatementMapsBuilt()
    {
      if statementColumnAliasMap.None? {
        InitializeStatementMaps();
      }
      r := statementColumnAliasMap.value;
    }

    /** `resolveStatementColumnAlias`: the column an alias stands for in the table, if any. */
    method ResolveStatementColumnAlias(table: TableRef, alias: string) returns (r: Option<string>)
      requires Valid()
      modifies this`statementColumns, this`statementAliasTableMap, this`statementAliasColumnMap,
               this`statementColumnTableMap, this`statementColumnAliasMap
      ensures Valid()
      ensures old(statementAliasColumnMap).Some? ==> unchanged(this)
      ensures old(statementAliasColumnMap).None? ==> StatementMapsBuilt()
      ensures r == LookupQualified(AliasTrack(statementColumnsConfig).values, BareTableName(prefix, table), alias)
    {
      var map_ := GetStatementAliasColumnMap();
      if IsSet(map_, alias) {
        return map_.m[alias];
      }
      var prefixedAlias := Qualified(UnprefixName(prefix, ClearTableAlias(table)), alias);
      if IsSet(map_, prefixedAlias) {
        return map_.m[prefixedAlias];
      }
      return None;
    }

    /** `reassembleStatementColumnAlias`: the alias a column has in the table, if any. */
    method ReassembleStatementColumnAlias(table: TableRef, column: string) returns (r: Option<string>)
      requires Valid()
      modifies this`statementColumns, this`statementAliasTableMap, this`statementAliasColumnMap,
               this`statementColumnTableMap, this`statementColumnAliasMap
      ensures Valid()
      ensures old(statementColumnAliasMap).Some? ==> unchanged(this)
      ensures old(statementColumnAliasMap).None? ==> StatementMapsBuilt()
      ensures r == LookupQualified(ColumnTrack(statementColumnsConfig).values, BareTableName(prefix, table), column)
    {
      var map_ := GetStatementColumnAliasMap();
      if IsSet(map_, column) {
        return map_.m[column];
      }
      var prefixedColumn := Qualified(UnprefixName(prefix, ClearTableAlias(table)), column);
      if IsSet(map_, prefixedColumn) {
        return map_.m[prefixedColumn];
      }
      return None;
    }

    /** `validateStatementColumnAssociation`: whether the alias or column belongs to the table. */
    method ValidateStatementColumnAssociation(table: TableRef, alias: string) returns (b: bool)
      requires Valid()
      modifies this`statementColumns, this`statementAliasTableMap, this`statementAliasColumnMap,
               this`statementColumnTableMap, this`statementColumnAliasMap
      ensures Valid() && (unchanged(this) || StatementMapsBuilt())
      ensures b == ValidateAssociation(BareTableName(prefix, table), alias,
                                       AliasTrack(statementColumnsConfig), ColumnTrack(statementColumnsConfig))
    {
      var tableName := UnprefixName(prefix, ClearTableAlias(table));
      var aliasTableMap := GetStatementAliasTableMap();
      if IsSet(aliasTableMap, alias) {
        return aliasTableMap.m[alias] == Some(tableName);
      }
      var columnTableMap := GetStatementColumnTableMap();
      if IsSet(columnTableMap, alias) {
        return columnTableMap.m[alias] == Some(tableName);
      }
      var prefixedAlias := Qualified(tableName, alias);
      return IsSet(aliasTableMap, prefixedAlias) || IsSet(columnTableMap, prefixedAlias);
    }

    /**
     * `requireStatementColumn`: the statement column a name stands for in the
     * table, a statement error when it is not associated with the table, or
     * the general repository's verdict when the name is unknown here.
     */
    method RequireStatementColumn(table: TableRef, name: string) returns (r: Result<string>)
      requires Valid()
      modifies this`statementColumns, this`statementAliasTableMap, this`statementAliasColumnMap,
               this`statementColumnTableMap, this`statementColumnAliasMap
      ensures Valid() && (unchanged(this) || StatementMapsBuilt())
      ensures r == StatementMaps.RequireStatementColumn(BareTableName(prefix, table), name,
                     AliasTrack(statementColumnsConfig), ColumnTrack(statementColumnsConfig),
                     parent.requireStatementColumn)
    {
      var column, alias;
      var resolved := ResolveStatementColumnAlias(table, name);
      if resolved.Some? {
        column, alias := resolved.value, name;
      } else {
        var reassembled := ReassembleStatementColumnAlias(table, name);
        if reassembled.Some? {
          column, alias := name, reassembled.value;
        } else {
          return parent.requireStatementColumn(UnprefixName(prefix, ClearTableAlias(table)), name);
        }
      }
      var associated := ValidateStatementColumnAssociation(table, alias);
      if !associated {
        return Err(StatementColumnNotFound(name, UnprefixName(prefix, ClearTableAlias(table))));
      }
      return Ok(column);
    }

    /** `findTableName`: the table owning an alias or column in the general repository's query maps. */
    method FindTableName(column: string) returns (r: Option<string>)
      ensures r == OwnerTable(parent.aliasTableMap, parent.columnTableMap, column)
    {
      var aliasTableMap := parent.aliasTableMap;
      if IsSet(aliasTableMap, column) {
        return aliasTableMap.m[column];
      }
      var columnTableMap := parent.columnTableMap;
      if IsSet(columnTableMap, column) {
        return columnTableMap.m[column];
      }
      var keys := aliasTableMap.keys;
      var i := 0;
      while i < |keys|
        invariant 0 <= i <= |keys|
        invariant ScanQualified(aliasTableMap, keys[i..], column) == ScanQualified(aliasTableMap, keys, column)
      {
        var prefixedAlias := keys[i];
        if '.' in prefixedAlias {
          var alias := AfterFirstDot(prefixedAlias);
          if alias == column {
            return ValueAt(aliasTableMap, prefixedAlias);
          }
        }
        assert keys[i..][1..] == keys[i + 1..];
        i := i + 1;
      }
      return None;
    }

    /**
     * `joinColumn`: joins the table owning `name` into the query for `target`
     * and yields the query column `name` stands for. No owner and no handler
     * are errors; an owner already joined leaves the query as it was; otherwise
     * the owner's handler is called once.
     */
    method JoinColumn(name: string, target: TableRef, query: RepositoryQuery) returns (r: Result<string>)
      modifies query
      ensures var owner := OwnerTable(parent.aliasTableMap, parent.columnTableMap, name);
              var bareTarget := BareTableName(prefix, target);
              if owner.None? || !Truthy(owner.value) then
                r == Err(NoOwningTable(name, bareTarget)) && unchanged(query)
              else
                var column := parent.resolveQueryColumnAlias(UnprefixName(prefix, owner.value), name).GetOr(name);
                if PrefixName(prefix, owner.value) in old(query.joinedTables) then
                  r == Ok(column) && unchanged(query)
                else if owner.value !in handlers then
                  r == Err(NoJoinHandler(owner.value, bareTarget)) && unchanged(query)
                else
                  && r == Ok(column)
                  && query.joinCalls == old(query.joinCalls) + [JoinCall(owner.value, target, name)]
                  && query.joinedTables == old(query.joinedTables) + handlers[owner.value]
    {
      var tableName := FindTableName(name);
      if tableName.None? || !Truthy(tableName.value) {
        return Err(NoOwningTable(name, UnprefixName(prefix, ClearTableAlias(target))));
      }
      var owner := tableName.value;
      var column := parent.resolveQueryColumnAlias(UnprefixName(prefix, owner), name);
      var resolvedColumn := if column.None? then name else column.value;
      var prefixedTableName := PrefixName(prefix, owner);
      if query.HasJoinedTable(prefixedTableName) {
        return Ok(resolvedColumn);
      }
      if owner !in handlers {
        return Err(NoJoinHandler(owner, UnprefixName(prefix, ClearTableAlias(target))));
      }
      query.joinCalls := query.joinCalls + [JoinCall(owner, target, name)];
      query.joinedTables := query.joinedTables + handlers[owner];
      return Ok(resolvedColumn);
    }

    /**
     * Joining the same name twice calls a handler at most once, and both joins
     * yield the same result, provided every handler joins at least its own
     * (prefixed) table.
     */
    method JoinColumnTwice(name: string, target: TableRef, query: RepositoryQuery)
      returns (first: Result<string>, second: Result<string>)
      requires forall t :: t in handlers ==> PrefixName(prefix, t) in handlers[t]
      modifies query
      ensures first == second
      ensures |old(query.joinCalls)| <= |query.joinCalls| <= |old(query.joinCalls)| + 1
    {
      first := JoinColumn(name, target, query);
      second := JoinColumn(name, target, query);
    }

    /** `applyTableAlias` with the table aliases taken from their cache. */
    method ApplyTableAlias(table: TableRef) returns (r: TableRef)
      requires Valid()
      modifies this`tableAliases
      ensures Valid() && tableAliases == Some(aliasesConfig)
      ensures r == TableNames.ApplyTableAlias(aliasesConfig, prefix, table)
    {
      var tableAliases := GetTableAliases();
      if table.Aliased? {
        return table;
      }
      var nonPrefixedTable := UnprefixName(prefix, table.name);
      if nonPrefixedTable !in tableAliases {
        return table;
      }
      return Aliased(tableAliases[nonPrefixedTable], table.name);
    }

    /**
     * The post-pass of `requireFilter` on the general repository's result: a
     * leaf on a column without collation, not yet wrapped, gets its column
     * wrapped in `LOWER(...)` and its value or values lower-cased in place.
     */
    method RequireFilterPostPass(filter: Filter) returns (r: Filter)
      requires Valid()
      modifies if filter.Leaf? then {filter.node} else {}
      ensures r == filter
      ensures dbType != PostgreSql && filter.Leaf? ==> unchanged(filter.node)
      ensures filter.Leaf? ==>
                && LeafParts(filter.node.column, filter.node.expression)
                   == LowerCaseRewrite(columnsWithoutCollation,
                                       LeafParts(old(filter.node.column), old(filter.node.expression)))
                && filter.node.sign == old(filter.node.sign)
    {
      r := filter;
      if filter.Leaf? {
        var node := filter.node;
        var column := node.GetColumn();
        if column in columnsWithoutCollation && !("LOWER" <= column) {
          var _ := node.SetColumn("LOWER(" + column + ")");
          var expression := node.GetExpression();
          if expression.List? {
            var _ := node.SetExpression(List(ToLowerAll(expression.items)));
          } else {
            var _ := node.SetExpression(Single(ToLower(expression.text)));
          }
        }
      }
    }
  }

  lemma CollatedEntriesStep(es: seq<Entry>, j: nat)
    requires j < |es|
    ensures CollatedEntries(es[..j + 1])
            == CollatedEntries(es[..j]) + (if HasCollate(es[j].column) then [StripCollate(es[j].column)] else [])
  {
    assert es[..j + 1][..j] == es[..j];
  }

  lemma StripTableStep(tc: TableColumns, j: nat)
    requires j < |tc.entries|
    ensures StripTable(tc).entries[..j + 1]
            == StripTable(tc).entries[..j] + [Entry(tc.entries[j].alias, StripCollate(tc.entries[j].column))]
  {
  }

  /** A list that agrees with the stripped tables position by position is their stripping. */
  lemma StripAllPointwise(qc: seq<TableColumns>, r: seq<TableColumns>)
    requires |r| == |qc| && forall k :: 0 <= k < |qc| ==> r[k] == StripTable(qc[k])
    ensures r == StripAll(qc)
  {
  }

  /** Stripping one more table appends its stripped form. */
  lemma StripAllStep(qc: seq<TableColumns>, i: nat)
    requires i < |qc|
    ensures StripAll(qc[..i + 1]) == StripAll(qc[..i]) + [StripTable(qc[i])]
  {
    var a, b := StripAll(qc[..i + 1]), StripAll(qc[..i]) + [StripTable(qc[i])];
    forall k | 0 <= k < |a| ensures a[k] == b[k] {
      assert qc[..i + 1][k] == if k < i then qc[..i][k] else qc[i];
    }
  }

  lemma AppendAssociative<T>(a: seq<T>, b: seq<T>, c: seq<T>)
    ensures a + b + c == a + (b + c)
  {
  }

  /** The columns without collation after one more table. */
  lemma CollatedStep(qc: seq<TableColumns>, i: nat)
    requires i < |qc|
    ensures Collated(qc[..i + 1]) == Collated(qc[..i]) + CollatedEntries(qc[i].entries)
  {
    assert qc[..i + 1][..i] == qc[..i];
  }

  /** The recordings of a table one entry further on. */
  lemma TableTriplesSnoc(ps: seq<Triple>, kind: Kind, tc: TableColumns, j: nat)
    requires j < |tc.entries|
    ensures ps + TableTriples(kind, tc)[..j + 1] == ps + TableTriples(kind, tc)[..j] + [TripleOf(kind, tc.table, tc.entries[j])]
  {
    var tt := TableTriples(kind, tc);
    assert tt[..j + 1] == tt[..j] + [tt[j]];
  }

  /** The recordings of one more table follow those before it. */
  lemma TriplesStep(kind: Kind, spec: ColumnSpec, i: nat)
    requires i < |spec|
    ensures Triples(kind, spec[..i + 1]) == Triples(kind, spec[..i]) + TableTriples(kind, spec[i])
    ensures TableTriples(kind, spec[i])[..|spec[i].entries|] == TableTriples(kind, spec[i])
  {
    assert spec[..i + 1][..i] == spec[..i];
  }
}
