# Filter leaves and the database repository, modelled in Dafny

This project models two pieces of Icinga Web 2's data layer and proves properties of them.

- **`FilterExpression`** is the leaf of a filter tree: a column, a sign and an expression.
  - The expression is a single value or a list of values.
  - The leaf can be built, read, changed in place and rendered as text.
  - It can be matched against a row in memory. A list expression is membership; a value without `*` is equality; a value with `*` is a glob. The glob is compiled to an anchored regular expression made of literal pieces joined by `.*`.
- **`DbRepository`** resolves the names used in statements and queries against a database:
  - it puts a table prefix on table names and takes it off again;
  - it applies and clears table aliases;
  - it builds four ordered statement maps from the statement columns declared per table, with a rule for names declared more than once;
  - it looks names up in those maps;
  - it finds the table that owns a query column and joins that table into a query through a join handler;
  - for PostgreSQL, it removes ` COLLATE …` instructions from query columns and later makes filters on those columns case-insensitive.

How the code is laid out:

- `strings.dfy` (`Strings`): the PHP string primitives involved, written out over `seq<char>`. These are `trim`, `strpos`, `str_replace`, `strtolower` (ASCII), `implode`, `preg_split` and `explode` on one character, and PHP's truthiness of strings.
- `glob.dfy` (`Glob`): the reference meaning of a `*`-pattern, and a proof that it agrees with the compiled pattern.
- `filter_expression.dfy` (`Filters`): the class `FilterExpression` and the row matcher.
- `ordered_map.dfy` (`OrderedMaps`): PHP arrays with string keys. They keep insertion order, and a key can hold null.
- `table_names.dfy` (`TableNames`): table references (`Plain(name)` or `Aliased(alias, name)`), prefixes and aliases.
- `statement_maps.dfy` (`StatementMaps`):
  - the statement-map builder, written as a fold of the entries in declaration order;
  - the three lookups over the maps;
  - the key-by-key description of the maps the fold produces.
- `collation.dfy` (`Collation`): stripping COLLATE instructions, and the lower-casing rewrite of a filter leaf.
- `repository.dfy` (`Repository`):
  - the class `DbRepository`, with its lazily filled caches;
  - the nested-loop builder of the statement maps, the COLLATE stripping loop and the lookups;
  - `findTableName`, `joinColumn` and the `requireFilter` post-pass;
  - a small `RepositoryQuery` class that holds the joined tables.
- `options.dfy`, `errors.dfy`: null as `Option`, and the repository's errors as a `Result`.

What the model takes as given:

- **Datasource:** its table prefix and its database type are constructor parameters.
- **General repository (the parent class):** its results are inputs, bundled in `Parent`:
  - its query columns;
  - its alias-to-table and column-to-table query maps, as ordered maps;
  - its `resolveQueryColumnAlias`, as a function;
  - its `requireStatementColumn` verdict for names this repository does not know.
- **Join handlers:** a registry from a table name to the set of tables its handler joins into the query. A call of a handler is recorded in the query.

Where the documented intent and the code differ, the model follows the code:

- **Removing a prefix:** `removeTablePrefix` removes every occurrence of the prefix, not just the leading one. So undoing `prependTablePrefix` gives the name back exactly for names that do not start with the prefix: a name holding the prefix elsewhere is left alone both ways, and one starting with it loses every occurrence (`RoundTripExactly`, `UnprefixRemovesEveryOccurrence`).
- **Adding a prefix:** a name that contains the prefix anywhere, not only at its start, is not prefixed again.
- **The reassembling branch of `requireStatementColumn`:**
  - it checks the alias the column reassembles to, not the column itself;
  - so a column of one table can be accepted for another table that declares the same alias (`ReassembleAcrossTables`).
- **Checking an alias:**
  - `validateStatementColumnAssociation` first looks at the unqualified alias entries, then at the unqualified column entries;
  - so an alias declared by several tables can be rejected for one of them when the same name is also a column of exactly one other table;
  - `RequireResolvedComplete` states exactly when an alias is accepted.

## Model

| member | source | states |
|---|---|---|
| Filters.FilterExpression.constructor | library/Icinga/Data/Filter/FilterExpression.php:12-18 | the column is stored trimmed of PHP's default trim characters; sign and expression are stored verbatim |
| Strings.Trim | library/Icinga/Data/Filter/FilterExpression.php:14 | the trimmed column is the slice after the leading trim characters; only trim characters follow it, and it neither starts nor ends with one |
| Strings.TrimIdempotent | library/Icinga/Data/Filter/FilterExpression.php:14 | trimming an already trimmed column changes nothing |
| Filters.LeafShape | library/Icinga/Data/Filter/FilterExpression.php:20-33 | a leaf is an expression, is not a chain, is never empty, and lists exactly its own column as filtered |
| Filters.FilterExpression.IsExpression | library/Icinga/Data/Filter/FilterExpression.php:20-23 | always true; stated, with the next two, by `Filters.LeafShape` |
| Filters.FilterExpression.IsChain | library/Icinga/Data/Filter/FilterExpression.php:25-28 | always false |
| Filters.FilterExpression.IsEmpty | library/Icinga/Data/Filter/FilterExpression.php:30-33 | always false |
| Filters.FilterExpression.ListFilteredColumns | library/Icinga/Data/Filter/FilterExpression.php:70-73 | the one-element list of the leaf's column; stated by `Filters.LeafShape` |
| Filters.FilterExpression.GetColumn | library/Icinga/Data/Filter/FilterExpression.php:35-38 | reads the column field |
| Filters.FilterExpression.GetSign | library/Icinga/Data/Filter/FilterExpression.php:40-43 | reads the sign field |
| Filters.FilterExpression.GetExpression | library/Icinga/Data/Filter/FilterExpression.php:51-54 | reads the expression field |
| Filters.FilterExpression.SetColumn | library/Icinga/Data/Filter/FilterExpression.php:45-49 | only the column changes, in place; sign and expression stay; the same leaf is returned |
| Filters.FilterExpression.SetExpression | library/Icinga/Data/Filter/FilterExpression.php:56-60 | only the expression changes, in place; column and sign stay; the same leaf is returned |
| Filters.FilterExpression.SetSign | library/Icinga/Data/Filter/FilterExpression.php:62-68 | with the current sign, the very same leaf is returned; otherwise a fresh leaf with the new sign, the (trimmed) column and the same expression, and the original is untouched |
| Filters.Renderings | library/Icinga/Data/Filter/FilterExpression.php:75-96 | the text form is `column sign value` with single spaces; the query form runs the three together; a list renders bracketed, items in list order, separated by a bar with spaces around it in the text form and without in the query form |
| Filters.FilterExpression.ToString | library/Icinga/Data/Filter/FilterExpression.php:75-87 | the text form; its shape is stated by `Filters.Renderings` |
| Filters.FilterExpression.ToQueryString | library/Icinga/Data/Filter/FilterExpression.php:89-96 | the query form; its shape is stated by `Filters.Renderings` and its list part is inverted by `Filters.QueryStringListRoundTrip` |
| Strings.Join | library/Icinga/Data/Filter/FilterExpression.php:78 | `implode`: the items in order with the separator between neighbours; `Strings.JoinSplit` and `Strings.SplitJoin` relate it to `Strings.Split` |
| Strings.CharInJoin | library/Icinga/Data/Filter/FilterExpression.php:122 | helper of `Filters.FilterExpression.CompilePattern`: a character outside the separator occurs in a join exactly when it occurs in some item, so the pattern holds `/` exactly when a piece does |
| Strings.Split | library/Icinga/Data/Filter/FilterExpression.php:119 | `preg_split` on `*`: at least one piece, none containing the split character |
| Filters.RenderingExample | library/Icinga/Data/Filter/FilterExpression.php:75-96 | `host = [a, b]` renders as `host = ( a`, bar, `b )` and as `host=(a`, bar, `b)` |
| Filters.QueryStringListRoundTrip | library/Icinga/Data/Filter/FilterExpression.php:89-96 | cutting the bracketed part of a list leaf's query form at its bars gives the items back, when no item contains a bar |
| Strings.SplitJoin | library/Icinga/Data/Filter/FilterExpression.php:92 | splitting a list joined with a separator character gives the list back, when no element holds that character |
| Filters.FilterExpression.Matches | library/Icinga/Data/Filter/FilterExpression.php:98-135 | the imperative matcher (building the pattern pieces, then scanning list values) decides exactly the reference meaning of the leaf on the row |
| Filters.RowMatches | library/Icinga/Data/Filter/FilterExpression.php:98-135 | the reference meaning `Matches` is proved equal to: an unset or null attribute never matches; a list expression is membership of a scalar; a single expression is a glob on a scalar or on some value of a list; a pattern with both `*` and `/` matches nothing |
| Filters.PregMatch | library/Icinga/Data/Filter/FilterExpression.php:126-134 | `preg_match` of a compiled pattern: false for an ill-formed pattern, otherwise the anchored segment match |
| Filters.FilterExpression.CompilePattern | library/Icinga/Data/Filter/FilterExpression.php:118-122 | the pattern built from the pieces between `*`s keeps those pieces, is invalid exactly when the expression holds `/`, and otherwise matches exactly the strings the glob matches |
| Filters.UnsetNeverMatches | library/Icinga/Data/Filter/FilterExpression.php:100-103 | an unset or null attribute matches no expression |
| Filters.ListIsMembership | library/Icinga/Data/Filter/FilterExpression.php:105-107 | a list expression matches exactly when the attribute is a scalar that is one of the items |
| Filters.NoStarIsEquality | library/Icinga/Data/Filter/FilterExpression.php:109-116 | a value without `*` matches a scalar exactly when it equals it, and a list attribute exactly when it is one of its values |
| Glob.GlobWithoutStar | library/Icinga/Data/Filter/FilterExpression.php:110-116 | a pattern without `*` matches exactly itself |
| Strings.JoinSplit | library/Icinga/Data/Filter/FilterExpression.php:119-122 | joining the pieces of a split with the split character gives the string back |
| Glob.CompiledMatchesGlob | library/Icinga/Data/Filter/FilterExpression.php:118-122 | the pattern compiled from the pieces between `*`s, anchored at both ends, matches exactly the strings the glob matches |
| Glob.LiteralHead | library/Icinga/Data/Filter/FilterExpression.php:122 | helper of `Glob.CompiledMatchesGlob`: a leading literal character of the first segment has to lead the subject |
| Glob.GlobMatch | library/Icinga/Data/Filter/FilterExpression.php:119-122 | the reference glob: `*` stands for any run of characters, every other character for itself, the whole subject consumed |
| Glob.AnchoredMatch | library/Icinga/Data/Filter/FilterExpression.php:122 | `^s0.*s1…$` over literal segments: the subject starts with the first segment and the rest floats; proved equal to `Glob.GlobMatch` by `Glob.CompiledMatchesGlob` |
| Glob.FloatingMatch | library/Icinga/Data/Filter/FilterExpression.php:122 | `.*s0.*s1…$`: some suffix of the subject matches the segments anchored |
| Glob.StarMatchesAll | library/Icinga/Data/Filter/FilterExpression.php:118-134 | the pattern `*` matches every string |
| Filters.LoneStarMatchesAll | library/Icinga/Data/Filter/FilterExpression.php:118-134 | `*` matches every set scalar attribute, and a list attribute exactly when the list is non-empty |
| Glob.OneStarAnchored | library/Icinga/Data/Filter/FilterExpression.php:122 | `a*b` matches exactly the strings that start with `a`, end with `b` and are at least as long as both together |
| Glob.GlobExamples | library/Icinga/Data/Filter/FilterExpression.php:118-134 | `a*b*c` matches `abc` and `aXbYc` but not `bac` |
| Filters.FilterExpression.AndFilter | library/Icinga/Data/Filter/FilterExpression.php:137-140 | computes the all-of chain of this leaf and the other filter, in that order |
| Filters.FilterExpression.OrFilter | library/Icinga/Data/Filter/FilterExpression.php:142-145 | computes the any-of chain of this leaf and the other filter, in that order |
| Filters.ChainShapes | library/Icinga/Data/Filter/FilterExpression.php:137-145 | both combinators build a chain of exactly two operands, this leaf first and the other filter second; `and` gives an all-of chain, `or` an any-of chain, so the two never coincide |
| TableNames.NoPrefixIsIdentity | library/Icinga/Repository/DbRepository.php:198-204 | with an empty or `"0"` prefix, prefixing and unprefixing return the reference unchanged |
| Strings.Truthy | library/Icinga/Repository/DbRepository.php:201 | PHP truthiness of a string, as tested by `! $prefix` at :201 and :232 and `! $tableName` at :842: neither empty nor `"0"` |
| TableNames.PrefixName | library/Icinga/Repository/DbRepository.php:207-212 | one name prefixed unless the prefix is falsy or occurs in it; stated by `TableNames.PrefixNameSpec` |
| Strings.Contains | library/Icinga/Repository/DbRepository.php:207 | `strpos(...) !== false`: the pattern occurs at some position of the string |
| TableNames.UnprefixName | library/Icinga/Repository/DbRepository.php:240-244 | one name unprefixed when it starts with a truthy prefix; stated by `TableNames.RemoveAfterPrepend` and `TableNames.UnprefixRemovesEveryOccurrence` |
| Strings.RemoveAll | library/Icinga/Repository/DbRepository.php:241 | `str_replace($prefix, '', ...)`: every occurrence found left to right is removed; the result is never longer |
| TableNames.PrependTablePrefix | library/Icinga/Repository/DbRepository.php:198-218 | the names of a plain or aliased reference prefixed, the alias kept |
| TableNames.RemoveTablePrefix | library/Icinga/Repository/DbRepository.php:229-250 | the names of a plain or aliased reference unprefixed, the alias kept |
| TableNames.ClearTableAlias | library/Icinga/Repository/DbRepository.php:279-290 | the table name of a plain reference, or the name behind the alias |
| TableNames.BareTableName | library/Icinga/Repository/DbRepository.php:719 | `removeTablePrefix(clearTableAlias($table))`, the table name the statement lookups compare against at :719, :756, :810 and :846: the name behind any alias, with the prefix removed when it starts with it; its parts are described by `TableNames.NoPrefixIsIdentity`, `TableNames.ClearAfterApply` and `TableNames.RoundTripExactly` |
| TableNames.ApplyTableAlias | library/Icinga/Repository/DbRepository.php:260-268 | the aliasing rule; stated by `TableNames.ApplyAliasUnchanged`, `TableNames.ClearAfterApply` and `TableNames.ApplyAliasIdempotent` |
| TableNames.PrefixNameSpec | library/Icinga/Repository/DbRepository.php:207-212 | a name containing the prefix anywhere is left alone; any other name gets the prefix in front; either way the result contains the prefix |
| TableNames.PrependIdempotent | library/Icinga/Repository/DbRepository.php:198-216 | prefixing twice is prefixing once, for plain and aliased references |
| TableNames.RemoveAfterPrepend | library/Icinga/Repository/DbRepository.php:229-245 | unprefixing undoes prefixing for every name that does not contain the prefix |
| TableNames.RoundTripExactly | library/Icinga/Repository/DbRepository.php:198-245 | with a prefix in effect, prefixing and then unprefixing gives a reference back exactly when its name does not start with the prefix |
| TableNames.UnprefixRemovesEveryOccurrence | library/Icinga/Repository/DbRepository.php:241-243 | for a name that starts with the prefix, every occurrence of the prefix is removed: with prefix `ab`, `abxab` becomes `x` and is not prefixed again |
| TableNames.ApplyAliasUnchanged | library/Icinga/Repository/DbRepository.php:260-265 | already aliased references, and names whose unprefixed form has no configured alias, are returned as they are |
| TableNames.ClearAfterApply | library/Icinga/Repository/DbRepository.php:260-290 | aliasing a plain name attaches the alias configured for its unprefixed form and keeps the name; clearing the alias gives the name back |
| TableNames.ApplyAliasIdempotent | library/Icinga/Repository/DbRepository.php:260-268 | aliasing twice is aliasing once |
| Repository.DbRepository.ApplyTableAlias | library/Icinga/Repository/DbRepository.php:260-268 | returns the aliased reference described above, and leaves the configured aliases cached |
| StatementMaps.TriplesFromEntries | library/Icinga/Repository/DbRepository.php:425-428 | as sets: every recording comes from a declared statement column, keyed by its alias (the column when it has none) or by its column, and every declared column is recorded; multiplicity and order are stated by the next three rows |
| StatementMaps.TriplesLength | library/Icinga/Repository/DbRepository.php:425-428 | there are exactly as many recordings of each kind as declared statement columns, over all tables |
| StatementMaps.TriplesAt | library/Icinga/Repository/DbRepository.php:425-428 | entry `j` of table `i` is recording number `j` plus the number of entries of the tables before `i`: tables in declaration order, each table's entries in order |
| StatementMaps.TriplesCover | library/Icinga/Repository/DbRepository.php:425-428 | every recording is that of some declared column, at that column's position; with the two rows above, each declared column is recorded exactly once |
| StatementMaps.Key | library/Icinga/Repository/DbRepository.php:427 | an entry is recorded in the alias maps under its alias, or under its column when it has none |
| StatementMaps.Record | library/Icinga/Repository/DbRepository.php:427-460 | one recording with the ambiguity rule; its effect is stated by `StatementMaps.RecordDemotes` and key by key by `StatementMaps.FoldKeyFacts` |
| StatementMaps.Fold | library/Icinga/Repository/DbRepository.php:419-463 | the recordings applied in order to empty maps; described by `StatementMaps.FoldKeyFacts` and `StatementMaps.FoldAligned` |
| StatementMaps.RecordDemotes | library/Icinga/Repository/DbRepository.php:428-440 | recording a key that is set unqualified leaves the old maps with `<existing table>.<key>` holding the existing table and value, the unqualified slot null and `<table>.<key>` holding the current table and value, and no other key changed |
| StatementMaps.FoldKeyFacts | library/Icinga/Repository/DbRepository.php:419-463 | for every dot-free key, when every recorded key is dot-free: if it is declared once, its unqualified entry names the table and value; if declared two or more times (in any tables, also twice in one table), its unqualified slot is null and there is a `<t>.<key>` entry for exactly the tables `t` declaring it, holding `t` and that table's last value for it |
| StatementMaps.FoldAligned | library/Icinga/Repository/DbRepository.php:419-463 | the table map and its companion map always list the same keys, in the same order, each once |
| StatementMaps.StatementMapsAmbiguity | library/Icinga/Repository/DbRepository.php:419-463 | the key-by-key facts hold for the alias maps and, independently, for the column maps of a specification whose names hold no dot |
| Repository.DbRepository.RecordStatementColumn | library/Icinga/Repository/DbRepository.php:427-460 | one recording step with the ambiguity rule, for either pair of maps, is the builder's step |
| Repository.DbRepository.RecordTableColumns | library/Icinga/Repository/DbRepository.php:426-461 | the inner loop over one table's entries extends both pairs of maps by that table's recordings |
| Repository.DbRepository.RecordTrack | library/Icinga/Repository/DbRepository.php:425-460 | recording one table's entries in order, in one pair of maps, extends that pair by the table's recordings of that kind |
| Repository.DbRepository.InitializeStatementMaps | library/Icinga/Repository/DbRepository.php:419-463 | caches the statement columns and sets the four statement maps to exactly the builder's maps for them, keeping the repository invariant |
| Repository.DbRepository.BuildStatementMaps | library/Icinga/Repository/DbRepository.php:420-462 | the two loops, starting from four empty maps, build exactly the alias pair and the column pair of the builder for the given statement columns |
| Repository.DbRepository.GetStatementColumns | library/Icinga/Repository/DbRepository.php:341-348 | returns the configured statement columns, filling the cache on first use |
| Repository.DbRepository.GetStatementAliasTableMap | library/Icinga/Repository/DbRepository.php:365-372 | returns the builder's alias-to-table map and leaves it cached; when that cache was empty, the statement columns and all four statement maps are built and cached, and otherwise nothing in the repository changes |
| Repository.DbRepository.GetStatementAliasColumnMap | library/Icinga/Repository/DbRepository.php:379-386 | returns the builder's alias-to-column map and leaves it cached; when that cache was empty, the statement columns and all four statement maps are built and cached, and otherwise nothing in the repository changes |
| Repository.DbRepository.GetStatementColumnTableMap | library/Icinga/Repository/DbRepository.php:393-400 | returns the builder's column-to-table map and leaves it cached; when that cache was empty, the statement columns and all four statement maps are built and cached, and otherwise nothing in the repository changes |
| Repository.DbRepository.GetStatementColumnAliasMap | library/Icinga/Repository/DbRepository.php:407-414 | returns the builder's column-to-alias map and leaves it cached; when that cache was empty, the statement columns and all four statement maps are built and cached, and otherwise nothing in the repository changes |
| Repository.DbRepository.GetTableAliases | library/Icinga/Repository/DbRepository.php:149-156 | returns the configured table aliases, filling the cache on first use |
| StatementMaps.LookupCharacterized | library/Icinga/Repository/DbRepository.php:712-746 | for dot-free names and recorded keys: a lookup yields the value of a name declared once, or the table's last value for a name declared by several tables including this one, and nothing otherwise |
| StatementMaps.LookupQualified | library/Icinga/Repository/DbRepository.php:712-724 | the unqualified entry if set, else the entry qualified with the table if set, else null; characterised by `StatementMaps.LookupCharacterized` |
| Repository.DbRepository.ResolveStatementColumnAlias | library/Icinga/Repository/DbRepository.php:712-724 | the unqualified alias entry if set, else the one qualified with the alias-cleared, prefix-stripped table, else null; the statement maps are built if the map was not cached, and otherwise nothing changes |
| Repository.DbRepository.ReassembleStatementColumnAlias | library/Icinga/Repository/DbRepository.php:733-745 | the same lookup over the column-to-alias map, with the same effect on the caches |
| StatementMaps.TablesCharacterized | library/Icinga/Repository/DbRepository.php:419-463 | in a table map built from dot-free keys, a name is set unqualified exactly when it was recorded once, then naming that table, and `<table>.<name>` is set exactly when the name was recorded several times, `table` among them |
| StatementMaps.ValidateCharacterized | library/Icinga/Repository/DbRepository.php:754-770 | for dot-free names and recorded keys: a name declared once as an alias belongs to that alias's table; otherwise a name declared once as a column belongs to that column's table; otherwise it belongs to every table that declares it several times |
| StatementMaps.ValidateSound | library/Icinga/Repository/DbRepository.php:754-770 | for a specification and a name without dots: a name associated with a table is an alias or a column that the table declares |
| StatementMaps.ValidateAssociation | library/Icinga/Repository/DbRepository.php:754-770 | the association check over built maps; characterised by `StatementMaps.ValidateCharacterized` |
| Repository.DbRepository.ValidateStatementColumnAssociation | library/Icinga/Repository/DbRepository.php:754-770 | a set unqualified alias entry and then a set unqualified column entry decide by their table; otherwise a qualified entry for the table in either map does; afterwards either nothing has changed or all statement maps are built |
| Repository.DbRepository.RequireStatementColumn | library/Icinga/Repository/DbRepository.php:803-822 | a name that resolves as an alias yields its column, and one that reassembles as a column yields itself, if the alias is associated with the table; otherwise a statement error naming the name and the bare table; unknown names get the general repository's verdict; afterwards either nothing has changed or all statement maps are built |
| StatementMaps.RequireStatementColumn | library/Icinga/Repository/DbRepository.php:803-822 | the statement column check over built maps; characterised by the three `Require...` lemmas below |
| StatementMaps.RequireResolvedSound | library/Icinga/Repository/DbRepository.php:803-822 | for a specification and a name without dots: when a name resolves as an alias, the result is either the column the table declares for it or a statement error |
| StatementMaps.RequireResolvedComplete | library/Icinga/Repository/DbRepository.php:803-822 | for a specification and a name without dots: an alias the table declares is required as the column of the table's last entry for it, except exactly when the alias is declared several times and, as a column name, belongs to exactly one other table; then the result is a statement error naming the alias and the table |
| StatementMaps.RequireReassembledSound | library/Icinga/Repository/DbRepository.php:803-822 | for a specification and a name without dots: a name that does not resolve but reassembles to an alias is required as itself exactly when that alias is associated with the table by the rule above, and is a statement error otherwise; the alias comes from an entry declaring the name as its column |
| StatementMaps.ReassembleAcrossTables | library/Icinga/Repository/DbRepository.php:807-815 | a column declared only by table `a` is accepted for table `b` when `b` declares the same alias |
| StatementMaps.DottedAliasShadows | library/Icinga/Repository/DbRepository.php:419-463 | why dot-free names are needed: with `a` and `b` declaring alias `x` and `c` declaring alias `a.x`, `x` no longer resolves for `a` although `a` declares it, and requiring `x` for `a` is handed to the general repository |
| StatementMaps.DottedAliasLookup | library/Icinga/Repository/DbRepository.php:712-724 | in that example, `a` declares the alias `x`, yet looking `x` up for `a` in the built alias-to-column map finds nothing |
| StatementMaps.DottedColumnLookup | library/Icinga/Repository/DbRepository.php:712-724 | in that example, looking `x` up for `a` in the built column-to-alias map finds nothing as well |
| StatementMaps.DottedAliasFold | library/Icinga/Repository/DbRepository.php:428-440 | for any tables `a` and `b`, recordings of a dot-free `x` by `a` and `b` and then of the key `<a>.<x>` leave `x` unresolvable for `a` |
| StatementMaps.RecordDottedShadows | library/Icinga/Repository/DbRepository.php:428-440 | recording the key `<a>.<x>` while `x` is ambiguous and `<a>.<x>` is set nulls that entry, so the lookup of `x` for `a` finds nothing |
| Repository.ScanQualifiedFirst | library/Icinga/Repository/DbRepository.php:894-901 | the scan over the alias map's keys, in insertion order, yields the table of the first key whose part after its first dot is the name, and nothing if there is none |
| Repository.ScanQualified | library/Icinga/Repository/DbRepository.php:894-901 | the scan over the keys for the first one qualifying as the column; stated by `Repository.ScanQualifiedFirst` |
| Repository.OwnerTable | library/Icinga/Repository/DbRepository.php:880-902 | the owner-table rule that `Repository.DbRepository.FindTableName` is proved equal to |
| Repository.QualifiesAs | library/Icinga/Repository/DbRepository.php:895-897 | the test of the scan: the key holds a dot and the part after its first dot (`explode('.', $key, 2)`) is the column; for a `<t>.<k>` key with a dot-free `t` this is exactly `k == column`, by `Repository.QualifiedKeyQualifies` |
| Repository.QualifiedKeyQualifies | library/Icinga/Repository/DbRepository.php:895-897 | a key `<t>.<k>` whose table part holds no dot qualifies as `k` and as nothing else |
| Strings.AfterFirstDot | library/Icinga/Repository/DbRepository.php:897 | the result is the suffix after the first dot |
| Strings.AfterFirstDotOfQualified | library/Icinga/Repository/DbRepository.php:897 | helper of `Repository.QualifiedKeyQualifies`: the part after the first dot of `<t>.<k>` is `k` when `t` has no dot |
| Repository.DbRepository.FindTableName | library/Icinga/Repository/DbRepository.php:880-902 | the loop yields, in this order, a set unqualified alias entry, a set unqualified column entry, the first qualifying key's table, or null |
| OrderedMaps.Empty | library/Icinga/Repository/DbRepository.php:421-424 | `array()`: a valid map with no keys |
| OrderedMaps.HasKey | library/Icinga/Repository/DbRepository.php:428-445 | `array_key_exists`: the key is present, even with a null value |
| OrderedMaps.IsSet | library/Icinga/Repository/DbRepository.php:715-769 | `isset`: the key is present with a non-null value |
| OrderedMaps.ValueAt | library/Icinga/Repository/DbRepository.php:716-721 | `$map[$key]`: the stored value, null for an absent key |
| OrderedMaps.Put | library/Icinga/Repository/DbRepository.php:432-459 | assignment: the stored value is replaced, an existing key keeps its place in the order and a new key is appended, which is the order `findTableName` scans at :894 |
| OrderedMaps.PutValid | library/Icinga/Repository/DbRepository.php:432-459 | assignment keeps the key order a listing of every key exactly once |
| Repository.DbRepository.JoinColumn | library/Icinga/Repository/DbRepository.php:839-871 | these cases, with the query unchanged on every path but the last: no owner or a falsy owner is an error; an owner whose prefixed name is already joined gives the column at once; an owner without a handler is an error; otherwise its handler is called once with target and name; the column is the resolved query column, or the name itself |
| Repository.RepositoryQuery.HasJoinedTable | library/Icinga/Repository/DbRepository.php:855 | `hasJoinedTable`: the table is among those already joined into the query |
| Repository.DbRepository.JoinColumnTwice | library/Icinga/Repository/DbRepository.php:851-871 | joining a name twice gives the same result both times and calls at most one handler, when each handler joins at least its own table |
| Collation.CollateIndex | library/Icinga/Repository/DbRepository.php:179 | the leftmost position where ` COLLATE ` starts and is followed by at least one more character |
| Collation.StripCollate | library/Icinga/Repository/DbRepository.php:179 | the stripped column is a prefix of the original |
| Collation.HasCollate | library/Icinga/Repository/DbRepository.php:179-180 | the replacement count is positive: the pattern matches somewhere |
| Collation.StripCollateSpec | library/Icinga/Repository/DbRepository.php:179-180 | a stripped column lost exactly one instruction with a non-empty rest; a column without a match is unchanged; no match remains |
| Collation.StripCollateIdempotent | library/Icinga/Repository/DbRepository.php:179 | stripping twice is stripping once |
| Collation.StripCollateExample | library/Icinga/Repository/DbRepository.php:179 | `x COLLATE ci` becomes `x`; `x COLLATE ` with nothing after it stays |
| Collation.StripTable | library/Icinga/Repository/DbRepository.php:178-179 | each column of a table is stripped, in place and in order; table and aliases are kept; the inner loop is proved equal to it |
| Collation.StripAll | library/Icinga/Repository/DbRepository.php:175-187 | every table is kept, in order, with its columns stripped; the nested loops are proved equal to it |
| Collation.CollatedEntriesSpec | library/Icinga/Repository/DbRepository.php:179-182 | a string is recorded exactly when it is the stripped form of a column that had an instruction |
| Collation.CollatedAreStripped | library/Icinga/Repository/DbRepository.php:175-187 | every recorded column is a stripped column of the result whose original had an instruction |
| Repository.DbRepository.RemoveCollateFromTable | library/Icinga/Repository/DbRepository.php:177-185 | the inner loop strips one table's columns and appends the stripped ones that had an instruction, in order |
| Repository.DbRepository.RemoveCollateInstruction | library/Icinga/Repository/DbRepository.php:175-187 | the nested loops return all columns stripped and append every stripped column that had an instruction, in order |
| Repository.DbRepository.constructor | library/Icinga/Repository/DbRepository.php:113-121 | all caches start empty except preset query columns, which are stripped for PostgreSQL only; only PostgreSQL records columns without collation |
| Repository.DbRepository.GetQueryColumns | library/Icinga/Repository/DbRepository.php:130-140 | the cached query columns, or else the general repository's, stripped and recorded for PostgreSQL only, then cached |
| Strings.ToLowerSpec | library/Icinga/Repository/DbRepository.php:577-582 | lower-casing turns each ASCII capital into its small letter (32 code points on), leaves no ASCII capital and changes no other character |
| Strings.ToLower | library/Icinga/Repository/DbRepository.php:577-582 | `strtolower` on ASCII letters, same length; stated by `Strings.ToLowerSpec` |
| Strings.ToLowerAll | library/Icinga/Repository/DbRepository.php:578 | `array_map('strtolower', ...)`: each item lower-cased in place, same count and order; stated item by item by `Collation.LowerCaseRewriteSpec`, and each item by `Strings.ToLowerSpec` |
| Strings.ToLowerIdempotent | library/Icinga/Repository/DbRepository.php:577-582 | helper of `Collation.LowerCaseRewriteIdempotent`: lower-casing twice is lower-casing once |
| Collation.LowerExpr | library/Icinga/Repository/DbRepository.php:577-582 | a single value is lower-cased, a list element by element, and single stays single; its characters are described by `Strings.ToLowerSpec` |
| Collation.LowerCaseRewriteSpec | library/Icinga/Repository/DbRepository.php:571-584 | a leaf on a recorded column not starting with `LOWER` gets column `LOWER(c)` and lower-cased values; any other leaf is unchanged |
| Collation.LowerCaseRewrite | library/Icinga/Repository/DbRepository.php:571-584 | the rewrite of one leaf as a value; stated by `Collation.LowerCaseRewriteSpec` and `Collation.LowerCaseRewriteIdempotent` |
| Collation.StartsWithLower | library/Icinga/Repository/DbRepository.php:573 | `strpos($column, 'LOWER') === 0`: the column starts with `LOWER` |
| Collation.NeedsLowering | library/Icinga/Repository/DbRepository.php:573 | the rewrite guard: the column is one whose collation was removed and does not yet start with `LOWER` |
| Collation.LowerCaseRewriteIdempotent | library/Icinga/Repository/DbRepository.php:571-584 | rewriting twice is rewriting once |
| Repository.DbRepository.RequireFilterPostPass | library/Icinga/Repository/DbRepository.php:571-584 | a leaf is rewritten in place by the rule above with its sign kept; chains are left alone; a repository that is not PostgreSQL changes nothing |

## Left out

- Datasource I/O is not modelled: `insert`, `update`, `delete` and the connection itself. The prefix and the database type are parameters.
- `providesValueConversion` and `getConverter` are not modelled: they belong to value conversion, outside this model.
- The methods that combine this repository's lookups with the general repository's are not modelled, because the general repository is an input here:
  - `requireAllQueryColumns`, `resolveQueryColumnAlias` and `validateQueryColumnAssociation` only strip alias and prefix from the table and call the general repository. `joinColumn` uses `resolveQueryColumnAlias` with the prefix-stripped owner.
  - `requireTable` asks the general repository only for tables without statement columns, and then returns the table aliased and prefixed (`applyTableAlias` and `prependTablePrefix` are modelled).
  - `reassembleQueryColumnAlias` falls back to the table that `findTableName` finds when the general repository has no alias and the column is not associated with the table.
  - `requireQueryColumn` and `requireFilterColumn` call `joinColumn` when a query is given and the column is not associated with the table. Without a query, `requireFilterColumn` calls `requireStatementColumn`. Both are modelled; the two callers are not.
  - `hasStatementColumn` runs the resolve, reassemble and validate lookups over the statement maps and asks the general repository when they fail.
- The general repository's own `requireFilter` is an input, and so is its recursion over chains. `RequireFilterPostPass` models only what this repository does to the filter it gets back.
- Join handlers are a registry from a table to the tables it joins. Finding a handler through `String::cname` and `method_exists`, and the handler's own body, are not modelled.
- `Filter::expression`, `Filter::matchAll` and `Filter::matchAny` are not part of this model. A chain is a plain value, and the leaf that `setSign` creates is built by the trimming constructor.
- `in_array` compares loosely in PHP, so numeric strings can compare equal. The model compares strings exactly.
- A numeric-string PHP array key becomes an integer key. The model keeps every key a string.
- Regular expressions are modelled as plain string algorithms:
  - `.` in the glob and COLLATE patterns is taken to match any character, including a newline;
  - `$` is taken to match only at the very end, not before a final newline.
- `strtolower` is modelled on ASCII letters only; its locale dependence is left out.
- The "unsupported type" exceptions of the prefix and alias helpers cannot arise: a table reference is typed as plain or aliased.
- `Filters.FilterExpression.Matches` leaves out what PHP does for a pattern that contains both `*` and `/`. There, `preg_quote` does not escape the `/` delimiter, so the compiled pattern is invalid. The model treats that as no match; the PHP run-time warning is not modelled.
- StatementMaps.StatementMapsAmbiguity: the key-by-key facts are proved only when no declared alias or column contains a dot. A dotted name can collide with a qualified `<table>.<key>` entry, and then the facts fail (`StatementMaps.DottedAliasShadows`).
- StatementMaps.FoldKeyFacts: proved only for a dot-free key and dot-free recorded keys, for the same reason.
- StatementMaps.TablesCharacterized: proved only for dot-free names and recorded keys, for the same reason.
- StatementMaps.LookupCharacterized: proved only for dot-free names and recorded keys, for the same reason.
- StatementMaps.ValidateCharacterized: proved only for dot-free names and recorded keys, for the same reason.
- StatementMaps.ValidateSound: proved only for a specification and a name without dots, for the same reason.
- StatementMaps.RequireResolvedSound: proved only for a specification and a name without dots, for the same reason.
- StatementMaps.RequireResolvedComplete: proved only for a specification and a name without dots, for the same reason.
- StatementMaps.RequireReassembledSound: proved only for a specification and a name without dots, for the same reason.
- Repository.DbRepository.RecordTableColumns: the model records a table's entries in two passes, the alias maps first and then the column maps. The source records both for each entry in one pass. Neither pair of maps reads the other, so the four maps end up the same.
