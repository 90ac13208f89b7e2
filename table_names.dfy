/**
 * Table references and their normalisation: a datasource table prefix that is
 * prepended and removed, and display aliases that decorate a table name.
 */
module TableNames {
  import opened Strings

  /**
   * A table reference: a bare name, or `array(alias => name)`, a name
   * decorated with its display alias.
   */
  datatype TableRef = Plain(name: string) | Aliased(alias: string, name: string)

  /** A prefix is in effect only when it is truthy (not "" and not "0"). */
  predicate PrefixInEffect(prefix: string) {
    Truthy(prefix)
  }

  /** Prefixing one name: a name that already contains the prefix anywhere is left alone. */
  function PrefixName(prefix: string, name: string): string {
    if !PrefixInEffect(prefix) || Contains(name, prefix) then name else prefix + name
  }

  /** Unprefixing one name: only a name starting with the prefix loses every occurrence of it. */
  function UnprefixName(prefix: string, name: string): string {
    if PrefixInEffect(prefix) && prefix <= name then RemoveAll(name, prefix) else name
  }

  /** `prependTablePrefix`: the names of the reference are prefixed, an alias is kept. */
  function PrependTablePrefix(prefix: string, t: TableRef): TableRef {
    match t
    case Plain(n) => Plain(PrefixName(prefix, n))
    case Aliased(a, n) => Aliased(a, PrefixName(prefix, n))
  }

  /** `removeTablePrefix`: the names of the reference are unprefixed, an alias is kept. */
  function RemoveTablePrefix(prefix: string, t: TableRef): TableRef {
    match t
    case Plain(n) => Plain(UnprefixName(prefix, n))
    case Aliased(a, n) => Aliased(a, UnprefixName(prefix, n))
  }

  /** `clearTableAlias`: the table name a reference stands for. */
  function ClearTableAlias(t: TableRef): string {
    t.name
  }

  /**
   * `applyTableAlias`: a bare name whose unprefixed form has a display alias
   * becomes `alias => name` (the name as given, prefix and all); references
   * that are already aliased, and names without an alias, are returned as is.
   */
  function ApplyTableAlias(aliases: map<string, string>, prefix: string, t: TableRef): TableRef {
    match t
    case Aliased(_, _) => t
    case Plain(n) =>
      var bare := UnprefixName(prefix, n);
      if bare in aliases then Aliased(aliases[bare], n) else t
  }

  /** The normalised table name lookups compare against: alias cleared, prefix removed. */
  function BareTableName(prefix: string, t: TableRef): string {
    UnprefixName(prefix, ClearTableAlias(t))
  }

  /** Without a prefix in effect, prefixing and unprefixing are the identity. */
  lemma NoPrefixIsIdentity(prefix: string, t: TableRef)
    requires !PrefixInEffect(prefix)
    ensures PrependTablePrefix(prefix, t) == t && RemoveTablePrefix(prefix, t) == t
  {
  }

  /**
   * Prefixing a name prepends the prefix exactly when the name does not
   * contain it; a name carrying the prefix anywhere, not only at its start,
   * counts as already prefixed.
   */
  lemma PrefixNameSpec(prefix: string, name: string)
    requires PrefixInEffect(prefix)
    ensures Contains(name, prefix) ==> PrefixName(prefix, name) == name
    ensures !Contains(name, prefix) ==> PrefixName(prefix, name) == prefix + name
    ensures Contains(PrefixName(prefix, name), prefix)
  {
    assert prefix <= prefix + name;
  }

  /** Prefixing is idempotent. */
  lemma PrependIdempotent(prefix: string, t: TableRef)
    ensures PrependTablePrefix(prefix, PrependTablePrefix(prefix, t)) == PrependTablePrefix(prefix, t)
  {
    if PrefixInEffect(prefix) {
      PrefixNameSpec(prefix, t.name);
    }
  }

  /** Unprefixing undoes prefixing for every name that does not contain the prefix. */
  lemma RemoveAfterPrepend(prefix: string, t: TableRef)
    requires !Contains(t.name, prefix)
    ensures RemoveTablePrefix(prefix, PrependTablePrefix(prefix, t)) == t
  {
    if PrefixInEffect(prefix) {
      assert prefix <= prefix + t.name;
      RemoveAllLeading(prefix, t.name);
    }
  }

  /**
   * With a prefix in effect, prefixing and then unprefixing gives a reference
   * back exactly when its name does not start with the prefix. A name holding
   * the prefix elsewhere is left alone both ways; one starting with it is not
   * prefixed again but loses the prefix, and so comes back shorter.
   */
  lemma RoundTripExactly(prefix: string, t: TableRef)
    requires PrefixInEffect(prefix)
    ensures RemoveTablePrefix(prefix, PrependTablePrefix(prefix, t)) == t <==> !(prefix <= t.name)
  {
    var n := t.name;
    if prefix <= n {
      assert Contains(n, prefix);
      assert |RemoveAll(n, prefix)| < |n| by {
        assert RemoveAll(n, prefix) == RemoveAll(n[|prefix|..], prefix);
      }
    } else if !Contains(n, prefix) {
      RemoveAfterPrepend(prefix, t);
    }
  }

  /**
   * Unprefixing removes every occurrence of the prefix from a name that starts
   * with it, so for such a name prefixing and then unprefixing does not give
   * the name back: with prefix "ab", "abxab" comes back as "x".
   */
  lemma UnprefixRemovesEveryOccurrence()
    ensures PrefixName("ab", "abxab") == "abxab"
    ensures UnprefixName("ab", "abxab") == "x"
  {
    assert "ab" <= "abxab";
    assert "abxab"[2..] == "xab";
    assert "xab"[0] != "ab"[0];
    assert !("ab" <= "xab");
    assert "xab"[1..] == "ab";
    assert "ab" <= "ab";
    assert "ab"[2..] == "";
  }

  /** Aliasing leaves aliased references and names without a configured alias unchanged. */
  lemma ApplyAliasUnchanged(aliases: map<string, string>, prefix: string, t: TableRef)
    requires t.Aliased? || UnprefixName(prefix, t.name) !in aliases
    ensures ApplyTableAlias(aliases, prefix, t) == t
  {
  }

  /**
   * Aliasing a bare name keeps the name and attaches the alias configured for
   * its unprefixed form; clearing the alias gives the name back.
   */
  lemma ClearAfterApply(aliases: map<string, string>, prefix: string, n: string)
    ensures ClearTableAlias(ApplyTableAlias(aliases, prefix, Plain(n))) == n
    ensures UnprefixName(prefix, n) in aliases
            ==> ApplyTableAlias(aliases, prefix, Plain(n)) == Aliased(aliases[UnprefixName(prefix, n)], n)
  {
  }

  /** Aliasing is idempotent. */
  lemma ApplyAliasIdempotent(aliases: map<string, string>, prefix: string, t: TableRef)
    ensures ApplyTableAlias(aliases, prefix, ApplyTableAlias(aliases, prefix, t))
            == ApplyTableAlias(aliases, prefix, t)
  {
  }
}
