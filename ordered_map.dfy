/**
 * PHP arrays with string keys: maps that remember the order in which keys were
 * first inserted. A value may be null (`None`), which is different from the
 * key being absent.
 */
module OrderedMaps {
  import opened Options

  datatype OMap = OMap(keys: seq<string>, m: map<string, Option<string>>)

  /** The key order lists every key exactly once. */
  ghost predicate Valid(om: OMap) {
    && (forall i, j :: 0 <= i < j < |om.keys| ==> om.keys[i] != om.keys[j])
    && (forall i :: 0 <= i < |om.keys| ==> om.keys[i] in om.m)
    && (forall k :: k in om.m ==> k in om.keys)
  }

  /** `array()`. */
  function Empty(): (om: OMap)
    ensures Valid(om) && om.m == map[]
  {
    OMap([], map[])
  }

  /** `array_key_exists(k, om)`. */
  predicate HasKey(om: OMap, k: string) {
    k in om.m
  }

  /** `isset(om[k])`: present and not null. */
  predicate IsSet(om: OMap, k: string) {
    k in om.m && om.m[k].Some?
  }

  /** `om[k]`, null for an absent key. */
  function ValueAt(om: OMap, k: string): Option<string> {
    if k in om.m then om.m[k] else None
  }

  /**
   * `om[k] = v`: an existing key keeps its place in the order, a new key is
   * appended.
   */
  function Put(om: OMap, k: string, v: Option<string>): (r: OMap)
    ensures r.m == om.m[k := v]
    ensures r.keys == if k in om.m then om.keys else om.keys + [k]
  {
    OMap(if k in om.m then om.keys else om.keys + [k], om.m[k := v])
  }

  /** Storing keeps the order a listing of the keys, each once. */
  lemma PutValid(om: OMap, k: string, v: Option<string>)
    requires Valid(om)
    ensures Valid(Put(om, k, v))
  {
  }
}
