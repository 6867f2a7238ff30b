/**
 * The Python dict `{name: formatted price}` the scraper builds, keeps and compares.
 * A dict remembers the order in which its keys were first inserted, so it is
 * modelled as that order (`keys`) beside the key-value content (`vals`).
 */
module PriceTable {

  datatype PriceMap = PriceMap(keys: seq<string>, vals: map<string, string>)

  ghost predicate Distinct(s: seq<string>)
  {
    forall i, j :: 0 <= i < j < |s| ==> s[i] != s[j]
  }

  /** Every key is listed once in the order, and the order lists exactly the keys. */
  ghost predicate WellFormed(m: PriceMap)
  {
    Distinct(m.keys) && forall k :: k in m.vals <==> k in m.keys
  }

  /** `{}` */
  function Empty(): (m: PriceMap)
    ensures WellFormed(m) && m.vals == map[]
  {
    PriceMap([], map[])
  }

  /**
   * `m[k] = v`: a new key is appended to the order; an existing key keeps
   * its position and only its value is replaced.
   */
  function Put(m: PriceMap, k: string, v: string): (r: PriceMap)
    requires WellFormed(m)
    ensures WellFormed(r)
    ensures r.vals == m.vals[k := v]
    ensures k in m.vals ==> r.keys == m.keys
    ensures k !in m.vals ==> r.keys == m.keys + [k]
  {
    if k in m.vals then PriceMap(m.keys, m.vals[k := v])
    else PriceMap(m.keys + [k], m.vals[k := v])
  }

  /** A well-formed dict is empty (`not d`) exactly when its key order is empty. */
  lemma {:induction false} EmptyIffNoKeys(m: PriceMap)
    requires WellFormed(m)
    ensures m.keys == [] <==> m.vals == map[]
  {
    if m.keys != [] {
      assert m.keys[0] in m.vals;
    }
  }
}
