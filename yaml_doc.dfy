/** The values that travel through the diagram YAML file: what the writer
    in mappings.py hands to `yaml.safe_dump` and what the reader in
    diagram_generator.py gets back from `yaml.safe_load`. The dumping and
    loading themselves are not modelled. */
module YamlDoc {

  import opened Wrappers

  /** A scalar in a node or edge mapping: YAML `null` or a string. */
  datatype Scalar = Null | Str(text: string)

  /** One node or edge mapping. `safe_dump(..., sort_keys=False)` keeps the
      insertion order, so the keys stay in order. A Python dict never holds
      the same key twice, and a YAML mapping that repeats a key loads with
      the last value; a `Dict` may repeat keys, and `Lookup` then takes the
      first, so the two agree on mappings with `DistinctKeys`. */
  type Dict = seq<(string, Scalar)>

  /** A whole diagram file: top-level keys (`nodes`, `edges`) to lists of
      mappings. */
  type Document = map<string, seq<Dict>>

  /** The keys of a mapping, in order. */
  function Keys(d: Dict): (ks: seq<string>)
    ensures |ks| == |d|
    ensures forall i :: 0 <= i < |d| ==> ks[i] == d[i].0
  {
    seq(|d|, i requires 0 <= i < |d| => d[i].0)
  }

  /** The position of the first entry at or after `from` whose key is `key`,
      or `|d|` when there is none. */
  function KeyIndex(d: Dict, key: string, from: nat): (i: nat)
    requires from <= |d|
    ensures from <= i <= |d|
    ensures forall j :: from <= j < i ==> d[j].0 != key
    ensures i < |d| ==> d[i].0 == key
    decreases |d| - from
  {
    if from == |d| || d[from].0 == key then from else KeyIndex(d, key, from + 1)
  }

  /** `d.get(key)` told apart from a missing key: None when `key` is absent,
      otherwise the value stored under it. */
  function Lookup(d: Dict, key: string): (v: Option<Scalar>)
    ensures v.Some? <==> key in Keys(d)
    ensures v.Some? ==> (key, v.value) in d
  {
    var i := KeyIndex(d, key, 0);
    if i < |d| then Some(d[i].1) else None
  }

  /** No key occurs twice, as in any Python dict. */
  predicate DistinctKeys(d: Dict) {
    forall i, j :: 0 <= i < j < |d| ==> d[i].0 != d[j].0
  }

  /** In a mapping without repeated keys the stored pair for `key` is the
      only one, so whichever occurrence a lookup picks, it finds that value. */
  lemma LookupDistinct(d: Dict, key: string, v: Scalar)
    requires DistinctKeys(d) && (key, v) in d
    ensures Lookup(d, key) == Some(v)
  {
    var k :| 0 <= k < |d| && d[k] == (key, v);
    assert Keys(d)[k] == key;
    var m :| 0 <= m < |d| && d[m] == (key, Lookup(d, key).value);
    assert m == k;
  }

  /** Python truthiness of `d.get(key)`: a missing key, `null` and the empty
      string are all false. */
  predicate Truthy(v: Option<Scalar>) {
    v.Some? && v.value.Str? && v.value.text != ""
  }

  /** The falsy results of `d.get(key)` are exactly a missing key, `null` and
      the empty string. */
  lemma FalsyValues(v: Option<Scalar>)
    ensures !Truthy(v) <==> v == None || v == Some(Null) || v == Some(Str(""))
  {
  }
}
