/**
 * The parsed YAML value tree the enrollment reader works on (yaml_rust's `Yaml`).
 * A mapping keeps its entries in document order.
 */
module YamlTree {

  import opened Wrappers
  import opened Ints

  datatype Yaml =
    | Real(repr: string)
    | Integer(number: i64)
    | String(text: string)
    | Boolean(truth: bool)
    | Array(items: seq<Yaml>)
    | Hash(entries: seq<(Yaml, Yaml)>)
    | Alias(anchor: nat)
    | Null
    | BadValue

  /** The last entry of a mapping that `pick` selects: the one a later-wins scan keeps. */
  function LastWhere(entries: seq<(Yaml, Yaml)>, pick: ((Yaml, Yaml)) -> bool): (r: Option<(Yaml, Yaml)>)
    ensures r.Some? ==> exists i :: 0 <= i < |entries| && entries[i] == r.value && pick(entries[i]) &&
                          forall j :: i < j < |entries| ==> !pick(entries[j])
    ensures r.None? ==> forall i :: 0 <= i < |entries| ==> !pick(entries[i])
  {
    if |entries| == 0 then None
    else
      var later := LastWhere(entries[1..], pick);
      if later.Some? then
        assert forall j :: 1 <= j < |entries| ==> entries[j] == entries[1..][j - 1];
        later
      else if pick(entries[0]) then
        assert forall j :: 1 <= j < |entries| ==> entries[j] == entries[1..][j - 1];
        Some(entries[0])
      else
        assert forall j :: 1 <= j < |entries| ==> entries[j] == entries[1..][j - 1];
        None
  }

  /** Selects the entries whose key is the string `key`. */
  function HasKey(key: string): ((Yaml, Yaml)) -> bool
  {
    (entry: (Yaml, Yaml)) => entry.0 == String(key)
  }

  /** The value of the first entry whose key is the string `key`. */
  function FirstValue(entries: seq<(Yaml, Yaml)>, key: string): (r: Option<Yaml>)
    ensures r.Some? ==> exists i :: 0 <= i < |entries| && entries[i] == (String(key), r.value) &&
                          forall j :: 0 <= j < i ==> entries[j].0 != String(key)
    ensures r.None? ==> forall i :: 0 <= i < |entries| ==> entries[i].0 != String(key)
  {
    if |entries| == 0 then None
    else if entries[0].0 == String(key) then Some(entries[0].1)
    else
      var r := FirstValue(entries[1..], key);
      assert forall j :: 1 <= j < |entries| ==> entries[j] == entries[1..][j - 1];
      r
  }

  /**
   * `doc["key"]`: the value stored under the string `key` in a mapping, and `BadValue`
   * for a missing key or a document that is not a mapping. The library's mappings have
   * distinct keys, so the first match is the only one.
   */
  function Get(doc: Yaml, key: string): (r: Yaml)
    ensures !doc.Hash? ==> r == BadValue
    ensures doc.Hash? && (forall i :: 0 <= i < |doc.entries| ==> doc.entries[i].0 != String(key)) ==> r == BadValue
    ensures doc.Hash? ==>
              forall i :: (0 <= i < |doc.entries| && doc.entries[i].0 == String(key) &&
                           forall j :: 0 <= j < i ==> doc.entries[j].0 != String(key)) ==> r == doc.entries[i].1
  {
    if !doc.Hash? then BadValue
    else match FirstValue(doc.entries, key)
      case Some(v) => v
      case None => BadValue
  }
}
