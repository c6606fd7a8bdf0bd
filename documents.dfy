/** Loaded documents: what `json.loads` and `yaml.safe_load` hand to the code,
    as a tree of null, booleans, integers, strings, lists and mappings. A mapping
    keeps its entries in document (insertion) order; the source's dictionaries
    never repeat a key, and lookups here take the first entry with the key. */
module Documents {
  import opened Outcomes

  datatype Doc =
    | Null
    | Bool(b: bool)
    | Int(i: int)
    | Str(s: string)
    | List(items: seq<Doc>)
    | Mapping(entries: seq<Entry>)

  datatype Entry = Entry(key: string, value: Doc)

  /** The keys of a mapping, in document order (`d.keys()`). */
  function Keys(entries: seq<Entry>): seq<string> {
    seq(|entries|, i requires 0 <= i < |entries| => entries[i].key)
  }

  /** The value of the first entry with `key`. */
  function GetIn(entries: seq<Entry>, key: string): (r: Option<Doc>)
    ensures r.Some? <==> key in Keys(entries)
  {
    if entries == [] then None
    else if entries[0].key == key then
      assert Keys(entries)[0] == key;
      Some(entries[0].value)
    else
      var r := GetIn(entries[1..], key);
      assert Keys(entries) == [entries[0].key] + Keys(entries[1..]);
      r
  }

  /** `d.get(key)` on a mapping; `None` for a missing key or when `d` is not a mapping. */
  function Get(d: Doc, key: string): Option<Doc> {
    if d.Mapping? then GetIn(d.entries, key) else None
  }

  /** A loaded document holds each key of a mapping once, as a Python dictionary does. */
  predicate DistinctKeys(entries: seq<Entry>) {
    forall i, j :: 0 <= i < j < |entries| ==> entries[i].key != entries[j].key
  }

  /** With distinct keys, looking a key up answers the value of the one entry
      that holds it. */
  lemma {:induction false} GetInFindsEntry(entries: seq<Entry>, i: nat)
    requires DistinctKeys(entries) && i < |entries|
    ensures GetIn(entries, entries[i].key) == Some(entries[i].value)
  {
    if i > 0 {
      assert entries[0].key != entries[i].key;
      assert DistinctKeys(entries[1..]) by {
        forall a, b | 0 <= a < b < |entries[1..]| ensures entries[1..][a].key != entries[1..][b].key {
          assert entries[1..][a] == entries[a + 1] && entries[1..][b] == entries[b + 1];
        }
      }
      GetInFindsEntry(entries[1..], i - 1);
      assert entries[1..][i - 1] == entries[i];
    }
  }

  /** A JMESPath field expression: the value under `key`, or null when `d` is not
      an object or has no such key. */
  function Field(d: Doc, key: string): Doc {
    Get(d, key).GetOr(Null)
  }

  /** A dotted JMESPath path such as `stats.localhost.changed`. */
  function Lookup(d: Doc, path: seq<string>): Doc
    decreases |path|
  {
    if path == [] then d else Lookup(Field(d, path[0]), path[1..])
  }
}
