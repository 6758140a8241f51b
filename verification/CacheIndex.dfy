/** Index sets as values: what one SADD, or the removal of several keys, does to all of them. */
module CacheIndex {
  import opened CacheKeys

  type Index = map<string, set<string>>

  function Members(index: Index, name: string): set<string> {
    if name in index then index[name] else {}
  }

  function Added(index: Index, names: seq<string>, key: string): (r: Index)
    ensures forall n :: Members(r, n) == if n in names then Members(index, n) + {key} else Members(index, n)
    ensures r.Keys == index.Keys + set n | n in names
    decreases |names|
  {
    if names == [] then index
    else Added(index[names[0] := Members(index, names[0]) + {key}], names[1..], key)
  }

  function Unindexed(prefix: string, index: Index, keys: set<string>): (r: Index)
    ensures forall n, k :: k in Members(r, n) <==> k in Members(index, n) && !(k in keys && n in IndexNames(prefix, k))
    ensures r.Keys == index.Keys
  {
    map n | n in index :: set k | k in index[n] && !(k in keys && n in IndexNames(prefix, k))
  }
}
