/**
 * Structured documents as the storage layer sees them (BSON / Python dicts).
 * An object keeps its fields in insertion order, which is the order in which
 * Python iterates a dict; a key is looked up at its first occurrence.
 */
module Documents {
  import opened Wrappers

  datatype Json =
    | JNull
    | JBool(b: bool)
    | JInt(i: int)
    | JStr(s: string)
    | JArr(items: seq<Json>)
    | JObj(fields: seq<(string, Json)>)

  /** `d[k]`: the value at the first field named `k`, if any. */
  function Get(d: seq<(string, Json)>, k: string): (r: Option<Json>)
    ensures r.Some? <==> exists i :: 0 <= i < |d| && d[i].0 == k
  {
    if d == [] then None
    else if d[0].0 == k then Some(d[0].1)
    else Get(d[1..], k)
  }

  /** `d[k] = v`: overwrite the first field named `k` in place, or append a new field. */
  function Put(d: seq<(string, Json)>, k: string, v: Json): (r: seq<(string, Json)>)
    ensures Get(r, k) == Some(v)
    ensures forall k' :: k' != k ==> Get(r, k') == Get(d, k')
  {
    if d == [] then [(k, v)]
    else if d[0].0 == k then [(k, v)] + d[1..]
    else [d[0]] + Put(d[1..], k, v)
  }

  /** `del d[k]`: remove the field named `k`. */
  function Del(d: seq<(string, Json)>, k: string): (r: seq<(string, Json)>)
    ensures Get(r, k) == None
    ensures forall k' :: k' != k ==> Get(r, k') == Get(d, k')
  {
    if d == [] then []
    else if d[0].0 == k then Del(d[1..], k)
    else [d[0]] + Del(d[1..], k)
  }

  /** Python dict equality: the same value under every key, whatever the order. */
  ghost predicate SameDict(a: seq<(string, Json)>, b: seq<(string, Json)>) {
    forall k :: Get(a, k) == Get(b, k)
  }

  /** Overwriting a field with the value it already holds changes nothing. */
  lemma {:induction false} PutSameValue(d: seq<(string, Json)>, k: string, v: Json)
    requires Get(d, k) == Some(v)
    ensures Put(d, k, v) == d
  {
    if d != [] && d[0].0 != k {
      PutSameValue(d[1..], k, v);
    }
  }

  /** A second overwrite of the same key wins over the first. */
  lemma {:induction false} PutPut(d: seq<(string, Json)>, k: string, v: Json, w: Json)
    ensures Put(Put(d, k, v), k, w) == Put(d, k, w)
  {
    if d != [] && d[0].0 != k {
      PutPut(d[1..], k, v, w);
    }
  }
}
