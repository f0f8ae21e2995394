/**
 * The memo table behind `functools.lru_cache`: a map from argument keys to
 * returned values, bounded by `maxsize` (`None` for unbounded, a value not
 * above 0 for "no caching"). Exceptions are never remembered. When the table
 * is full, one entry is evicted; which one (least recently used in Python) is
 * not modelled.
 */
module Memo {
  import opened Wrappers

  class LruMemo<K(==), V> {
    var table: map<K, V>
    const maxsize: Option<int>

    /** How many entries may be kept: `None` is unbounded. */
    function Capacity(): (c: Option<nat>)
      ensures maxsize.None? <==> c.None?
      ensures maxsize.Some? && maxsize.value >= 0 ==> c == Some(maxsize.value)
      ensures maxsize.Some? && maxsize.value < 0 ==> c == Some(0)
    {
      match maxsize
      case None => None
      case Some(n) => Some(if n < 0 then 0 else n)
    }

    ghost predicate Valid()
      reads this
    {
      Capacity().Some? ==> |table| <= Capacity().value
    }

    constructor (maxsize: Option<int>)
      ensures Valid()
      ensures this.maxsize == maxsize && table == map[]
    {
      this.maxsize := maxsize;
      table := map[];
    }

    /** A hit returns the remembered value; a miss returns `None`. */
    method Lookup(key: K) returns (r: Option<V>)
      ensures key in table ==> r == Some(table[key])
      ensures key !in table ==> r == None
    {
      if key in table {
        r := Some(table[key]);
      } else {
        r := None;
      }
    }

    /** Remember the value just computed for a missed key. */
    method Remember(key: K, value: V)
      requires Valid() && key !in table
      modifies this
      ensures Valid()
      ensures Capacity() == Some(0) ==> table == old(table)
      ensures Capacity() != Some(0) ==> key in table && table[key] == value
      ensures Capacity().None? ==> table == old(table)[key := value]
      ensures Capacity().Some? && |old(table)| < Capacity().value ==> table == old(table)[key := value]
      ensures forall k :: k in table && k != key ==> k in old(table) && table[k] == old(table)[k]
      ensures Capacity() != Some(0) ==> |table| >= |old(table)|
    {
      match Capacity()
      case None =>
        table := table[key := value];
      case Some(n) =>
        if n == 0 {
          return;
        }
        if |table| == n {
          var victim :| victim in table;
          var rest := table - {victim};
          assert rest.Keys == table.Keys - {victim};
          table := rest;
        }
        table := table[key := value];
    }
  }
}
