/**
 * An ordered map with 32-bit unsigned keys, standing for the `std::map<uint32_t, V>`
 * that holds a track's keyframes. It is kept as the sequence of its entries in
 * strictly ascending key order, which is the order in which a `std::map` is
 * iterated. `Insert` is `std::map::insert` (an existing key keeps its value),
 * `Assign` is assignment through `std::map::at` on a key that is present.
 */
module FrameMap {
  import opened Bits
  import opened Wrappers

  datatype Entry<V> = Entry(key: u32, value: V)

  /** Keys strictly ascending, hence also pairwise distinct. */
  ghost predicate Sorted<V>(es: seq<Entry<V>>)
  {
    forall i, j :: 0 <= i < j < |es| ==> es[i].key < es[j].key
  }

  function KeySet<V>(es: seq<Entry<V>>): set<int>
  {
    set i | 0 <= i < |es| :: es[i].key
  }

  lemma KeySetCons<V>(e: Entry<V>, es: seq<Entry<V>>)
    ensures KeySet([e] + es) == {e.key} + KeySet(es)
  {
    var s := [e] + es;
    assert s[0] == e;
    forall k | k in KeySet(es) ensures k in KeySet(s) {
      var i :| 0 <= i < |es| && es[i].key == k;
      assert s[i + 1] == es[i];
    }
    forall k | k in KeySet(s) ensures k in {e.key} + KeySet(es) {
      var i :| 0 <= i < |s| && s[i].key == k;
      if i > 0 { assert es[i - 1] == s[i]; }
    }
  }

  /** In a sorted map the first entry has the least key. */
  lemma SortedHead<V>(es: seq<Entry<V>>, k: int)
    requires Sorted(es) && es != [] && k in KeySet(es)
    ensures es[0].key <= k
  {
  }

  /** The value stored under `k`, if any. */
  function Lookup<V>(es: seq<Entry<V>>, k: int): (r: Option<V>)
    ensures r.Some? <==> k in KeySet(es)
    ensures r.Some? ==> exists i :: 0 <= i < |es| && es[i].key == k && es[i].value == r.value
  {
    if es == [] then None
    else if es[0].key == k then Some(es[0].value)
    else
      KeySetCons(es[0], es[1..]);
      assert es == [es[0]] + es[1..];
      Lookup(es[1..], k)
  }

  /** In a sorted map, the entry at index `i` is what Lookup finds under its key. */
  lemma {:induction false} LookupAt<V>(es: seq<Entry<V>>, i: nat)
    requires Sorted(es) && i < |es|
    ensures Lookup(es, es[i].key) == Some(es[i].value)
  {
    if i > 0 {
      LookupAt(es[1..], i - 1);
    }
  }

  /** `std::map::insert`: adds `k |-> v` unless `k` is already a key. */
  function Insert<V>(es: seq<Entry<V>>, k: u32, v: V): (r: seq<Entry<V>>)
    requires Sorted(es)
    ensures Sorted(r)
    ensures r != [] && (r[0].key == k || (es != [] && r[0].key == es[0].key))
  {
    if es == [] then [Entry(k, v)]
    else if k < es[0].key then [Entry(k, v)] + es
    else if k == es[0].key then es
    else
      var rest := Insert(es[1..], k, v);
      [es[0]] + rest
  }

  /** Insert adds `k` to the keys and nothing else. */
  lemma {:induction false} InsertKeys<V>(es: seq<Entry<V>>, k: u32, v: V)
    requires Sorted(es)
    ensures KeySet(Insert(es, k, v)) == KeySet(es) + {k}
  {
    KeySetCons(Entry(k, v), es);
    if es != [] && k > es[0].key {
      InsertKeys(es[1..], k, v);
      KeySetCons(es[0], es[1..]);
      KeySetCons(es[0], Insert(es[1..], k, v));
      assert es == [es[0]] + es[1..];
    } else if es != [] && k < es[0].key {
      assert [Entry(k, v)][0].key == k;
    }
  }

  /** Insert adds exactly one entry when the key is new and none otherwise. */
  lemma {:induction false} InsertLength<V>(es: seq<Entry<V>>, k: u32, v: V)
    requires Sorted(es)
    ensures |Insert(es, k, v)| == if k in KeySet(es) then |es| else |es| + 1
  {
    if es != [] {
      KeySetCons(es[0], es[1..]);
      assert es == [es[0]] + es[1..];
      if k < es[0].key {
        if k in KeySet(es) { SortedHead(es, k); }
      } else if k > es[0].key {
        InsertLength(es[1..], k, v);
      }
    }
  }

  /**
   * After an insert, the key holds the new value if it was absent and its old
   * value if it was present; every other key keeps what it had.
   */
  lemma {:induction false} InsertLookup<V>(es: seq<Entry<V>>, k: u32, v: V, j: int)
    requires Sorted(es)
    ensures Lookup(Insert(es, k, v), j) == if j == k && k !in KeySet(es) then Some(v) else Lookup(es, j)
  {
    if es != [] {
      KeySetCons(es[0], es[1..]);
      assert es == [es[0]] + es[1..];
      if k < es[0].key {
        if k in KeySet(es) { SortedHead(es, k); }
        assert ([Entry(k, v)] + es)[1..] == es;
      } else if k > es[0].key {
        InsertLookup(es[1..], k, v, j);
        assert ([es[0]] + Insert(es[1..], k, v))[1..] == Insert(es[1..], k, v);
      }
    }
  }

  /** Assignment to the value of an existing key (`at(k) = v`); the keys do not change. */
  function Assign<V>(es: seq<Entry<V>>, k: u32, v: V): (r: seq<Entry<V>>)
    requires Sorted(es)
    ensures Sorted(r)
    ensures |r| == |es| && forall i :: 0 <= i < |es| ==> r[i].key == es[i].key
    ensures KeySet(r) == KeySet(es)
  {
    if es == [] then []
    else if es[0].key == k then [Entry(k, v)] + es[1..]
    else
      var rest := Assign(es[1..], k, v);
      [es[0]] + rest
  }

  /** After an assignment the key holds the new value, if it was a key; other keys are untouched. */
  lemma {:induction false} AssignLookup<V>(es: seq<Entry<V>>, k: u32, v: V, j: int)
    requires Sorted(es)
    ensures Lookup(Assign(es, k, v), j) == if j == k && k in KeySet(es) then Some(v) else Lookup(es, j)
  {
    if es != [] {
      KeySetCons(es[0], es[1..]);
      assert es == [es[0]] + es[1..];
      if es[0].key == k {
        assert ([Entry(k, v)] + es[1..])[1..] == es[1..];
      } else {
        AssignLookup(es[1..], k, v, j);
        assert ([es[0]] + Assign(es[1..], k, v))[1..] == Assign(es[1..], k, v);
      }
    }
  }
}
