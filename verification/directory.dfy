/**
 * The node's three concurrent maps keyed by string (peer id or remote address).
 * Java gives their iteration order no meaning; the model fixes one, insertion
 * order, so that snapshots such as `new ArrayList<>(map.values())` are
 * deterministic. Every property stated about iteration holds for any order.
 */
module Directory {
  import opened Seqs

  /** A map together with the order in which its keys are visited. */
  datatype Dir<V> = Dir(entries: map<string, V>, order: seq<string>)

  /** The order lists every key exactly once. */
  ghost predicate Valid<V>(d: Dir<V>) {
    Distinct(d.order) && forall k :: k in d.order <==> k in d.entries
  }

  /** An empty map. */
  function Empty<V>(): (d: Dir<V>)
    ensures Valid(d) && d.entries == map[]
  {
    Dir(map[], [])
  }

  /** `put`: binds `k` to `v`; a new key is visited last, an existing one keeps its place. */
  function Put<V>(d: Dir<V>, k: string, v: V): (d': Dir<V>)
    requires Valid(d)
    ensures Valid(d')
    ensures d'.entries == d.entries[k := v]
    ensures k in d.entries ==> d'.order == d.order
  {
    if k in d.entries then d.(entries := d.entries[k := v])
    else
      assert Distinct(d.order + [k]) by {
        forall i, j | 0 <= i < j < |d.order| + 1 ensures (d.order + [k])[i] != (d.order + [k])[j] {
          if j == |d.order| {
            assert d.order[i] in d.order;
          }
        }
      }
      Dir(d.entries[k := v], d.order + [k])
  }

  /** `remove`: drops `k` if present, the other keys keeping their order. */
  function Remove<V>(d: Dir<V>, k: string): (d': Dir<V>)
    requires Valid(d)
    ensures Valid(d')
    ensures d'.entries == d.entries - {k}
  {
    WithoutDistinct(d.order, k);
    forall x ensures x in Without(d.order, k) <==> x in d.order && x != k {
      WithoutMember(d.order, k, x);
    }
    Dir(d.entries - {k}, Without(d.order, k))
  }

  /** `new ArrayList<>(map.values())`: one value per key, duplicates kept. */
  function Values<V>(d: Dir<V>): (vs: seq<V>)
    requires Valid(d)
    ensures |vs| == |d.order|
    ensures forall i :: 0 <= i < |vs| ==> d.order[i] in d.entries && vs[i] == d.entries[d.order[i]]
  {
    seq(|d.order|, i requires 0 <= i < |d.order| => d.entries[d.order[i]])
  }

  /** The snapshot holds the value of every key, and nothing else. */
  lemma ValuesAreTheEntries<V>(d: Dir<V>, v: V)
    requires Valid(d)
    ensures v in Values(d) <==> exists k :: k in d.entries && d.entries[k] == v
  {
    var vs := Values(d);
    if v in vs {
      var i :| 0 <= i < |vs| && vs[i] == v;
      assert d.order[i] in d.entries && d.entries[d.order[i]] == v;
    }
    if exists k :: k in d.entries && d.entries[k] == v {
      var k :| k in d.entries && d.entries[k] == v;
      assert k in d.order;
      var i :| 0 <= i < |d.order| && d.order[i] == k;
      assert vs[i] == v;
    }
  }
}
