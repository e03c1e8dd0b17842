/**
 * The bounded, access-ordered set that suppresses repeated delivery of flooded
 * chat messages (util/LruSet.java). The backing `LinkedHashMap` in access order
 * is modelled by its key sequence, least recently put first.
 */
module LruSet {
  import opened Wrappers
  import opened Seqs

  /** The last `n` elements of `s`, or all of `s` when it is shorter. */
  function Newest<T>(s: seq<T>, n: nat): seq<T> {
    if |s| <= n then s else s[|s| - n..]
  }

  /** The set's state: its capacity and its members from least to most recently put. */
  datatype Lru<T> = Lru(capacity: nat, order: seq<T>)

  /** A reachable state: no duplicates, never more members than the capacity. */
  ghost predicate Valid<T>(s: Lru<T>) {
    Distinct(s.order) && |s.order| <= s.capacity
  }

  /**
   * The constructor. `LinkedHashMap` refuses a negative initial capacity with an
   * exception, so a negative capacity yields no set.
   */
  function New<T>(capacity: int): (r: Option<Lru<T>>)
    ensures r.Some? <==> capacity >= 0
    ensures r.Some? ==> Valid(r.value) && r.value.capacity == capacity && r.value.order == []
  {
    if capacity < 0 then None else Some(Lru(capacity, []))
  }

  /** Membership, as `containsKey` tests it: a pure query that touches no recency. */
  predicate Contains<T(==)>(s: Lru<T>, v: T) {
    v in s.order
  }

  /** Moving `v` to the most recent end keeps a duplicate-free sequence duplicate-free, also without its eldest. */
  lemma DistinctTouch<T>(s: seq<T>, v: T)
    requires Distinct(s)
    ensures Distinct(Without(s, v) + [v])
    ensures |Without(s, v) + [v]| == if v in s then |s| else |s| + 1
  {
    WithoutDistinct(s, v);
    WithoutMember(s, v, v);
    var w := Without(s, v) + [v];
    forall i, j | 0 <= i < j < |w| ensures w[i] != w[j] {
      if j == |w| - 1 {
        assert w[i] in Without(s, v);
      }
    }
  }

  /** Any suffix of a duplicate-free sequence is duplicate-free. */
  lemma DistinctSuffix<T>(s: seq<T>, k: nat)
    requires Distinct(s) && k <= |s|
    ensures Distinct(s[k..])
  {
    var t := s[k..];
    forall i, j | 0 <= i < j < |t| ensures t[i] != t[j] {
      assert t[i] == s[k + i] && t[j] == s[k + j];
    }
  }

  /**
   * `add(v)`: test membership, `put` the value (which makes it the most recent
   * entry), and let `removeEldestEntry` drop the eldest entry when an insertion
   * pushed the size above the capacity. Returns whether `v` was new; the new
   * state keeps the `capacity` newest entries once `v` is moved to the end.
   */
  function Add<T(==)>(s: Lru<T>, v: T): (r: (Lru<T>, bool))
    requires Valid(s)
    ensures Valid(r.0) && r.0.capacity == s.capacity
    ensures r.1 <==> !Contains(s, v)
    ensures r.0.order == Newest(Without(s.order, v) + [v], s.capacity)
  {
    var present := v in s.order;
    var put := Without(s.order, v) + [v];
    var kept := if !present && |put| > s.capacity then put[1..] else put;
    DistinctTouch(s.order, v);
    DistinctSuffix(put, 1);
    (s.(order := kept), !present)
  }

  /** With room for it, an added value is a member afterwards and the most recent one. */
  lemma AddMakesNewest<T>(s: Lru<T>, v: T)
    requires Valid(s) && s.capacity >= 1
    ensures var r := Add(s, v).0; Contains(r, v) && r.order[|r.order| - 1] == v
  {
    var r := Add(s, v).0;
    DistinctTouch(s.order, v);
    assert r.order[|r.order| - 1] == v;
  }

  /** A capacity-zero set stays empty: `removeEldestEntry` drops every insertion at once. */
  lemma AddToZeroCapacity<T>(s: Lru<T>, v: T)
    requires Valid(s) && s.capacity == 0
    ensures Add(s, v).0.order == [] && Add(s, v).1
  {
  }

  /** No value other than the added one ever becomes a member. */
  lemma AddAdmitsOnlyValue<T>(s: Lru<T>, v: T, x: T)
    requires Valid(s) && x != v && Contains(Add(s, v).0, x)
    ensures Contains(s, x)
  {
    var w := Without(s.order, v) + [v];
    var r := Add(s, v).0;
    var i :| 0 <= i < |r.order| && r.order[i] == x;
    assert x == w[|w| - |r.order| + i];
    assert x in Without(s.order, v);
    WithoutMember(s.order, v, x);
  }

  /** Re-adding a member keeps the size and every member; only its recency changes. */
  lemma ReAddKeepsMembers<T>(s: Lru<T>, v: T, x: T)
    requires Valid(s) && Contains(s, v)
    ensures Add(s, v).0.order == Without(s.order, v) + [v]
    ensures |Add(s, v).0.order| == |s.order|
    ensures Contains(Add(s, v).0, x) <==> Contains(s, x)
  {
    DistinctTouch(s.order, v);
    WithoutMember(s.order, v, x);
  }

  /** A new value fits as the newest member while there is room. */
  lemma AddWithRoomAppends<T>(s: Lru<T>, v: T)
    requires Valid(s) && !Contains(s, v) && |s.order| < s.capacity
    ensures Add(s, v).0.order == s.order + [v]
  {
    WithoutAbsent(s.order, v);
  }

  /** A new value added to a full set evicts exactly the eldest member and nothing else. */
  lemma AddToFullEvictsEldest<T>(s: Lru<T>, v: T)
    requires Valid(s) && !Contains(s, v) && |s.order| == s.capacity >= 1
    ensures Add(s, v).0.order == s.order[1..] + [v]
    ensures !Contains(Add(s, v).0, s.order[0])
  {
    WithoutAbsent(s.order, v);
    assert (s.order + [v])[1..] == s.order[1..] + [v];
    forall i | 0 <= i < |s.order[1..]| ensures s.order[1..][i] != s.order[0] {
      assert s.order[1..][i] == s.order[i + 1];
    }
  }

  /** The distinct values of history `h`, ordered by their last occurrence, least recent first. */
  function Recency<T(==)>(h: seq<T>): (r: seq<T>)
    ensures Distinct(r)
  {
    if h == [] then []
    else
      var p, v := h[..|h| - 1], h[|h| - 1];
      DistinctTouch(Recency(p), v);
      Without(Recency(p), v) + [v]
  }

  /** The set reached from `s` by adding the values of `h` in turn. */
  function AddAll<T(==)>(s: Lru<T>, h: seq<T>): (r: Lru<T>)
    requires Valid(s)
    ensures Valid(r) && r.capacity == s.capacity
  {
    if h == [] then s else Add(AddAll(s, h[..|h| - 1]), h[|h| - 1]).0
  }

  /** Keeping the newest `n` of a sequence only looks at a suffix of length at least `n`. */
  lemma NewestOfLongSuffix<T>(w: seq<T>, z: seq<T>, n: nat)
    requires |z| >= n
    ensures Newest(w + z, n) == Newest(z, n)
  {
    assert (w + z)[|w + z| - n..] == z[|z| - n..];
  }

  /** Trimming to the newest `n` before a touch of `v` gives the same result as trimming after it. */
  lemma NewestAfterTouch<T>(s: seq<T>, v: T, n: nat)
    requires Distinct(s)
    ensures Newest(Without(Newest(s, n), v) + [v], n) == Newest(Without(s, v) + [v], n)
  {
    if |s| > n {
      var pre, suf := s[..|s| - n], s[|s| - n..];
      assert s == pre + suf;
      DistinctSuffix(s, |s| - n);
      WithoutDistinct(suf, v);
      WithoutConcat(pre, suf, v);
      var ws := Without(suf, v) + [v];
      assert Without(s, v) + [v] == Without(pre, v) + ws;
      NewestOfLongSuffix(Without(pre, v), ws, n);
    }
  }

  /**
   * Whatever the history, the set holds exactly the `capacity` most recently
   * added distinct values, least recent first: true LRU, not insertion-order FIFO.
   */
  lemma {:induction false} AddAllKeepsNewest<T>(capacity: nat, h: seq<T>)
    ensures AddAll(Lru(capacity, []), h).order == Newest(Recency(h), capacity)
  {
    if h != [] {
      var p, v := h[..|h| - 1], h[|h| - 1];
      AddAllKeepsNewest(capacity, p);
      NewestAfterTouch(Recency(p), v, capacity);
    }
  }

  /**
   * The dedup guarantee: after history `h`, `add(v)` reports `v` as already seen
   * exactly when it is among the `capacity` most recently added distinct values.
   */
  lemma DedupWindow<T>(capacity: nat, h: seq<T>, v: T)
    ensures !Add(AddAll(Lru(capacity, []), h), v).1 <==> v in Newest(Recency(h), capacity)
  {
    AddAllKeepsNewest(capacity, h);
  }

  /** A history without repeats is its own recency order. */
  lemma {:induction false} RecencyOfDistinct<T>(h: seq<T>)
    requires Distinct(h)
    ensures Recency(h) == h
  {
    if h != [] {
      var p, v := h[..|h| - 1], h[|h| - 1];
      assert h == p + [v];
      assert Distinct(p) by {
        forall i, j | 0 <= i < j < |p| ensures p[i] != p[j] {
          assert p[i] == h[i] && p[j] == h[j];
        }
      }
      assert v !in p by {
        forall i | 0 <= i < |p| ensures p[i] != v {
          assert p[i] == h[i];
        }
      }
      RecencyOfDistinct(p);
      WithoutAbsent(p, v);
    }
  }

  /** After `capacity + 1` adds of distinct values to an empty set, the first one is gone. */
  lemma CapacityPlusOneEvictsFirst<T>(capacity: nat, h: seq<T>)
    requires Distinct(h) && |h| == capacity + 1
    ensures !Contains(AddAll(Lru(capacity, []), h), h[0])
  {
    AddAllKeepsNewest(capacity, h);
    RecencyOfDistinct(h);
    assert Newest(h, capacity) == h[1..];
    forall i | 0 <= i < |h[1..]| ensures h[1..][i] != h[0] {
      assert h[1..][i] == h[i + 1];
    }
  }

  /** An element of a suffix no longer than `n` is among the newest `n`. */
  lemma ShortSuffixIsNewest<T>(a: seq<T>, b: seq<T>, v: T, n: nat)
    requires |b| <= n && v in b
    ensures v in Newest(a + b, n)
  {
    var j :| 0 <= j < |b| && b[j] == v;
    var t := Newest(a + b, n);
    assert (a + b)[|a| + j] == v;
    assert t[|t| - |b| + j] == v;
  }

  /** Keeping more of the newest elements keeps everything kept before. */
  lemma NewestMonotone<T>(s: seq<T>, v: T, m: nat, n: nat)
    requires m <= n && v in Newest(s, m)
    ensures v in Newest(s, n)
  {
    var k := |s| - |Newest(s, m)|;
    assert s == s[..k] + Newest(s, m);
    ShortSuffixIsNewest(s[..k], Newest(s, m), v, n);
  }

  /** Touching another value `y` ages `v` by at most one position. */
  lemma TouchAgesByOne<T>(x: seq<T>, y: T, v: T, n: nat)
    requires v != y && v in Newest(x, n)
    ensures v in Newest(Without(x, y) + [y], n + 1)
  {
    var k := if |x| <= n then 0 else |x| - n;
    var pre, suf := x[..k], x[k..];
    assert x == pre + suf;
    WithoutConcat(pre, suf, y);
    var ws := Without(suf, y);
    WithoutMember(suf, y, v);
    assert Without(x, y) + [y] == Without(pre, y) + (ws + [y]);
    ShortSuffixIsNewest(Without(pre, y), ws + [y], v, n + 1);
  }

  /** A value added at most `|q|` adds ago is among the `|q| + 1` newest. */
  lemma {:induction false} RecentStaysNewest<T>(h: seq<T>, v: T, q: seq<T>)
    ensures v in Newest(Recency(h + [v] + q), |q| + 1)
  {
    if q == [] {
      assert h + [v] + q == h + [v];
      assert (h + [v])[..|h + [v]| - 1] == h;
      var r := Recency(h + [v]);
      ShortSuffixIsNewest(Without(Recency(h), v), [v], v, 1);
    } else {
      var q', y := q[..|q| - 1], q[|q| - 1];
      var whole := h + [v] + q;
      assert whole == (h + [v] + q') + [y];
      assert whole[..|whole| - 1] == h + [v] + q';
      RecentStaysNewest(h, v, q');
      var x := Recency(h + [v] + q');
      assert Recency(whole) == Without(x, y) + [y];
      if y == v {
        ShortSuffixIsNewest(Without(x, y), [y], v, |q| + 1);
      } else {
        TouchAgesByOne(x, y, v, |q'| + 1);
      }
    }
  }

  /**
   * A second `add(v)` returns false as long as fewer than `capacity` adds
   * happened since the first: such a value cannot have been evicted yet.
   */
  lemma SeenWithinCapacity<T>(capacity: nat, h: seq<T>, v: T, q: seq<T>)
    requires |q| < capacity
    ensures !Add(AddAll(Lru(capacity, []), h + [v] + q), v).1
  {
    RecentStaysNewest(h, v, q);
    NewestMonotone(Recency(h + [v] + q), v, |q| + 1, capacity);
    AddAllKeepsNewest(capacity, h + [v] + q);
  }
}
