/** Python's `dict` (and `defaultdict`) with string keys, as a value: its keys in
    insertion order together with the value of each key. Assigning to an existing
    key keeps its position; a new key goes last. */
module PyDict {

  datatype Entries<V> = Entries(keys: seq<string>, vals: map<string, V>)

  ghost predicate Distinct(s: seq<string>)
  {
    forall i, j :: 0 <= i < j < |s| ==> s[i] != s[j]
  }

  ghost predicate IsDict<V>(d: Entries<V>)
  {
    Distinct(d.keys) && forall k :: k in d.vals <==> k in d.keys
  }

  /** Every dict the programs build or receive: each key listed once, and exactly the keys of the map. */
  type Dict<V> = d: Entries<V> | IsDict(d) witness Entries([], map[])

  function Empty<V>(): (r: Dict<V>)
    ensures r.keys == [] && r.vals == map[]
  {
    Entries([], map[])
  }

  /** `d.get(k, default)`, which is also what a `defaultdict` hands out for a missing key. */
  function GetOr<V>(d: Dict<V>, k: string, default: V): V
  {
    if k in d.vals then d.vals[k] else default
  }

  /** `d[k] = v`. */
  function Put<V>(d: Dict<V>, k: string, v: V): (r: Dict<V>)
    ensures r.vals == d.vals[k := v]
    ensures r.keys == if k in d.vals then d.keys else d.keys + [k]
  {
    if k in d.vals then Entries(d.keys, d.vals[k := v])
    else
      assert Distinct(d.keys + [k]) by {
        forall i, j | 0 <= i < j < |d.keys| + 1 ensures (d.keys + [k])[i] != (d.keys + [k])[j] {
          if j == |d.keys| { assert d.keys[i] in d.keys; }
        }
      }
      Entries(d.keys + [k], d.vals[k := v])
  }

  /** Assigning a key twice leaves the dict as the second assignment alone does. */
  lemma PutTwice<V>(d: Dict<V>, k: string, v: V, w: V)
    ensures Put(Put(d, k, v), k, w) == Put(d, k, w)
  {
  }

  /** Counting one more occurrence of `k` in a `defaultdict(int)`. */
  function Increment(d: Dict<nat>, k: string): Dict<nat>
  {
    Put(d, k, GetOr(d, k, 0) + 1)
  }

  /** Appending `x` to the list of `k` in a `defaultdict(list)`. */
  function AppendTo<T>(d: Dict<seq<T>>, k: string, x: T): Dict<seq<T>>
  {
    Put(d, k, GetOr(d, k, []) + [x])
  }

  /** The keys of `s` in the order of their first occurrence: the key order of a
      dict into which the keys of `s` are assigned one after the other. */
  function Dedup(s: seq<string>): (r: seq<string>)
    ensures forall x :: x in r <==> x in s
    ensures Distinct(r)
  {
    if s == [] then []
    else
      var p := Dedup(s[..|s| - 1]);
      var x := s[|s| - 1];
      assert s == s[..|s| - 1] + [x];
      if x in s[..|s| - 1] then p
      else
        assert Distinct(p + [x]) by {
          forall i, j | 0 <= i < j < |p| + 1 ensures (p + [x])[i] != (p + [x])[j] {
            if j == |p| { assert p[i] in p; }
          }
        }
        p + [x]
  }

  lemma {:induction false} DedupOfDistinct(s: seq<string>)
    requires Distinct(s)
    ensures Dedup(s) == s
  {
    if s != [] {
      var x := s[|s| - 1];
      LastIsNew(s);
      DedupOfDistinct(s[..|s| - 1]);
      assert s == s[..|s| - 1] + [x];
    }
  }

  /** In a sequence without repetitions the last element does not occur before. */
  lemma LastIsNew(s: seq<string>)
    requires Distinct(s) && s != []
    ensures Distinct(s[..|s| - 1]) && s[|s| - 1] !in s[..|s| - 1]
  {
    assert forall i :: 0 <= i < |s| - 1 ==> s[..|s| - 1][i] == s[i];
  }

  /** Counting one more occurrence of a key: its count, zero when missing, goes up
      by one, a new key goes last, and every other count stays. */
  lemma IncrementAt(d: Dict<nat>, k: string, j: string)
    ensures GetOr(Increment(d, k), j, 0) == GetOr(d, j, 0) + (if j == k then 1 else 0)
    ensures Increment(d, k).keys == if k in d.vals then d.keys else d.keys + [k]
  {
  }

  /** Dedup of an extended sequence: the new element is added only when not yet seen. */
  lemma DedupSnoc(s: seq<string>, x: string)
    ensures Dedup(s + [x]) == if x in s then Dedup(s) else Dedup(s) + [x]
  {
    assert (s + [x])[..|s + [x]| - 1] == s;
  }

  /** Appending each score to the list of its key, after the first `n` scores. */
  function AppendFirst<T>(d: Dict<seq<T>>, scores: Dict<T>, n: nat): Dict<seq<T>>
    requires n <= |scores.keys|
  {
    if n == 0 then d
    else
      var k := scores.keys[n - 1];
      AppendTo(AppendFirst(d, scores, n - 1), k, scores.vals[k])
  }

  /** Appending to the list of a key keeps the key order of assigning the keys seen so far and then that key. */
  lemma AppendToKeys<T>(p: Dict<seq<T>>, seen: seq<string>, k: string, x: T)
    requires p.keys == Dedup(seen)
    ensures AppendTo(p, k, x).keys == Dedup(seen + [k])
  {
    assert (k in p.vals) == (k in seen);
    DedupSnoc(seen, k);
  }

  /** A prefix one longer is the shorter prefix and one more element. */
  lemma PrefixSnoc(a: seq<string>, s: seq<string>, n: nat)
    requires 0 < n <= |s|
    ensures a + s[..n] == (a + s[..n - 1]) + [s[n - 1]]
  {
    assert s[..n] == s[..n - 1] + [s[n - 1]];
  }

  lemma {:induction false} AppendFirstKeys<T>(d: Dict<seq<T>>, scores: Dict<T>, n: nat)
    requires n <= |scores.keys|
    ensures AppendFirst(d, scores, n).keys == Dedup(d.keys + scores.keys[..n])
  {
    if n == 0 {
      assert d.keys + scores.keys[..0] == d.keys;
      DedupOfDistinct(d.keys);
    } else {
      var k := scores.keys[n - 1];
      var seen := d.keys + scores.keys[..n - 1];
      AppendFirstKeys(d, scores, n - 1);
      AppendToKeys(AppendFirst(d, scores, n - 1), seen, k, scores.vals[k]);
      PrefixSnoc(d.keys, scores.keys, n);
    }
  }

  /** Appending to the list of one key: that list, empty when missing, gains the
      value at its end, a new key goes last, and every other list stays. */
  lemma AppendToAt<T>(p: Dict<seq<T>>, last: string, x: T, k: string)
    ensures GetOr(AppendTo(p, last, x), k, []) == GetOr(p, k, []) + (if k == last then [x] else [])
    ensures AppendTo(p, last, x).keys == if last in p.vals then p.keys else p.keys + [last]
  {
  }

  /** Membership in a prefix one longer; in a sequence without repetitions its last element is new. */
  lemma InPrefix(s: seq<string>, n: nat, k: string)
    requires 0 < n <= |s| && Distinct(s)
    ensures (k in s[..n]) == (k in s[..n - 1] || k == s[n - 1])
    ensures s[n - 1] !in s[..n - 1]
  {
    assert s[..n] == s[..n - 1] + [s[n - 1]];
  }

  lemma {:induction false} AppendFirstAt<T>(d: Dict<seq<T>>, scores: Dict<T>, n: nat, k: string)
    requires n <= |scores.keys|
    ensures GetOr(AppendFirst(d, scores, n), k, [])
         == GetOr(d, k, []) + (if k in scores.keys[..n] then [scores.vals[k]] else [])
  {
    if n > 0 {
      AppendFirstAt(d, scores, n - 1, k);
      AppendFirstNext(d, scores, n, k);
      InPrefix(scores.keys, n, k);
      var x := scores.vals[scores.keys[n - 1]];
      ExtendOnce(GetOr(AppendFirst(d, scores, n), k, []), GetOr(AppendFirst(d, scores, n - 1), k, []),
        GetOr(d, k, []), if k in scores.vals then scores.vals[k] else x, x,
        k in scores.keys[..n - 1], k in scores.keys[..n], k == scores.keys[n - 1]);
    }
  }

  /** One more round appends the next score to the list of its key alone. */
  lemma AppendFirstNext<T>(d: Dict<seq<T>>, scores: Dict<T>, n: nat, k: string)
    requires 0 < n <= |scores.keys|
    ensures var last := scores.keys[n - 1];
      GetOr(AppendFirst(d, scores, n), k, [])
      == GetOr(AppendFirst(d, scores, n - 1), k, []) + (if k == last then [scores.vals[last]] else [])
  {
    var last := scores.keys[n - 1];
    var p := AppendFirst(d, scores, n - 1);
    assert AppendFirst(d, scores, n) == AppendTo(p, last, scores.vals[last]);
    AppendToAt(p, last, scores.vals[last], k);
  }

  /** The bookkeeping of one more round: a key seen now was seen before or is the
      key of this round, never both, and its list holds its one score. */
  lemma ExtendOnce<T>(now: seq<T>, mid: seq<T>, base: seq<T>, v: T, x: T, seenBefore: bool, seenNow: bool, isLast: bool)
    requires mid == base + (if seenBefore then [v] else [])
    requires now == mid + (if isLast then [x] else [])
    requires seenNow == (seenBefore || isLast)
    requires isLast ==> !seenBefore && v == x
    ensures now == base + (if seenNow then [v] else [])
  {
  }

  /** Appending each score to the list of its key: one more element in the list of
      every key of `scores`, new keys last in the order of `scores`, nothing else changed. */
  function AppendScores<T>(d: Dict<seq<T>>, scores: Dict<T>): (r: Dict<seq<T>>)
    ensures r.keys == Dedup(d.keys + scores.keys)
    ensures forall k :: GetOr(r, k, []) == GetOr(d, k, []) + (if k in scores.vals then [scores.vals[k]] else [])
  {
    var n := |scores.keys|;
    assert scores.keys[..n] == scores.keys;
    AppendFirstKeys(d, scores, n);
    assert forall k :: GetOr(AppendFirst(d, scores, n), k, [])
                    == GetOr(d, k, []) + (if k in scores.vals then [scores.vals[k]] else []) by {
      forall k ensures GetOr(AppendFirst(d, scores, n), k, [])
                    == GetOr(d, k, []) + (if k in scores.vals then [scores.vals[k]] else []) {
        AppendFirstAt(d, scores, n, k);
      }
    }
    AppendFirst(d, scores, n)
  }

  /** Appending each score of a dict to the list of its key in a `defaultdict(list)`. */
  method AppendEach<T>(d: Dict<seq<T>>, scores: Dict<T>) returns (r: Dict<seq<T>>)
    ensures r == AppendScores(d, scores)
  {
    r := d;
    for i := 0 to |scores.keys|
      invariant r == AppendFirst(d, scores, i)
    {
      var k := scores.keys[i];
      assert AppendFirst(d, scores, i + 1) == AppendTo(r, k, scores.vals[k]);
      r := AppendTo(r, k, scores.vals[k]);
    }
    assert scores.keys[..|scores.keys|] == scores.keys;
  }

  /** The sum of the values of a `defaultdict(int)`, in key order. */
  function SumOver(ks: seq<string>, m: map<string, nat>): nat
    requires forall k :: k in ks ==> k in m
  {
    if ks == [] then 0 else SumOver(ks[..|ks| - 1], m) + m[ks[|ks| - 1]]
  }

  function SumValues(d: Dict<nat>): nat
  {
    SumOver(d.keys, d.vals)
  }

  lemma {:induction false} SumOverUnaffected(ks: seq<string>, m: map<string, nat>, k: string, v: nat)
    requires forall j :: j in ks ==> j in m
    requires k !in ks
    ensures SumOver(ks, m[k := v]) == SumOver(ks, m)
  {
    if ks != [] {
      assert forall i :: 0 <= i < |ks| - 1 ==> ks[..|ks| - 1][i] == ks[i];
      SumOverUnaffected(ks[..|ks| - 1], m, k, v);
    }
  }

  lemma {:induction false} SumOverBump(ks: seq<string>, m: map<string, nat>, k: string)
    requires forall j :: j in ks ==> j in m
    requires Distinct(ks) && k in ks
    ensures SumOver(ks, m[k := m[k] + 1]) == SumOver(ks, m) + 1
  {
    var n := |ks|;
    var last := ks[n - 1];
    var init := ks[..n - 1];
    assert ks == init + [last];
    LastIsNew(ks);
    if last == k {
      SumOverUnaffected(init, m, k, m[k] + 1);
    } else {
      assert k in init;
      SumOverBump(init, m, k);
    }
  }

  /** Counting one more occurrence raises the sum of the counts by exactly one. */
  lemma IncrementSum(d: Dict<nat>, k: string)
    ensures SumValues(Increment(d, k)) == SumValues(d) + 1
  {
    if k in d.vals {
      SumOverBump(d.keys, d.vals, k);
    } else {
      var ks := d.keys + [k];
      assert ks[..|ks| - 1] == d.keys;
      SumOverUnaffected(d.keys, d.vals, k, 1);
    }
  }

  /** Deduplicating in two steps is deduplicating once. */
  lemma {:induction false} DedupAppend(s: seq<string>, u: seq<string>)
    ensures Dedup(Dedup(s) + u) == Dedup(s + u)
  {
    if u == [] {
      assert Dedup(s) + u == Dedup(s) && s + u == s;
      DedupOfDistinct(Dedup(s));
    } else {
      var init, x := u[..|u| - 1], u[|u| - 1];
      assert Dedup(Dedup(s) + u) == Dedup((Dedup(s) + init) + [x]) by {
        assert Dedup(s) + u == (Dedup(s) + init) + [x];
      }
      assert Dedup(s + u) == Dedup((s + init) + [x]) by {
        assert s + u == (s + init) + [x];
      }
      DedupAppend(s, init);
      DedupSnoc(Dedup(s) + init, x);
      DedupSnoc(s + init, x);
    }
  }
}
