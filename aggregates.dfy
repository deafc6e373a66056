/** The reductions the reports are built from: `np.mean` over a score list, taken
    as an exact quotient of reals, and Python's `max(..., key=...)`, which scans
    left to right and keeps the first element whose key is largest. */
module Aggregates {
  import opened PyDict

  function Sum(xs: seq<real>): real
  {
    if xs == [] then 0.0 else Sum(xs[..|xs| - 1]) + xs[|xs| - 1]
  }

  /** The mean of a non-empty list of scores: it lies between the smallest and
      the largest score of the list. */
  function Mean(xs: seq<real>): (r: real)
    requires |xs| > 0
    ensures exists i :: 0 <= i < |xs| && xs[i] <= r
    ensures exists i :: 0 <= i < |xs| && r <= xs[i]
  {
    QuotientBetween(xs);
    Sum(xs) / |xs| as real
  }

  /** The sum of a non-empty list shared out over its length lies between its
      smallest and its largest element. */
  lemma QuotientBetween(xs: seq<real>)
    requires |xs| > 0
    ensures exists i :: 0 <= i < |xs| && xs[i] <= Sum(xs) / |xs| as real
    ensures exists i :: 0 <= i < |xs| && Sum(xs) / |xs| as real <= xs[i]
  {
    var hi := FirstMaxIndex(xs);
    var lo := MinIndex(xs);
    SharedOutBounds(xs, xs[lo], xs[hi]);
  }

  /** The sum of a non-empty list of values in [lo, hi], shared out over its
      length, lies in [lo, hi]. */
  lemma SharedOutBounds(xs: seq<real>, lo: real, hi: real)
    requires |xs| > 0
    requires forall i :: 0 <= i < |xs| ==> lo <= xs[i] <= hi
    ensures lo <= Sum(xs) / |xs| as real <= hi
  {
    SumBounds(xs, lo, hi);
    QuotientBounds(Sum(xs), |xs| as real, lo, hi);
  }

  /** The index of a smallest element, found as a largest element of the negated list. */
  lemma MinIndex(xs: seq<real>) returns (lo: nat)
    requires |xs| > 0
    ensures lo < |xs| && forall i :: 0 <= i < |xs| ==> xs[lo] <= xs[i]
  {
    var negated := seq(|xs|, i requires 0 <= i < |xs| => -xs[i]);
    lo := FirstMaxIndex(negated);
    assert forall i :: 0 <= i < |xs| ==> -xs[i] == negated[i] <= negated[lo] == -xs[lo];
  }

  /** A total between `n` times `lo` and `n` times `hi`, shared out over `n`. */
  lemma QuotientBounds(total: real, n: real, lo: real, hi: real)
    requires n > 0.0 && lo * n <= total <= hi * n
    ensures lo <= total / n <= hi
  {
    assert (total / n) * n == total;
  }

  lemma {:induction false} SumBounds(xs: seq<real>, lo: real, hi: real)
    requires forall i :: 0 <= i < |xs| ==> lo <= xs[i] <= hi
    ensures lo * |xs| as real <= Sum(xs) <= hi * |xs| as real
  {
    if xs != [] {
      var init := xs[..|xs| - 1];
      assert forall i :: 0 <= i < |init| ==> init[i] == xs[i];
      SumBounds(init, lo, hi);
      assert lo * |xs| as real == lo * |init| as real + lo;
      assert hi * |xs| as real == hi * |init| as real + hi;
    }
  }

  /** A mean of scores that all lie in [lo, hi] lies in [lo, hi] too. */
  lemma MeanBounds(xs: seq<real>, lo: real, hi: real)
    requires |xs| > 0
    requires forall i :: 0 <= i < |xs| ==> lo <= xs[i] <= hi
    ensures lo <= Mean(xs) <= hi
  {
    SharedOutBounds(xs, lo, hi);
  }

  /** The index a left-to-right scan keeping the first maximum finds: a largest element,
      and the first one when several are equally large. */
  function FirstMaxIndex(xs: seq<real>): (i: nat)
    requires |xs| > 0
    ensures i < |xs|
    ensures forall j :: 0 <= j < |xs| ==> xs[j] <= xs[i]
    ensures forall j :: 0 <= j < i ==> xs[j] < xs[i]
  {
    if |xs| == 1 then 0
    else
      var i := FirstMaxIndex(xs[..|xs| - 1]);
      if xs[|xs| - 1] > xs[i] then |xs| - 1 else i
  }

  /** The number of occurrences of `x` in `xs`. */
  function Count(xs: seq<string>, x: string): nat
  {
    if xs == [] then 0 else Count(xs[..|xs| - 1], x) + (if xs[|xs| - 1] == x then 1 else 0)
  }

  /** The most frequent element of a list, chosen among the set of its elements:
      a value that occurs in `xs` at least as often as any other. Python iterates
      the set in an unspecified order; this picks the value that occurs first in
      `xs` among those occurring most often. */
  function MostFrequent(xs: seq<string>): (r: string)
    requires |xs| > 0
    ensures r in xs
    ensures forall x :: x in xs ==> Count(xs, x) <= Count(xs, r)
  {
    var counts := seq(|xs|, i requires 0 <= i < |xs| => Count(xs, xs[i]) as real);
    var m := FirstMaxIndex(counts);
    assert forall x :: x in xs ==> Count(xs, x) <= Count(xs, xs[m]) by {
      forall x | x in xs ensures Count(xs, x) <= Count(xs, xs[m]) {
        var j :| 0 <= j < |xs| && xs[j] == x;
        assert counts[j] <= counts[m];
      }
    }
    xs[m]
  }

  /** The key at the first largest score: its score is the largest of all, and
      every key listed before it scores strictly less. */
  lemma FirstMaxKey<V>(keys: seq<string>, vals: map<string, V>, score: V -> real, scores: seq<real>, m: nat)
    requires |scores| == |keys| && m < |keys|
    requires forall i :: 0 <= i < |keys| ==> keys[i] in vals && scores[i] == score(vals[keys[i]])
    requires forall k :: k in vals ==> k in keys
    requires forall j :: 0 <= j < |scores| ==> scores[j] <= scores[m]
    requires forall j :: 0 <= j < m ==> scores[j] < scores[m]
    ensures forall j :: j in vals ==> score(vals[j]) <= score(vals[keys[m]])
    ensures forall i :: 0 <= i < |keys| && score(vals[keys[i]]) == score(vals[keys[m]]) ==> keys[m] in keys[..i + 1]
  {
    forall j | j in vals ensures score(vals[j]) <= score(vals[keys[m]]) {
      var i :| 0 <= i < |keys| && keys[i] == j;
      assert scores[i] <= scores[m];
    }
    forall i | 0 <= i < |keys| && score(vals[keys[i]]) == score(vals[keys[m]]) ensures keys[m] in keys[..i + 1] {
      assert scores[i] == scores[m];
      assert keys[..i + 1][m] == keys[m];
    }
  }

  /** The key of a dict whose value is largest, values compared by `score`: a key with the largest
      score, the first in key order among keys with that score. */
  function KeyOfMax<V>(d: Dict<V>, score: V -> real): (k: string)
    requires |d.keys| > 0
    ensures k in d.vals
    ensures forall j :: j in d.vals ==> score(d.vals[j]) <= score(d.vals[k])
    ensures forall i :: 0 <= i < |d.keys| && score(d.vals[d.keys[i]]) == score(d.vals[k]) ==> k in d.keys[..i + 1]
  {
    var scores := seq(|d.keys|, i requires 0 <= i < |d.keys| => score(d.vals[d.keys[i]]));
    var m := FirstMaxIndex(scores);
    FirstMaxKey(d.keys, d.vals, score, scores, m);
    d.keys[m]
  }

  /** The score of a probability is the probability itself. */
  function Itself(x: real): real
  {
    x
  }

  /** The score of a count is the count as a number. */
  function AsReal(n: nat): real
  {
    n as real
  }

  /** A dict of score lists turned into a dict of their means: the same keys in the same order,
      each mapped to the mean of its list. */
  function Means(d: Dict<seq<real>>): (r: Dict<real>)
    requires forall k :: k in d.vals ==> |d.vals[k]| > 0
    ensures r.keys == d.keys
    ensures forall k :: k in d.vals ==> k in r.vals && r.vals[k] == Mean(d.vals[k])
  {
    Entries(d.keys, map k | k in d.vals :: Mean(d.vals[k]))
  }
}
