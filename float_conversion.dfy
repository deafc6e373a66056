/** `convert_float32_to_float` of app/utils/emotion_detection.py: the tree map
    applied to each per-face report before it is serialised. A numpy float32 leaf
    becomes a Python float with the same value; dicts and lists are rebuilt with
    every element converted; every other value, tuples included, is returned
    as it is. */
module Float32Conversion {
  import opened Pipeline

  /** The Python values a report is made of. Numbers are exact reals: only the
      float32/float distinction matters here, not rounding. */
  datatype PyValue =
    | Float32(x: real)                           // np.float32
    | Float(x: real)                             // float (and np.float64)
    | Int(i: int)
    | Str(s: string)
    | Bool(b: bool)
    | NoneValue
    | PDict(entries: seq<(string, PyValue)>)     // dict, items in order
    | PList(items: seq<PyValue>)                 // list
    | PTuple(items: seq<PyValue>)                // tuple, never entered
    | Other                                      // anything else

  function Convert(v: PyValue): (r: PyValue)
    ensures v.Float32? ==> r == Float(v.x)
    ensures v.PDict? ==> r.PDict? && |r.entries| == |v.entries|
    ensures v.PDict? ==> forall i :: 0 <= i < |v.entries| ==> r.entries[i] == (v.entries[i].0, Convert(v.entries[i].1))
    ensures v.PList? ==> r.PList? && |r.items| == |v.items|
    ensures v.PList? ==> forall i :: 0 <= i < |v.items| ==> r.items[i] == Convert(v.items[i])
    ensures !v.Float32? && !v.PDict? && !v.PList? ==> r == v
  {
    match v
    case Float32(x) => Float(x)
    // each dict value converted, keys kept in order
    case PDict(es) => PDict(seq(|es|, i requires 0 <= i < |es| => (es[i].0, Convert(es[i].1))))
    // each list element converted, in order
    case PList(xs) => PList(seq(|xs|, i requires 0 <= i < |xs| => Convert(xs[i])))
    case _ => v
  }

  /** No float32 anywhere the conversion looks: not at the top, and not inside any
      dict value or list element reached through dicts and lists. Tuples are not
      looked into. */
  predicate Float32Free(v: PyValue)
  {
    match v
    case Float32(_) => false
    case PDict(es) => forall i :: 0 <= i < |es| ==> Float32Free(es[i].1)
    case PList(xs) => forall i :: 0 <= i < |xs| ==> Float32Free(xs[i])
    case _ => true
  }

  /** After the conversion no float32 is left where the conversion looks. */
  lemma {:induction false} ConvertRemovesFloat32(v: PyValue)
    ensures Float32Free(Convert(v))
  {
    match v
    case PDict(es) =>
      var r := Convert(v).entries;
      forall i | 0 <= i < |es| ensures Float32Free(r[i].1) {
        ConvertRemovesFloat32(es[i].1);
      }
    case PList(xs) =>
      var r := Convert(v).items;
      forall i | 0 <= i < |xs| ensures Float32Free(r[i]) {
        ConvertRemovesFloat32(xs[i]);
      }
    case _ =>
  }

  /** A value without float32 where the conversion looks is returned unchanged. */
  lemma {:induction false} ConvertFixesFloat32Free(v: PyValue)
    requires Float32Free(v)
    ensures Convert(v) == v
  {
    match v
    case PDict(es) =>
      var r := Convert(v).entries;
      forall i | 0 <= i < |es| ensures r[i] == es[i] {
        ConvertFixesFloat32Free(es[i].1);
      }
      assert r == es;
    case PList(xs) =>
      var r := Convert(v).items;
      forall i | 0 <= i < |xs| ensures r[i] == xs[i] {
        ConvertFixesFloat32Free(xs[i]);
      }
      assert r == xs;
    case _ =>
  }

  /** Converting twice is converting once. */
  lemma ConvertIdempotent(v: PyValue)
    ensures Convert(Convert(v)) == Convert(v)
  {
    ConvertRemovesFloat32(v);
    ConvertFixesFloat32Free(Convert(v));
  }

  /** Exactly the values without float32 where the conversion looks are left
      unchanged by it. */
  lemma ConvertFixedPoints(v: PyValue)
    ensures Convert(v) == v <==> Float32Free(v)
  {
    if Float32Free(v) {
      ConvertFixesFloat32Free(v);
    } else {
      ConvertRemovesFloat32(v);
    }
  }

  /** The value reached from `v` by following `path`, each step an index into the
      items of a dict (taking the value) or into a list; None when the path leaves
      the tree. Like the conversion, a path does not enter a tuple. */
  function At(v: PyValue, path: seq<nat>): Option<PyValue>
    decreases |path|
  {
    if path == [] then Some(v)
    else
      match v
      case PDict(es) => if path[0] < |es| then At(es[path[0]].1, path[1..]) else None
      case PList(xs) => if path[0] < |xs| then At(xs[path[0]], path[1..]) else None
      case _ => None
  }

  /** The conversion keeps the shape of the tree: the same paths lead somewhere,
      and what a path reaches in the result is the conversion of what it reaches
      in the input. */
  lemma {:induction false} ConvertAt(v: PyValue, path: seq<nat>)
    ensures At(Convert(v), path).Some? <==> At(v, path).Some?
    ensures At(v, path).Some? ==> At(Convert(v), path).value == Convert(At(v, path).value)
    decreases |path|
  {
    if path != [] {
      match v
      case PDict(es) =>
        if path[0] < |es| {
          ConvertAt(es[path[0]].1, path[1..]);
        }
      case PList(xs) =>
        if path[0] < |xs| {
          ConvertAt(xs[path[0]], path[1..]);
        }
      case _ =>
    }
  }

  /** At every depth, a float32 leaf becomes a float with the same value and every
      other leaf, a tuple included, is kept as it is. */
  lemma ConvertLeaf(v: PyValue, path: seq<nat>)
    requires At(v, path).Some? && !At(v, path).value.PDict? && !At(v, path).value.PList?
    ensures At(Convert(v), path)
         == if At(v, path).value.Float32? then Some(Float(At(v, path).value.x)) else At(v, path)
  {
    ConvertAt(v, path);
  }
}
