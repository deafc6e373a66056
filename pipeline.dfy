/** What the three programs read: a video as the ordered list of frames the
    capture object yields, each frame carrying what the external face detector and
    emotion classifier report for it. Also defined here: the frame-sampling rule
    they share (every frame read is counted, and those whose number is a multiple
    of the interval are analysed) and the overall summary they write. */
module Pipeline {
  import opened PyDict

  datatype Option<T> = None | Some(value: T)

  /** One entry of the dict `RetinaFace.detect_faces` returns: the face label, and
      the classifier's answer on the face region, None when `DeepFace.analyze`
      (or reading its result) raised. */
  datatype Detection<A> = Detection(faceId: string, analysis: Option<A>)

  /** A frame: the faces the detector reports for it in dict order (empty when the
      detector returns no dict), and whether `cv2.waitKey(1)` would read 'q' right
      after the frame is shown. */
  datatype Frame<A> = Frame(faces: seq<Detection<A>>, quitKey: bool)

  /** A video file: whether `cv2.VideoCapture(...).isOpened()` holds, and the frames
      `cap.read()` yields before it reports the end of the stream. */
  datatype Video<A> = Video(isOpen: bool, frames: seq<Frame<A>>)

  /** What the classifier returns for one face when asked for emotions only. */
  datatype EmotionAnalysis = EmotionAnalysis(dominantEmotion: string, emotion: Dict<real>)

  /** The `overall_stats` dict: frames read, number of face entries, their labels. */
  datatype OverallStats = OverallStats(totalFramesProcessed: nat, totalFacesDetected: nat, faces: seq<string>)

  /** Frame number `frameCount` (1-based) is analysed: the remainder of its
      division by the interval is zero, so the skip test does not fire. Whether
      the remainder is zero does not depend on whether the operator truncates,
      floors or is Euclidean. */
  predicate IsSampled(frameCount: int, interval: int)
    requires interval != 0
  {
    frameCount % interval == 0
  }

  /** The frames of `frames` that reach the detector, in order. */
  function Sampled<F>(frames: seq<F>, interval: int): seq<F>
    requires interval != 0
  {
    if frames == [] then []
    else
      Sampled(frames[..|frames| - 1], interval)
      + (if IsSampled(|frames|, interval) then [frames[|frames| - 1]] else [])
  }

  function Abs(k: int): nat
  {
    if k < 0 then -k else k
  }

  lemma MulBounds(m: int, d: int)
    requires m > 0
    ensures d >= 1 ==> m * d >= m
    ensures d <= -1 ==> m * d <= -m
  {
  }

  lemma DivModUnique(n: int, m: int, q: int, r: int)
    requires m > 0 && n == m * q + r && 0 <= r < m
    ensures n / m == q && n % m == r
  {
    var q0, r0 := n / m, n % m;
    assert m * (q - q0) == r0 - r;
    MulBounds(m, q - q0);
  }

  /** One more frame raises the number of multiples of `m` by one exactly when the
      new frame number is itself a multiple. */
  lemma DivStep(n: nat, m: int)
    requires m > 0 && n >= 1
    ensures n / m == (n - 1) / m + (if n % m == 0 then 1 else 0)
  {
    var q, r := (n - 1) / m, (n - 1) % m;
    assert n - 1 == m * q + r;
    if r == m - 1 {
      DivModUnique(n, m, q + 1, 0);
    } else {
      DivModUnique(n, m, q, r + 1);
    }
  }

  lemma ModOfNegated(n: int, k: int)
    requires k != 0
    ensures n % k == n % Abs(k)
  {
    if k < 0 {
      var q, r := n / k, n % k;
      assert n == (-k) * (-q) + r;
      DivModUnique(n, -k, -q, r);
    }
  }

  /** Out of N frames read with interval k != 0, exactly N div |k| are analysed. */
  lemma {:induction false} SampledCount<F>(frames: seq<F>, interval: int)
    requires interval != 0
    ensures |Sampled(frames, interval)| == |frames| / Abs(interval)
  {
    if frames != [] {
      SampledCount(frames[..|frames| - 1], interval);
      ModOfNegated(|frames|, interval);
      DivStep(|frames|, Abs(interval));
    }
  }

  /** Frames the sampling rule skips never reach the detector: changing them does
      not change what is analysed. */
  lemma {:induction false} SampledIgnoresSkipped<F>(frames: seq<F>, others: seq<F>, interval: int)
    requires interval != 0 && |frames| == |others|
    requires forall i :: 0 <= i < |frames| && IsSampled(i + 1, interval) ==> frames[i] == others[i]
    ensures Sampled(frames, interval) == Sampled(others, interval)
  {
    if frames != [] {
      var n := |frames|;
      SampledIgnoresSkipped(frames[..n - 1], others[..n - 1], interval);
    }
  }

  /** With interval 1 every frame is analysed. */
  lemma {:induction false} SampledEveryFrame<F>(frames: seq<F>)
    ensures Sampled(frames, 1) == frames
  {
    if frames != [] {
      SampledEveryFrame(frames[..|frames| - 1]);
      assert frames == frames[..|frames| - 1] + [frames[|frames| - 1]];
    }
  }

  /** The labels of the faces the classifier analysed, in the order they were met. */
  function AnalysedIds<A>(faces: seq<Detection<A>>): seq<string>
  {
    if faces == [] then []
    else
      var last := faces[|faces| - 1];
      AnalysedIds(faces[..|faces| - 1]) + (if last.analysis.Some? then [last.faceId] else [])
  }

  function AnalysedIdsOfFrames<A>(frames: seq<Frame<A>>): seq<string>
  {
    if frames == [] then []
    else AnalysedIdsOfFrames(frames[..|frames| - 1]) + AnalysedIds(frames[|frames| - 1].faces)
  }

  /** The number of frames a script reads when it breaks out of its loop right
      after frame number `i` (1-based) if `stops(i, frames[i - 1])`, and otherwise
      at the end of the stream: the first frame number at which it stops. */
  function FramesRead<A>(frames: seq<Frame<A>>, stops: (nat, Frame<A>) -> bool): (n: nat)
    ensures n <= |frames|
    ensures forall i :: 0 <= i < n - 1 ==> !stops(i + 1, frames[i])
    ensures n < |frames| ==> n >= 1 && stops(n, frames[n - 1])
  {
    FramesReadFrom(frames, stops, 0)
  }

  function FramesReadFrom<A>(frames: seq<Frame<A>>, stops: (nat, Frame<A>) -> bool, read: nat): (n: nat)
    requires read <= |frames|
    requires forall i :: 0 <= i < read ==> !stops(i + 1, frames[i])
    ensures read <= n <= |frames|
    ensures forall i :: 0 <= i < n - 1 ==> !stops(i + 1, frames[i])
    ensures n < |frames| ==> n >= 1 && stops(n, frames[n - 1])
    decreases |frames| - read
  {
    if read == |frames| then read
    else if stops(read + 1, frames[read]) then read + 1
    else FramesReadFrom(frames, stops, read + 1)
  }

  /** The number of frames read is the only count with the two properties above:
      no stop before it, and a stop at it unless the stream ended there. */
  lemma FramesReadUnique<A>(frames: seq<Frame<A>>, stops: (nat, Frame<A>) -> bool, m: nat)
    requires m <= |frames|
    requires forall i :: 0 <= i < m - 1 ==> !stops(i + 1, frames[i])
    requires m < |frames| ==> m >= 1 && stops(m, frames[m - 1])
    ensures FramesRead(frames, stops) == m
  {
  }

  /** Reading frame number `n` adds it to the analysed frames exactly when it is sampled. */
  lemma SampledStep<F>(frames: seq<F>, n: nat, interval: int)
    requires interval != 0 && 1 <= n <= |frames|
    ensures Sampled(frames[..n], interval)
         == Sampled(frames[..n - 1], interval) + (if IsSampled(n, interval) then [frames[n - 1]] else [])
  {
    assert frames[..n][..n - 1] == frames[..n - 1];
  }

  // ---------------------------------------------------------------------------
  // The per-face fold shared by `process_video` and the retina script: a dict
  // from face label to entry, where `fold` is what one successful analysis does
  // to an entry and `init` is the entry created for a label seen the first time.

  /** One round of the loop over the detector's faces. A face the classifier
      fails on changes nothing; otherwise its entry, created when missing, is
      folded and no other entry changes. */
  function FoldDetection<A, S>(t: Dict<S>, d: Detection<A>, fold: (S, A) -> S, init: S): (r: Dict<S>)
    ensures d.analysis.None? ==> r == t
    ensures d.analysis.Some? ==> d.faceId in r.vals && r.vals[d.faceId] == fold(GetOr(t, d.faceId, init), d.analysis.value)
    ensures r.keys == if d.analysis.Some? && d.faceId !in t.vals then t.keys + [d.faceId] else t.keys
    ensures forall id :: id != d.faceId ==> (id in r.vals <==> id in t.vals)
    ensures forall id :: id != d.faceId && id in t.vals ==> r.vals[id] == t.vals[id]
  {
    match d.analysis
    case None => t
    case Some(a) => Put(t, d.faceId, fold(GetOr(t, d.faceId, init), a))
  }

  /** The loop over the faces of one frame. */
  function FoldFaces<A, S>(t: Dict<S>, faces: seq<Detection<A>>, fold: (S, A) -> S, init: S): Dict<S>
  {
    if faces == [] then t
    else FoldDetection(FoldFaces(t, faces[..|faces| - 1], fold, init), faces[|faces| - 1], fold, init)
  }

  /** The faces of every frame of `frames`, in order. */
  function FoldFrames<A, S>(t: Dict<S>, frames: seq<Frame<A>>, fold: (S, A) -> S, init: S): Dict<S>
  {
    if frames == [] then t
    else FoldFaces(FoldFrames(t, frames[..|frames| - 1], fold, init), frames[|frames| - 1].faces, fold, init)
  }

  /** A list built from the first `n` items of a dict, one value of `f` per item: the value
      built for each entry, in key order. */
  function MapItems<S, R>(d: Dict<S>, n: nat, f: (string, S) --> R): (r: seq<R>)
    requires n <= |d.keys|
    requires forall k :: k in d.vals ==> f.requires(k, d.vals[k])
    ensures |r| == n
    ensures forall i :: 0 <= i < n ==> r[i] == f(d.keys[i], d.vals[d.keys[i]])
  {
    if n == 0 then []
    else MapItems(d, n - 1, f) + [f(d.keys[n - 1], d.vals[d.keys[n - 1]])]
  }

  /** Folding one more frame folds its faces into the dict built so far. */
  lemma FoldFramesSnoc<A, S>(t: Dict<S>, frames: seq<Frame<A>>, f: Frame<A>, fold: (S, A) -> S, init: S)
    ensures FoldFrames(t, frames + [f], fold, init) == FoldFaces(FoldFrames(t, frames, fold, init), f.faces, fold, init)
  {
    assert (frames + [f])[..|frames|] == frames;
  }

  /** The faces the classifier analysed, failures left out. */
  function AnalysedFaces<A>(faces: seq<Detection<A>>): (r: seq<Detection<A>>)
    ensures forall d :: d in r ==> d in faces && d.analysis.Some?
  {
    if faces == [] then []
    else
      var last := faces[|faces| - 1];
      AnalysedFaces(faces[..|faces| - 1]) + (if last.analysis.Some? then [last] else [])
  }

  /** A classifier failure leaves the dict as it was and the other faces of the
      frame are still folded: the loop gives what it gives on the successful faces alone. */
  lemma {:induction false} FailuresAreDropped<A, S>(t: Dict<S>, faces: seq<Detection<A>>, fold: (S, A) -> S, init: S)
    ensures FoldFaces(t, faces, fold, init) == FoldFaces(t, AnalysedFaces(faces), fold, init)
  {
    if faces != [] {
      var init', last := faces[..|faces| - 1], faces[|faces| - 1];
      var kept := AnalysedFaces(init');
      FailuresAreDropped(t, init', fold, init);
      if last.analysis.Some? {
        var more := kept + [last];
        assert AnalysedFaces(faces) == more;
        assert more[..|more| - 1] == kept;
        assert FoldFaces(t, more, fold, init) == FoldDetection(FoldFaces(t, kept, fold, init), last, fold, init);
      } else {
        assert AnalysedFaces(faces) == kept + [];
        assert kept + [] == kept;
        assert FoldFaces(t, faces, fold, init) == FoldDetection(FoldFaces(t, init', fold, init), last, fold, init);
      }
    }
  }

  /** Entries are created in the order face labels are first analysed successfully:
      the keys are the analysed labels without repetition, in first-seen order. */
  lemma {:induction false} FoldFacesKeys<A, S>(t: Dict<S>, faces: seq<Detection<A>>, fold: (S, A) -> S, init: S)
    ensures FoldFaces(t, faces, fold, init).keys == Dedup(t.keys + AnalysedIds(faces))
  {
    if faces == [] {
      assert t.keys + [] == t.keys;
      DedupOfDistinct(t.keys);
    } else {
      var init', last := faces[..|faces| - 1], faces[|faces| - 1];
      FoldFacesKeys(t, init', fold, init);
      if last.analysis.Some? {
        var seen := t.keys + AnalysedIds(init');
        assert t.keys + AnalysedIds(faces) == seen + [last.faceId];
        DedupSnoc(seen, last.faceId);
      } else {
        assert AnalysedIds(faces) == AnalysedIds(init');
      }
    }
  }

  lemma {:induction false} FoldFramesKeys<A, S>(t: Dict<S>, frames: seq<Frame<A>>, fold: (S, A) -> S, init: S)
    ensures FoldFrames(t, frames, fold, init).keys == Dedup(t.keys + AnalysedIdsOfFrames(frames))
  {
    if frames == [] {
      assert t.keys + [] == t.keys;
      DedupOfDistinct(t.keys);
    } else {
      var init', last := frames[..|frames| - 1], frames[|frames| - 1];
      var p := FoldFrames(t, init', fold, init);
      var before, ids := t.keys + AnalysedIdsOfFrames(init'), AnalysedIds(last.faces);
      assert t.keys + AnalysedIdsOfFrames(frames) == before + ids by {
        assert AnalysedIdsOfFrames(frames) == AnalysedIdsOfFrames(init') + ids;
      }
      assert FoldFrames(t, frames, fold, init).keys == Dedup(Dedup(before) + ids) by {
        assert FoldFrames(t, frames, fold, init) == FoldFaces(p, last.faces, fold, init);
        FoldFramesKeys(t, init', fold, init);
        FoldFacesKeys(p, last.faces, fold, init);
      }
      DedupAppend(before, ids);
    }
  }

  /** The labels of a fold from an empty dict: the analysed labels in first-seen order. */
  lemma FoldFramesKeysFromEmpty<A, S>(frames: seq<Frame<A>>, fold: (S, A) -> S, init: S)
    ensures FoldFrames(Empty(), frames, fold, init).keys == Dedup(AnalysedIdsOfFrames(frames))
  {
    FoldFramesKeys(Empty(), frames, fold, init);
    assert Empty<S>().keys + AnalysedIdsOfFrames(frames) == AnalysedIdsOfFrames(frames);
  }

  /** A property of entries that folding an accepted analysis into an entry
      having it, or into a fresh entry, establishes holds of every entry after
      the faces of a frame are folded. */
  lemma {:induction false} FoldFacesKeeps<A, S>(t: Dict<S>, faces: seq<Detection<A>>, fold: (S, A) -> S, init: S,
                                                accepted: A -> bool, inv: S -> bool)
    requires forall id :: id in t.vals ==> inv(t.vals[id])
    requires forall d :: d in faces && d.analysis.Some? ==> accepted(d.analysis.value)
    requires forall s, a :: (inv(s) || s == init) && accepted(a) ==> inv(fold(s, a))
    ensures forall id :: id in FoldFaces(t, faces, fold, init).vals ==> inv(FoldFaces(t, faces, fold, init).vals[id])
  {
    if faces != [] {
      var init', last := faces[..|faces| - 1], faces[|faces| - 1];
      assert forall d :: d in init' && d.analysis.Some? ==> accepted(d.analysis.value) by {
        assert forall d :: d in init' ==> d in faces;
      }
      FoldFacesKeeps(t, init', fold, init, accepted, inv);
      assert last in faces;
      FoldDetectionKeeps(FoldFaces(t, init', fold, init), last, fold, init, accepted, inv);
    }
  }

  /** One step of the above: folding one detection keeps the property. */
  lemma FoldDetectionKeeps<A, S>(t: Dict<S>, d: Detection<A>, fold: (S, A) -> S, init: S,
                                 accepted: A -> bool, inv: S -> bool)
    requires forall id :: id in t.vals ==> inv(t.vals[id])
    requires d.analysis.Some? ==> accepted(d.analysis.value)
    requires forall s, a :: (inv(s) || s == init) && accepted(a) ==> inv(fold(s, a))
    ensures forall id :: id in FoldDetection(t, d, fold, init).vals ==> inv(FoldDetection(t, d, fold, init).vals[id])
  {
    if d.analysis.Some? {
      var s := GetOr(t, d.faceId, init);
      assert inv(s) || s == init;
      assert inv(fold(s, d.analysis.value));
    }
  }

  /** The same after any number of frames. */
  lemma {:induction false} FoldFramesKeeps<A, S>(t: Dict<S>, frames: seq<Frame<A>>, fold: (S, A) -> S, init: S,
                                                 accepted: A -> bool, inv: S -> bool)
    requires forall id :: id in t.vals ==> inv(t.vals[id])
    requires forall f, d :: f in frames && d in f.faces && d.analysis.Some? ==> accepted(d.analysis.value)
    requires forall s, a :: (inv(s) || s == init) && accepted(a) ==> inv(fold(s, a))
    ensures forall id :: id in FoldFrames(t, frames, fold, init).vals ==> inv(FoldFrames(t, frames, fold, init).vals[id])
  {
    if frames != [] {
      var init', last := frames[..|frames| - 1], frames[|frames| - 1];
      assert forall f :: f in init' ==> f in frames;
      FoldFramesKeeps(t, init', fold, init, accepted, inv);
      FoldFacesKeeps(FoldFrames(t, init', fold, init), last.faces, fold, init, accepted, inv);
    }
  }

  lemma {:induction false} SampledMembers<F>(frames: seq<F>, interval: int)
    requires interval != 0
    ensures forall f :: f in Sampled(frames, interval) ==> f in frames
  {
    if frames != [] {
      SampledMembers(frames[..|frames| - 1], interval);
      assert forall f :: f in frames[..|frames| - 1] ==> f in frames;
    }
  }
}
