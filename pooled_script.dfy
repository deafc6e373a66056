/** My-App/main.py: the pooled script. Every frame read goes to the face detector,
    and the emotion scores of every classified face, whatever its label, are
    appended to one dict from emotion name to score list. Reading stops at the
    end of the stream or when 'q' is pressed. At the end, the mean of each list
    is printed. */
module PooledScript {
  import opened PyDict
  import opened Aggregates
  import opened Pipeline

  /** `emotion_stats`: emotion name to the scores seen for it, in the order the
      names were first seen. */
  type Pool = Dict<seq<real>>

  /** Every list in the pool is non-empty. */
  ghost predicate NonEmptyLists(pool: Pool)
  {
    forall e :: e in pool.vals ==> |pool.vals[e]| > 0
  }

  /** One face: a failed classification changes nothing; otherwise one score
      is appended for each emotion key of its answer. */
  function PoolFace(pool: Pool, d: Detection<EmotionAnalysis>): Pool
  {
    match d.analysis
    case None => pool
    case Some(a) => AppendScores(pool, a.emotion)
  }

  function PoolFaces(pool: Pool, faces: seq<Detection<EmotionAnalysis>>): Pool
  {
    if faces == [] then pool
    else PoolFace(PoolFaces(pool, faces[..|faces| - 1]), faces[|faces| - 1])
  }

  function PoolFrames(pool: Pool, frames: seq<Frame<EmotionAnalysis>>): Pool
  {
    if frames == [] then pool
    else PoolFaces(PoolFrames(pool, frames[..|frames| - 1]), frames[|frames| - 1].faces)
  }

  /** The number of analyses among `faces` whose emotion dict has key `e`. */
  function Occurrences(faces: seq<Detection<EmotionAnalysis>>, e: string): nat
  {
    if faces == [] then 0
    else
      var d := faces[|faces| - 1];
      Occurrences(faces[..|faces| - 1], e) + (if d.analysis.Some? && e in d.analysis.value.emotion.vals then 1 else 0)
  }

  function OccurrencesInFrames(frames: seq<Frame<EmotionAnalysis>>, e: string): nat
  {
    if frames == [] then 0
    else OccurrencesInFrames(frames[..|frames| - 1], e) + Occurrences(frames[|frames| - 1].faces, e)
  }

  /** The emotion keys of every classified face among `faces`, in reading order,
      repeats included. */
  function EmotionKeys(faces: seq<Detection<EmotionAnalysis>>): seq<string>
  {
    if faces == [] then []
    else
      var d := faces[|faces| - 1];
      EmotionKeys(faces[..|faces| - 1]) + (if d.analysis.Some? then d.analysis.value.emotion.keys else [])
  }

  function EmotionKeysOfFrames(frames: seq<Frame<EmotionAnalysis>>): seq<string>
  {
    if frames == [] then []
    else EmotionKeysOfFrames(frames[..|frames| - 1]) + EmotionKeys(frames[|frames| - 1].faces)
  }

  /** Lines 48-52: appending every score of one analysis to the pool. */
  method PoolScores(pool: Pool, scores: Dict<real>) returns (r: Pool)
    ensures r == AppendScores(pool, scores)
  {
    r := pool;
    for i := 0 to |scores.keys|
      invariant r == AppendFirst(pool, scores, i)
    {
      var emotion := scores.keys[i];
      assert AppendFirst(pool, scores, i + 1) == AppendTo(r, emotion, scores.vals[emotion]);
      r := PoolScore(r, emotion, scores.vals[emotion]);
    }
    assert r == AppendScores(pool, scores) by {
      assert scores.keys[..|scores.keys|] == scores.keys;
    }
  }

  /** Lines 49-52: the `if`/`else` that extends the list of a known emotion or
      starts a one-element list for a new one, which is appending the score to
      the list of its emotion. */
  method PoolScore(pool: Pool, emotion: string, score: real) returns (r: Pool)
    ensures r == AppendTo(pool, emotion, score)
  {
    if emotion in pool.vals {
      r := Put(pool, emotion, pool.vals[emotion] + [score]);
    } else {
      assert GetOr(pool, emotion, []) + [score] == [score];
      r := Put(pool, emotion, [score]);
    }
  }

  /** Lines 33-58: the faces of one frame. */
  method PoolFrame(pool: Pool, frame: Frame<EmotionAnalysis>) returns (r: Pool)
    ensures r == PoolFaces(pool, frame.faces)
  {
    r := pool;
    for j := 0 to |frame.faces|
      invariant r == PoolFaces(pool, frame.faces[..j])
    {
      assert frame.faces[..j + 1][..j] == frame.faces[..j];
      var d := frame.faces[j];
      if d.analysis.Some? {
        r := PoolScores(r, d.analysis.value.emotion);
      }
    }
    assert frame.faces[..|frame.faces|] == frame.faces;
  }

  /** The loop breaks after a frame at which 'q' is pressed. */
  predicate Stops(frameCount: nat, f: Frame<EmotionAnalysis>)
  {
    f.quitKey
  }

  /** The line printed for one emotion, as the pair of its name and its mean score. */
  function AverageLine(emotion: string, scores: seq<real>): (string, real)
    requires |scores| > 0
  {
    (emotion, Mean(scores))
  }

  /** The printed lines: each emotion with the mean of its scores, in key order. */
  function Averages(pool: Pool): seq<(string, real)>
    requires NonEmptyLists(pool)
  {
    MapItems(pool, |pool.keys|, AverageLine)
  }

  /** What the script prints after the loop: the frame count reached (shown as
      it goes) and the average of each emotion. None when it calls `exit()`
      because the video cannot be opened. */
  datatype Output = Output(framesProcessed: nat, averages: seq<(string, real)>)

  function Run(video: Video<EmotionAnalysis>): Option<Output>
  {
    if !video.isOpen then None
    else
      var n := FramesRead(video.frames, Stops);
      var pool := PoolFrames(Empty(), video.frames[..n]);
      PoolFramesNonEmpty(Empty(), video.frames[..n]);
      Some(Output(n, Averages(pool)))
  }

  /** Lines 71-73. */
  method PrintAverages(pool: Pool) returns (lines: seq<(string, real)>)
    requires NonEmptyLists(pool)
    ensures lines == Averages(pool)
  {
    lines := [];
    for i := 0 to |pool.keys|
      invariant lines == MapItems(pool, i, AverageLine)
    {
      var emotion := pool.keys[i];
      var scores := pool.vals[emotion];
      lines := lines + [AverageLine(emotion, scores)];
    }
  }

  /** The module-level script. */
  method RunScript(video: Video<EmotionAnalysis>) returns (out: Option<Output>)
    ensures out == Run(video)
  {
    if !video.isOpen {
      return None;
    }
    var emotionStats: Pool := Empty();
    var frameCount := 0;
    while true
      invariant 0 <= frameCount <= |video.frames|
      invariant forall i :: 0 <= i < frameCount ==> !Stops(i + 1, video.frames[i])
      invariant emotionStats == PoolFrames(Empty(), video.frames[..frameCount])
      decreases |video.frames| - frameCount
    {
      if frameCount == |video.frames| {
        break;
      }
      ghost var j := frameCount;
      var frame := video.frames[frameCount];
      frameCount := frameCount + 1;
      assert video.frames[..frameCount][..j] == video.frames[..j];
      emotionStats := PoolFrame(emotionStats, frame);
      if frame.quitKey {
        break;
      }
      assert !Stops(j + 1, video.frames[j]);
    }
    FramesReadUnique(video.frames, Stops, frameCount);
    PoolFramesNonEmpty(Empty(), video.frames[..frameCount]);
    var lines := PrintAverages(emotionStats);
    return Some(Output(frameCount, lines));
  }

  // ---------------------------------------------------------------------------
  // Properties

  /** Keys are never removed and lists only grow: the old list of every emotion
      is a prefix of its new list. */
  lemma {:induction false} PoolFacesGrows(pool: Pool, faces: seq<Detection<EmotionAnalysis>>)
    ensures forall e :: e in pool.vals ==>
              e in PoolFaces(pool, faces).vals && pool.vals[e] <= PoolFaces(pool, faces).vals[e]
  {
    if faces != [] {
      var p := PoolFaces(pool, faces[..|faces| - 1]);
      PoolFacesGrows(pool, faces[..|faces| - 1]);
      var d := faces[|faces| - 1];
      if d.analysis.Some? {
        forall e | e in pool.vals ensures e in PoolFace(p, d).vals && pool.vals[e] <= PoolFace(p, d).vals[e] {
          assert GetOr(PoolFace(p, d), e, []) == GetOr(p, e, []) + (if e in d.analysis.value.emotion.vals then [d.analysis.value.emotion.vals[e]] else []);
          assert e in Dedup(p.keys + d.analysis.value.emotion.keys);
        }
      }
    }
  }

  lemma {:induction false} PoolFramesGrows(pool: Pool, frames: seq<Frame<EmotionAnalysis>>)
    ensures forall e :: e in pool.vals ==>
              e in PoolFrames(pool, frames).vals && pool.vals[e] <= PoolFrames(pool, frames).vals[e]
  {
    if frames != [] {
      var p := PoolFrames(pool, frames[..|frames| - 1]);
      PoolFramesGrows(pool, frames[..|frames| - 1]);
      PoolFacesGrows(p, frames[|frames| - 1].faces);
    }
  }

  /** Each emotion's list holds one score per classified face whose answer has
      that emotion key: the pool starts empty and gains exactly one score per
      such face. */
  lemma {:induction false} PoolFacesLength(pool: Pool, faces: seq<Detection<EmotionAnalysis>>, e: string)
    ensures |GetOr(PoolFaces(pool, faces), e, [])| == |GetOr(pool, e, [])| + Occurrences(faces, e)
  {
    if faces != [] {
      PoolFacesLength(pool, faces[..|faces| - 1], e);
    }
  }

  lemma {:induction false} PoolFramesLength(pool: Pool, frames: seq<Frame<EmotionAnalysis>>, e: string)
    ensures |GetOr(PoolFrames(pool, frames), e, [])| == |GetOr(pool, e, [])| + OccurrencesInFrames(frames, e)
  {
    if frames != [] {
      PoolFramesLength(pool, frames[..|frames| - 1], e);
      PoolFacesLength(PoolFrames(pool, frames[..|frames| - 1]), frames[|frames| - 1].faces, e);
    }
  }

  /** Every stored list is non-empty. */
  lemma {:induction false} PoolFacesNonEmpty(pool: Pool, faces: seq<Detection<EmotionAnalysis>>)
    requires NonEmptyLists(pool)
    ensures NonEmptyLists(PoolFaces(pool, faces))
  {
    if faces != [] {
      var p := PoolFaces(pool, faces[..|faces| - 1]);
      PoolFacesNonEmpty(pool, faces[..|faces| - 1]);
      var d := faces[|faces| - 1];
      if d.analysis.Some? {
        var r := PoolFace(p, d);
        forall e | e in r.vals ensures |r.vals[e]| > 0 {
          assert GetOr(r, e, []) == GetOr(p, e, []) + (if e in d.analysis.value.emotion.vals then [d.analysis.value.emotion.vals[e]] else []);
          assert e in Dedup(p.keys + d.analysis.value.emotion.keys);
        }
      }
    }
  }

  lemma {:induction false} PoolFramesNonEmpty(pool: Pool, frames: seq<Frame<EmotionAnalysis>>)
    requires NonEmptyLists(pool)
    ensures NonEmptyLists(PoolFrames(pool, frames))
  {
    if frames != [] {
      PoolFramesNonEmpty(pool, frames[..|frames| - 1]);
      PoolFacesNonEmpty(PoolFrames(pool, frames[..|frames| - 1]), frames[|frames| - 1].faces);
    }
  }

  /** A classifier failure leaves the pool as it was: the frame pools what its
      successful faces alone pool. */
  lemma {:induction false} FailuresLeavePoolUnchanged(pool: Pool, faces: seq<Detection<EmotionAnalysis>>)
    ensures PoolFaces(pool, faces) == PoolFaces(pool, AnalysedFaces(faces))
  {
    if faces != [] {
      var init, last := faces[..|faces| - 1], faces[|faces| - 1];
      var kept := AnalysedFaces(init);
      FailuresLeavePoolUnchanged(pool, init);
      if last.analysis.Some? {
        var more := kept + [last];
        assert AnalysedFaces(faces) == more;
        assert more[..|more| - 1] == kept;
      } else {
        assert AnalysedFaces(faces) == kept + [];
        assert kept + [] == kept;
      }
    }
  }

  /** Emotions enter the pool in the order they are first reported: its keys are
      the old keys followed by the emotion keys of the classified faces, each
      listed once, at its first occurrence. */
  lemma {:induction false} PoolFacesKeys(pool: Pool, faces: seq<Detection<EmotionAnalysis>>)
    ensures PoolFaces(pool, faces).keys == Dedup(pool.keys + EmotionKeys(faces))
  {
    if faces == [] {
      assert pool.keys + [] == pool.keys;
      DedupOfDistinct(pool.keys);
    } else {
      var init, d := faces[..|faces| - 1], faces[|faces| - 1];
      var before := pool.keys + EmotionKeys(init);
      var ks := if d.analysis.Some? then d.analysis.value.emotion.keys else [];
      assert pool.keys + EmotionKeys(faces) == before + ks;
      PoolFacesKeys(pool, init);
      if d.analysis.Some? {
        DedupAppend(before, ks);
      } else {
        assert before + ks == before;
      }
    }
  }

  lemma {:induction false} PoolFramesKeys(pool: Pool, frames: seq<Frame<EmotionAnalysis>>)
    ensures PoolFrames(pool, frames).keys == Dedup(pool.keys + EmotionKeysOfFrames(frames))
  {
    if frames == [] {
      assert pool.keys + [] == pool.keys;
      DedupOfDistinct(pool.keys);
    } else {
      var init, last := frames[..|frames| - 1], frames[|frames| - 1];
      var p := PoolFrames(pool, init);
      var before, ks := pool.keys + EmotionKeysOfFrames(init), EmotionKeys(last.faces);
      assert pool.keys + EmotionKeysOfFrames(frames) == before + ks;
      assert PoolFrames(pool, frames).keys == Dedup(Dedup(before) + ks) by {
        PoolFramesKeys(pool, init);
        PoolFacesKeys(p, last.faces);
      }
      DedupAppend(before, ks);
    }
  }

  /** The script exits before reading when the video cannot be opened; otherwise
      every frame up to the first one at which 'q' is pressed is read and
      analysed, and the frame count is the number of frames read. */
  lemma RunReads(video: Video<EmotionAnalysis>)
    ensures Run(video).None? <==> !video.isOpen
    ensures Run(video).Some? ==> var n := Run(video).value.framesProcessed;
      && n <= |video.frames|
      && (forall i :: 0 <= i < n - 1 ==> !video.frames[i].quitKey)
      && (n < |video.frames| ==> n >= 1 && video.frames[n - 1].quitKey)
  {
  }

  /** The printed averages: one line per emotion seen in any classified face of
      the frames read, in first-seen order, each the mean of a list holding one
      score per face that reported that emotion. */
  lemma RunAverages(video: Video<EmotionAnalysis>)
    requires video.isOpen
    ensures var out := Run(video).value;
      var pool := PoolFrames(Empty(), video.frames[..out.framesProcessed]);
      && pool.keys == Dedup(EmotionKeysOfFrames(video.frames[..out.framesProcessed]))
      && |out.averages| == |pool.keys|
      && forall i :: 0 <= i < |out.averages| ==>
           && out.averages[i].0 == pool.keys[i]
           && |pool.vals[pool.keys[i]]| == OccurrencesInFrames(video.frames[..out.framesProcessed], pool.keys[i]) >= 1
           && out.averages[i].1 == Mean(pool.vals[pool.keys[i]])
  {
    var n := FramesRead(video.frames, Stops);
    var pool := PoolFrames(Empty(), video.frames[..n]);
    PoolFramesNonEmpty(Empty(), video.frames[..n]);
    PoolFramesKeys(Empty(), video.frames[..n]);
    assert Empty<seq<real>>().keys + EmotionKeysOfFrames(video.frames[..n]) == EmotionKeysOfFrames(video.frames[..n]);
    forall i | 0 <= i < |pool.keys|
      ensures |pool.vals[pool.keys[i]]| == OccurrencesInFrames(video.frames[..n], pool.keys[i])
    {
      PoolFramesLength(Empty(), video.frames[..n], pool.keys[i]);
    }
  }

  /** A mean of scores in [lo, hi] is in [lo, hi]: when the classifier's scores
      are percentages, so is every printed average. */
  lemma AveragesInRange(pool: Pool, lo: real, hi: real)
    requires NonEmptyLists(pool)
    requires forall e, i :: e in pool.vals && 0 <= i < |pool.vals[e]| ==> lo <= pool.vals[e][i] <= hi
    ensures forall i :: 0 <= i < |Averages(pool)| ==> lo <= Averages(pool)[i].1 <= hi
  {
    forall i | 0 <= i < |Averages(pool)| ensures lo <= Averages(pool)[i].1 <= hi {
      MeanBounds(pool.vals[pool.keys[i]], lo, hi);
    }
  }
}
