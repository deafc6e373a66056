/** app/emotion_detection_retina.py: the emotion-only script. It reads the frames of one
    video, sends every 25th frame to the face detector, classifies the emotions of
    each face, and folds each classification into the `face_stats` entry of its
    label. It stops at the end of the stream or on 'q', which is only polled after
    a sampled frame. Then it reduces every entry to a report and writes an
    overall summary. */
module RetinaScript {
  import opened PyDict
  import opened Aggregates
  import opened Pipeline

  /** `frame_interval`. */
  const FrameInterval: int := 25

  /** One entry of `face_stats`. */
  datatype EmotionStats = EmotionStats(
    totalFrames: nat,
    emotionCounts: Dict<nat>,
    emotionConfidences: Dict<seq<real>>,
    embeddings: seq<Dict<real>>)

  type StatsTable = Dict<EmotionStats>

  /** The entry created the first time a face label is analysed. */
  function NewEmotionStats(): EmotionStats
  {
    EmotionStats(0, Empty(), Empty(), [])
  }

  /** Lines 77-81: what one classification does to an entry. The counts of the
      dominant emotions sum to one more, and the frame counter and the embeddings
      grow by one. */
  function FoldEmotion(s: EmotionStats, a: EmotionAnalysis): (r: EmotionStats)
    ensures r.totalFrames == s.totalFrames + 1
    ensures r.emotionCounts == Increment(s.emotionCounts, a.dominantEmotion)
    ensures a.dominantEmotion in r.emotionCounts.vals && SumValues(r.emotionCounts) == SumValues(s.emotionCounts) + 1
    ensures r.emotionConfidences == AppendScores(s.emotionConfidences, a.emotion)
    ensures r.embeddings == s.embeddings + [a.emotion]
  {
    IncrementSum(s.emotionCounts, a.dominantEmotion);
    s.(totalFrames := s.totalFrames + 1,
       emotionCounts := Increment(s.emotionCounts, a.dominantEmotion),
       emotionConfidences := AppendScores(s.emotionConfidences, a.emotion),
       embeddings := s.embeddings + [a.emotion])
  }

  /** One classification adds one frame, one count for its dominant emotion, one
      score to the list of each of its emotion keys and one embedding, and leaves
      the other counts and lists alone. */
  lemma FoldEmotionEffect(s: EmotionStats, a: EmotionAnalysis, e: string)
    ensures var r := FoldEmotion(s, a);
      && r.totalFrames == s.totalFrames + 1
      && GetOr(r.emotionCounts, e, 0) == GetOr(s.emotionCounts, e, 0) + (if e == a.dominantEmotion then 1 else 0)
      && GetOr(r.emotionConfidences, e, []) == GetOr(s.emotionConfidences, e, []) + (if e in a.emotion.vals then [a.emotion.vals[e]] else [])
      && r.embeddings == s.embeddings + [a.emotion]
  {
    IncrementAt(s.emotionCounts, a.dominantEmotion, e);
  }

  /** What holds of every entry: the frame counter, the sum of the dominant-emotion
      counts and the number of embeddings agree, and every stored list is
      non-empty and no longer than the counter. */
  ghost predicate Consistent(s: EmotionStats)
  {
    && s.totalFrames >= 1
    && |s.emotionCounts.keys| > 0
    && SumValues(s.emotionCounts) == s.totalFrames
    && |s.embeddings| == s.totalFrames
    && (forall e :: e in s.emotionConfidences.vals ==> 1 <= |s.emotionConfidences.vals[e]| <= s.totalFrames)
  }

  ghost predicate TableConsistent(t: StatsTable)
  {
    forall id :: id in t.vals ==> Consistent(t.vals[id])
  }

  lemma FoldEmotionConsistent(s: EmotionStats, a: EmotionAnalysis)
    requires Consistent(s) || s == NewEmotionStats()
    ensures Consistent(FoldEmotion(s, a))
  {
    var r := FoldEmotion(s, a);
    IncrementSum(s.emotionCounts, a.dominantEmotion);
    assert a.dominantEmotion in r.emotionCounts.vals;
    assert s == NewEmotionStats() ==> SumValues(s.emotionCounts) == 0;
    ConfidencesBounded(s.emotionConfidences, a.emotion, s.totalFrames);
  }

  /** Appending one score per emotion to lists of 1 to `n` scores, or to no lists
      at all, gives lists of 1 to `n + 1` scores. */
  lemma ConfidencesBounded(c: Dict<seq<real>>, scores: Dict<real>, n: nat)
    requires forall e :: e in c.vals ==> 1 <= |c.vals[e]| <= n
    ensures forall e :: e in AppendScores(c, scores).vals ==> 1 <= |AppendScores(c, scores).vals[e]| <= n + 1
  {
    var r := AppendScores(c, scores);
    forall e | e in r.vals
      ensures 1 <= |r.vals[e]| <= n + 1
    {
      assert GetOr(r, e, []) == GetOr(c, e, []) + (if e in scores.vals then [scores.vals[e]] else []);
    }
  }

  /** `face_stats` after the frames in `frames` have been read. */
  function Accumulate(frames: seq<Frame<EmotionAnalysis>>): StatsTable
  {
    FoldFrames(Empty(), Sampled(frames, FrameInterval), FoldEmotion, NewEmotionStats())
  }

  lemma AccumulateConsistent(frames: seq<Frame<EmotionAnalysis>>)
    ensures TableConsistent(Accumulate(frames))
  {
    forall s, a | Consistent(s) || s == NewEmotionStats() ensures Consistent(FoldEmotion(s, a)) {
      FoldEmotionConsistent(s, a);
    }
    FoldFramesKeeps(Empty(), Sampled(frames, FrameInterval), FoldEmotion, NewEmotionStats(), _ => true, Consistent);
  }

  /** The loop breaks after frame number `frameCount` when that frame was
      sampled and 'q' is pressed; skipped frames `continue` before the key is polled. */
  predicate Stops(frameCount: nat, f: Frame<EmotionAnalysis>)
  {
    IsSampled(frameCount, FrameInterval) && f.quitKey
  }

  /** The `face_statistics` dict written for one face. */
  datatype EmotionReport = EmotionReport(
    faceId: string,
    totalFramesProcessed: nat,
    mostCommonEmotion: string,
    emotionCounts: Dict<nat>,
    averageConfidences: Dict<real>,
    embeddingsShape: (nat, nat),
    embeddingExample: Dict<real>)

  function ReportFor(id: string, s: EmotionStats): EmotionReport
    requires Consistent(s)
  {
    EmotionReport(
      id,
      s.totalFrames,
      KeyOfMax(s.emotionCounts, AsReal),
      s.emotionCounts,
      Means(s.emotionConfidences),
      (|s.embeddings|, |s.embeddings[0].keys|),
      s.embeddings[0])
  }

  /** What the report says: the most common emotion is the first in key order
      among the most counted, every average is the mean of its list, the
      embeddings shape starts with the frame counter, and the example is the
      first embedding. */
  lemma ReportContents(id: string, s: EmotionStats)
    requires Consistent(s)
    ensures var rep := ReportFor(id, s);
      && rep.faceId == id
      && rep.totalFramesProcessed == s.totalFrames
      && rep.emotionCounts == s.emotionCounts
      && rep.mostCommonEmotion in s.emotionCounts.vals
      && (forall e :: e in s.emotionCounts.vals ==> s.emotionCounts.vals[e] <= s.emotionCounts.vals[rep.mostCommonEmotion])
      && (forall i :: 0 <= i < |s.emotionCounts.keys|
            && s.emotionCounts.vals[s.emotionCounts.keys[i]] == s.emotionCounts.vals[rep.mostCommonEmotion]
            ==> rep.mostCommonEmotion in s.emotionCounts.keys[..i + 1])
      && rep.averageConfidences.keys == s.emotionConfidences.keys
      && (forall e :: e in s.emotionConfidences.vals
            ==> e in rep.averageConfidences.vals && rep.averageConfidences.vals[e] == Mean(s.emotionConfidences.vals[e]))
      && rep.embeddingsShape == (s.totalFrames, |s.embeddings[0].keys|)
      && rep.embeddingExample == s.embeddings[0]
  {
  }

  /** Every average lies in the range the classifier's scores lie in. */
  lemma AveragesInRange(id: string, s: EmotionStats, lo: real, hi: real)
    requires Consistent(s)
    requires forall e, i :: e in s.emotionConfidences.vals && 0 <= i < |s.emotionConfidences.vals[e]|
               ==> lo <= s.emotionConfidences.vals[e][i] <= hi
    ensures forall e :: e in ReportFor(id, s).averageConfidences.vals
              ==> lo <= ReportFor(id, s).averageConfidences.vals[e] <= hi
  {
    var avg := ReportFor(id, s).averageConfidences;
    forall e | e in avg.vals ensures lo <= avg.vals[e] <= hi {
      MeanBounds(s.emotionConfidences.vals[e], lo, hi);
    }
  }

  /** Lines 99-122: one report per entry, in key order. */
  method WriteReports(t: StatsTable) returns (reports: seq<EmotionReport>)
    requires TableConsistent(t)
    ensures reports == MapItems(t, |t.keys|, ReportFor)
  {
    reports := [];
    for i := 0 to |t.keys|
      invariant reports == MapItems(t, i, ReportFor)
    {
      var id := t.keys[i];
      var report := ReportFor(id, t.vals[id]);
      reports := reports + [report];
    }
  }

  /** The per-face files and the overall summary. */
  datatype Output = Output(reports: seq<EmotionReport>, overall: OverallStats)

  /** What the script writes once it has read the frames `read`. */
  function Written(read: seq<Frame<EmotionAnalysis>>): (out: Output)
    ensures out.overall.totalFramesProcessed == |read|
  {
    var t := Accumulate(read);
    AccumulateConsistent(read);
    Output(MapItems(t, |t.keys|, ReportFor), OverallStats(|read|, |t.keys|, t.keys))
  }

  /** The whole script: None when it calls `exit()` because the video file is
      missing or cannot be opened. */
  function Run(video: Video<EmotionAnalysis>): Option<Output>
  {
    if !video.isOpen then None
    else Some(Written(video.frames[..FramesRead(video.frames, Stops)]))
  }

  /** Lines 62-87: one face of a sampled frame. */
  method AnalyseFace(faceStats: StatsTable, detection: Detection<EmotionAnalysis>) returns (r: StatsTable)
    ensures r == FoldDetection(faceStats, detection, FoldEmotion, NewEmotionStats())
  {
    r := faceStats;
    if detection.analysis.None? {
      return;
    }
    var id := detection.faceId;
    if id !in r.vals {
      r := Put(r, id, NewEmotionStats());
    }
    var s := UpdateStats(r.vals[id], detection.analysis.value);
    r := Put(r, id, s);
    PutTwice(faceStats, id, NewEmotionStats(), s);
  }

  /** Lines 76-81 on the entry `face_stats[face_id]`. */
  method UpdateStats(entry: EmotionStats, a: EmotionAnalysis) returns (s: EmotionStats)
    ensures s == FoldEmotion(entry, a)
  {
    s := entry.(totalFrames := entry.totalFrames + 1);
    s := s.(emotionCounts := Increment(s.emotionCounts, a.dominantEmotion));
    var confidences := AppendEach(s.emotionConfidences, a.emotion);
    s := s.(emotionConfidences := confidences);
    s := s.(embeddings := s.embeddings + [a.emotion]);
  }

  /** Lines 52-87: the faces of one sampled frame. */
  method AnalyseFrame(faceStats: StatsTable, frame: Frame<EmotionAnalysis>) returns (r: StatsTable)
    ensures r == FoldFaces(faceStats, frame.faces, FoldEmotion, NewEmotionStats())
  {
    r := faceStats;
    for j := 0 to |frame.faces|
      invariant r == FoldFaces(faceStats, frame.faces[..j], FoldEmotion, NewEmotionStats())
    {
      assert frame.faces[..j + 1][..j] == frame.faces[..j];
      r := AnalyseFace(r, frame.faces[j]);
    }
    assert frame.faces[..|frame.faces|] == frame.faces;
  }

  /** The module-level script, with the files it writes returned as values. */
  method RunScript(video: Video<EmotionAnalysis>) returns (out: Option<Output>)
    ensures out == Run(video)
  {
    if !video.isOpen {
      return None;
    }
    var faceStats: StatsTable := Empty();
    var frameCount := 0;
    while true
      invariant 0 <= frameCount <= |video.frames|
      invariant forall i :: 0 <= i < frameCount ==> !Stops(i + 1, video.frames[i])
      invariant faceStats == Accumulate(video.frames[..frameCount])
      decreases |video.frames| - frameCount
    {
      if frameCount == |video.frames| {
        break;
      }
      ghost var j := frameCount;
      var frame := video.frames[frameCount];
      frameCount := frameCount + 1;
      SampledStep(video.frames, frameCount, FrameInterval);
      ghost var before := Sampled(video.frames[..j], FrameInterval);
      if frameCount % FrameInterval != 0 {
        assert Sampled(video.frames[..frameCount], FrameInterval) == before + [];
        assert before + [] == before;
        assert !Stops(j + 1, video.frames[j]);
        continue;
      }
      assert Sampled(video.frames[..frameCount], FrameInterval) == before + [frame];
      FoldFramesSnoc(Empty(), before, frame, FoldEmotion, NewEmotionStats());
      faceStats := AnalyseFrame(faceStats, frame);
      if frame.quitKey {
        break;
      }
      assert !Stops(j + 1, video.frames[j]);
    }
    FramesReadUnique(video.frames, Stops, frameCount);
    AccumulateConsistent(video.frames[..frameCount]);
    var reports := WriteReports(faceStats);
    return Some(Output(reports, OverallStats(frameCount, |faceStats.keys|, faceStats.keys)));
  }

  // ---------------------------------------------------------------------------
  // Properties of whole runs

  /** The script exits before reading when the video cannot be opened; otherwise
      it reads up to the first sampled frame at which 'q' is pressed, and to the
      end of the stream when there is none. */
  lemma RunReads(video: Video<EmotionAnalysis>)
    ensures Run(video).None? <==> !video.isOpen
    ensures Run(video).Some? ==> var n := Run(video).value.overall.totalFramesProcessed;
      && n <= |video.frames|
      && (forall i :: 0 <= i < n - 1 ==> !(IsSampled(i + 1, FrameInterval) && video.frames[i].quitKey))
      && (n < |video.frames| ==> n >= 1 && IsSampled(n, FrameInterval) && video.frames[n - 1].quitKey)
  {
    if video.isOpen {
      var n := FramesRead(video.frames, Stops);
      assert Run(video).value.overall.totalFramesProcessed == n;
      forall i: nat | i + 1 < n ensures !(IsSampled(i + 1, FrameInterval) && video.frames[i].quitKey) {
        assert !Stops(i + 1, video.frames[i]);
      }
    }
  }

  /** Of the frames read, exactly one in 25 reaches the detector. */
  lemma AnalysedFrameCount(video: Video<EmotionAnalysis>)
    requires video.isOpen
    ensures var n := Run(video).value.overall.totalFramesProcessed;
      |Sampled(video.frames[..n], FrameInterval)| == n / 25
  {
    var n := Run(video).value.overall.totalFramesProcessed;
    SampledCount(video.frames[..n], FrameInterval);
  }

  /** Only the sampled frames matter: frames the rule skips, their faces and
      their key presses included, do not change anything the script writes. */
  lemma SkippedFramesIgnored(video: Video<EmotionAnalysis>, other: Video<EmotionAnalysis>)
    requires video.isOpen == other.isOpen && |video.frames| == |other.frames|
    requires forall i :: 0 <= i < |video.frames| && IsSampled(i + 1, FrameInterval) ==> video.frames[i] == other.frames[i]
    ensures Run(video) == Run(other)
  {
    if video.isOpen {
      var n := FramesRead(video.frames, Stops);
      assert forall i :: 0 <= i < |video.frames| ==> Stops(i + 1, video.frames[i]) == Stops(i + 1, other.frames[i]);
      FramesReadUnique(other.frames, Stops, n);
      SampledIgnoresSkipped(video.frames[..n], other.frames[..n], FrameInterval);
    }
  }

  /** The summary counts every frame read, lists the labels analysed in
      first-seen order with their number, and there is one report per label in
      the same order, each with as many embeddings as analysed frames. */
  lemma RunSummary(video: Video<EmotionAnalysis>)
    requires video.isOpen
    ensures var out := Run(video).value;
      var n := out.overall.totalFramesProcessed;
      && out.overall.faces == Dedup(AnalysedIdsOfFrames(Sampled(video.frames[..n], FrameInterval)))
      && out.overall.totalFacesDetected == |out.overall.faces|
      && |out.reports| == |out.overall.faces|
      && forall i :: 0 <= i < |out.reports| ==>
           && out.reports[i].faceId == out.overall.faces[i]
           && out.reports[i].embeddingsShape.0 == out.reports[i].totalFramesProcessed >= 1
  {
    var n := FramesRead(video.frames, Stops);
    var t := Accumulate(video.frames[..n]);
    AccumulateConsistent(video.frames[..n]);
    FoldFramesKeysFromEmpty(Sampled(video.frames[..n], FrameInterval), FoldEmotion, NewEmotionStats());
    forall i | 0 <= i < |t.keys|
      ensures MapItems(t, |t.keys|, ReportFor)[i].faceId == t.keys[i]
      ensures MapItems(t, |t.keys|, ReportFor)[i].embeddingsShape.0 == MapItems(t, |t.keys|, ReportFor)[i].totalFramesProcessed >= 1
    {
      ReportContents(t.keys[i], t.vals[t.keys[i]]);
    }
  }
}
