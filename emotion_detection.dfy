/** `process_video` of app/utils/emotion_detection.py: read every frame, send every
    `frame_interval`-th one to the face detector, classify each face, fold each
    classification into the `face_stats` entry of its face label, and reduce every
    entry to a per-face report plus an overall summary. */
module EmotionDetection {
  import opened PyDict
  import opened Aggregates
  import opened Pipeline

  /** What the classifier returns for one face when asked for emotion, age,
      gender and race, with the outcome of encoding its thumbnail: None when
      `cv2.imencode` raises. */
  datatype FaceAnalysis = FaceAnalysis(
    dominantEmotion: string,
    emotion: Dict<real>,
    age: real,
    gender: Dict<real>,
    race: Dict<real>,
    thumbnail: Option<string>)

  /** One entry of `face_stats`. */
  datatype FaceStats = FaceStats(
    totalFrames: nat,
    emotionCounts: Dict<nat>,
    emotionConfidences: Dict<seq<real>>,
    age: seq<real>,
    gender: seq<string>,
    race: Dict<seq<real>>,
    embeddings: seq<Dict<real>>,
    thumbnails: seq<string>)

  /** `face_stats`: face label to entry, labels in the order they were first stored. */
  type FaceTable = Dict<FaceStats>

  /** The entry created the first time a face label is analysed. */
  function NewFaceStats(): FaceStats
  {
    FaceStats(0, Empty(), Empty(), [], [], Empty(), [], [])
  }

  /** Lines 77-81: one more frame, one more count for the dominant emotion (so the
      counts sum to one more), one more score for each emotion key, one more age,
      and nothing else changed. */
  function CountFrame(s: FaceStats, a: FaceAnalysis): (r: FaceStats)
    ensures r.totalFrames == s.totalFrames + 1
    ensures r.emotionCounts == Increment(s.emotionCounts, a.dominantEmotion)
    ensures a.dominantEmotion in r.emotionCounts.vals && SumValues(r.emotionCounts) == SumValues(s.emotionCounts) + 1
    ensures r.emotionConfidences == AppendScores(s.emotionConfidences, a.emotion)
    ensures r.age == s.age + [a.age]
    ensures r.gender == s.gender && r.race == s.race && r.embeddings == s.embeddings && r.thumbnails == s.thumbnails
  {
    IncrementSum(s.emotionCounts, a.dominantEmotion);
    s.(totalFrames := s.totalFrames + 1,
       emotionCounts := Increment(s.emotionCounts, a.dominantEmotion),
       emotionConfidences := AppendScores(s.emotionConfidences, a.emotion),
       age := s.age + [a.age])
  }

  /** Lines 84-89, once the gender dict is known to be non-empty: one more gender,
      a key of the gender dict scoring at least as high as every other; one more
      score for each race key; the emotion dict as one more embedding; nothing
      else changed. */
  function Describe(s: FaceStats, a: FaceAnalysis): (r: FaceStats)
    requires |a.gender.keys| > 0
    ensures |r.gender| == |s.gender| + 1 && r.gender[..|s.gender|] == s.gender
    ensures r.gender[|s.gender|] in a.gender.vals
    ensures forall g :: g in a.gender.vals ==> a.gender.vals[g] <= a.gender.vals[r.gender[|s.gender|]]
    ensures r.race == AppendScores(s.race, a.race)
    ensures r.embeddings == s.embeddings + [a.emotion]
    ensures && r.totalFrames == s.totalFrames && r.emotionCounts == s.emotionCounts
            && r.emotionConfidences == s.emotionConfidences && r.age == s.age && r.thumbnails == s.thumbnails
  {
    s.(gender := s.gender + [KeyOfMax(a.gender, Itself)],
       race := AppendScores(s.race, a.race),
       embeddings := s.embeddings + [a.emotion])
  }

  /** The updates made to one entry by one analysis, up to the first statement
      that raises: picking the dominant gender raises on an empty gender dict
      after lines 77-81, and `cv2.imencode` raises after everything but the
      thumbnail is stored. So every analysis counts a frame and an age, one with a
      gender dict adds a gender and an embedding, and only one that raises nowhere
      adds a thumbnail. */
  function FoldAnalysis(s: FaceStats, a: FaceAnalysis): (r: FaceStats)
    ensures r.totalFrames == s.totalFrames + 1 && r.age == s.age + [a.age]
    ensures |r.gender| == |s.gender| + (if |a.gender.keys| > 0 then 1 else 0) && r.gender[..|s.gender|] == s.gender
    ensures r.embeddings == s.embeddings + (if |a.gender.keys| > 0 then [a.emotion] else [])
    ensures r.thumbnails == s.thumbnails + (if FullySucceeds(a) then [a.thumbnail.value] else [])
  {
    var counted := CountFrame(s, a);
    if |a.gender.keys| == 0 then counted
    else
      var described := Describe(counted, a);
      match a.thumbnail
      case None => described
      case Some(thumb) => described.(thumbnails := described.thumbnails + [thumb])
  }

  /** `face_stats` once the frames have been read with a non-zero interval. */
  function Accumulate(frames: seq<Frame<FaceAnalysis>>, interval: int): FaceTable
    requires interval != 0
  {
    FoldFrames(Empty(), Sampled(frames, interval), FoldAnalysis, NewFaceStats())
  }

  // ---------------------------------------------------------------------------
  // Invariants of the entries

  /** What holds of every entry after any sequence of folds, partial ones included. */
  ghost predicate Consistent(s: FaceStats)
  {
    && s.totalFrames >= 1
    && |s.emotionCounts.keys| > 0
    && SumValues(s.emotionCounts) == s.totalFrames
    && |s.age| == s.totalFrames
    && |s.gender| == |s.embeddings| <= |s.age|
    && |s.thumbnails| <= |s.embeddings|
    && (forall e :: e in s.emotionConfidences.vals ==> 1 <= |s.emotionConfidences.vals[e]| <= s.totalFrames)
    && (forall r :: r in s.race.vals ==> 1 <= |s.race.vals[r]| <= |s.gender|)
  }

  ghost predicate TableConsistent(t: FaceTable)
  {
    forall id :: id in t.vals ==> Consistent(t.vals[id])
  }

  /** Every analysis of the entry went through to the end. */
  ghost predicate Complete(s: FaceStats)
  {
    |s.gender| == |s.embeddings| == |s.thumbnails| == |s.age| == s.totalFrames
  }

  /** The analysis raises nowhere in lines 77-93. */
  predicate FullySucceeds(a: FaceAnalysis)
  {
    |a.gender.keys| > 0 && a.thumbnail.Some?
  }

  lemma AppendScoresBounds<T>(d: Dict<seq<T>>, scores: Dict<T>, bound: nat)
    requires forall k :: k in d.vals ==> 1 <= |d.vals[k]| <= bound
    ensures forall k :: k in AppendScores(d, scores).vals ==> 1 <= |AppendScores(d, scores).vals[k]| <= bound + 1
  {
    var r := AppendScores(d, scores);
    forall k | k in r.vals ensures 1 <= |r.vals[k]| <= bound + 1 {
      assert k in r.keys;
      assert k in d.keys + scores.keys;
      assert GetOr(r, k, []) == r.vals[k];
    }
  }

  lemma CountFrameConsistent(s: FaceStats, a: FaceAnalysis)
    requires Consistent(s) || s == NewFaceStats()
    ensures var r := CountFrame(s, a);
      && r.totalFrames >= 1
      && |r.emotionCounts.keys| > 0
      && SumValues(r.emotionCounts) == r.totalFrames
      && |r.age| == r.totalFrames
      && |r.gender| == |r.embeddings| < |r.age|
      && |r.thumbnails| <= |r.embeddings|
      && (forall e :: e in r.emotionConfidences.vals ==> 1 <= |r.emotionConfidences.vals[e]| <= r.totalFrames)
      && (forall k :: k in r.race.vals ==> 1 <= |r.race.vals[k]| <= |r.gender|)
  {
    var r := CountFrame(s, a);
    IncrementSum(s.emotionCounts, a.dominantEmotion);
    assert a.dominantEmotion in r.emotionCounts.vals;
    assert s == NewFaceStats() ==> SumValues(s.emotionCounts) == 0;
    AppendScoresBounds(s.emotionConfidences, a.emotion, s.totalFrames);
  }

  lemma DescribeConsistent(s: FaceStats, a: FaceAnalysis)
    requires |a.gender.keys| > 0
    requires && s.totalFrames >= 1
             && |s.gender| == |s.embeddings| < |s.age|
             && |s.thumbnails| <= |s.embeddings|
             && (forall k :: k in s.race.vals ==> 1 <= |s.race.vals[k]| <= |s.gender|)
    ensures var r := Describe(s, a);
      && r.gender == s.gender + [KeyOfMax(a.gender, Itself)]
      && r.race == AppendScores(s.race, a.race)
      && r.embeddings == s.embeddings + [a.emotion]
      && r.totalFrames == s.totalFrames && r.emotionCounts == s.emotionCounts
      && r.emotionConfidences == s.emotionConfidences && r.age == s.age && r.thumbnails == s.thumbnails
      && |r.gender| == |r.embeddings| <= |r.age|
      && |r.thumbnails| < |r.embeddings|
      && (forall k :: k in r.race.vals ==> 1 <= |r.race.vals[k]| <= |r.gender|)
  {
    AppendScoresBounds(s.race, a.race, |s.gender|);
  }

  /** Every fold, whether it raises part-way or not, keeps an entry consistent:
      the frame counter, the sum of the dominant-emotion counts and the number of
      ages move together, and no stored list is empty. */
  lemma FoldAnalysisConsistent(s: FaceStats, a: FaceAnalysis)
    requires Consistent(s) || s == NewFaceStats()
    ensures Consistent(FoldAnalysis(s, a))
  {
    var counted := CountFrame(s, a);
    CountFrameConsistent(s, a);
    if |a.gender.keys| == 0 {
      assert FoldAnalysis(s, a) == counted;
    } else {
      var described := Describe(counted, a);
      DescribeConsistent(counted, a);
      assert described.(gender := counted.gender, race := counted.race, embeddings := counted.embeddings) == counted;
      match a.thumbnail {
        case None =>
          assert FoldAnalysis(s, a) == described;
        case Some(thumb) =>
          var stored := described.(thumbnails := described.thumbnails + [thumb]);
          assert FoldAnalysis(s, a) == stored;
          assert stored.(thumbnails := described.thumbnails) == described;
      }
    }
  }

  lemma FoldAnalysisComplete(s: FaceStats, a: FaceAnalysis)
    requires Complete(s) && FullySucceeds(a)
    ensures Complete(FoldAnalysis(s, a))
  {
  }

  /** A fully successful analysis adds one frame, one count for its dominant
      emotion, one score to the list of each of its emotion and race keys and one
      age, gender, embedding and thumbnail, and changes nothing else. */
  lemma FullFoldAppendsOne(s: FaceStats, a: FaceAnalysis, e: string, rk: string)
    requires FullySucceeds(a)
    ensures var r := FoldAnalysis(s, a);
      && r.totalFrames == s.totalFrames + 1
      && GetOr(r.emotionCounts, e, 0) == GetOr(s.emotionCounts, e, 0) + (if e == a.dominantEmotion then 1 else 0)
      && GetOr(r.emotionConfidences, e, [])
         == GetOr(s.emotionConfidences, e, []) + (if e in a.emotion.vals then [a.emotion.vals[e]] else [])
      && GetOr(r.race, rk, []) == GetOr(s.race, rk, []) + (if rk in a.race.vals then [a.race.vals[rk]] else [])
      && r.age == s.age + [a.age]
      && r.gender == s.gender + [KeyOfMax(a.gender, Itself)]
      && r.embeddings == s.embeddings + [a.emotion]
      && r.thumbnails == s.thumbnails + [a.thumbnail.value]
  {
    var counted := CountFrame(s, a);
    var described := Describe(counted, a);
    assert FoldAnalysis(s, a) == described.(thumbnails := described.thumbnails + [a.thumbnail.value]);
    IncrementAt(s.emotionCounts, a.dominantEmotion, e);
    assert GetOr(described.race, rk, []) == GetOr(s.race, rk, []) + (if rk in a.race.vals then [a.race.vals[rk]] else []);
  }

  /** When the gender dict is empty the fold stops at the dominant gender: the frame,
      emotion and age updates stay, and gender, race, embeddings and thumbnails are
      untouched. */
  lemma GenderFailureKeepsEarlierUpdates(s: FaceStats, a: FaceAnalysis)
    requires |a.gender.keys| == 0
    ensures var r := FoldAnalysis(s, a);
      && r.totalFrames == s.totalFrames + 1
      && r.emotionCounts == Increment(s.emotionCounts, a.dominantEmotion)
      && r.emotionConfidences == AppendScores(s.emotionConfidences, a.emotion)
      && r.age == s.age + [a.age]
      && r.gender == s.gender && r.race == s.race
      && r.embeddings == s.embeddings && r.thumbnails == s.thumbnails
  {
  }

  /** When `cv2.imencode` raises, everything but the thumbnail has been stored:
      the frame, emotion and age updates, the dominant gender, the race scores and
      the embedding stay, and the thumbnails are untouched. */
  lemma ThumbnailFailureKeepsEarlierUpdates(s: FaceStats, a: FaceAnalysis, rk: string)
    requires |a.gender.keys| > 0 && a.thumbnail.None?
    ensures var r := FoldAnalysis(s, a);
      && r.totalFrames == s.totalFrames + 1
      && r.emotionCounts == Increment(s.emotionCounts, a.dominantEmotion)
      && r.emotionConfidences == AppendScores(s.emotionConfidences, a.emotion)
      && r.age == s.age + [a.age]
      && r.gender == s.gender + [KeyOfMax(a.gender, Itself)]
      && GetOr(r.race, rk, []) == GetOr(s.race, rk, []) + (if rk in a.race.vals then [a.race.vals[rk]] else [])
      && r.embeddings == s.embeddings + [a.emotion]
      && r.thumbnails == s.thumbnails
  {
    assert FoldAnalysis(s, a) == Describe(CountFrame(s, a), a);
  }

  /** Every entry of `face_stats` is consistent whatever the classifier did. */
  lemma AccumulateConsistent(frames: seq<Frame<FaceAnalysis>>, interval: int)
    requires interval != 0
    ensures TableConsistent(Accumulate(frames, interval))
  {
    forall s, a | Consistent(s) || s == NewFaceStats() ensures Consistent(FoldAnalysis(s, a)) {
      FoldAnalysisConsistent(s, a);
    }
    FoldFramesKeeps(Empty(), Sampled(frames, interval), FoldAnalysis, NewFaceStats(), _ => true, Consistent);
  }

  // ---------------------------------------------------------------------------
  // Reduction

  /** The `face_statistics` dict written for one face. */
  datatype FaceReport = FaceReport(
    faceId: string,
    totalFramesProcessed: nat,
    mostCommonEmotion: string,
    emotionCounts: Dict<nat>,
    averageConfidences: Dict<real>,
    averageAge: real,
    mostCommonGender: string,
    averageRace: Dict<real>,
    embeddingsShape: (nat, nat),
    embeddingExample: Dict<real>,
    thumbnails: seq<string>)

  /** The report of one entry; None when picking the most common gender raises
      because no analysis of the face got as far as storing a gender. */
  function ReportFor(id: string, s: FaceStats): (r: Option<FaceReport>)
    requires Consistent(s)
    ensures r.Some? <==> |s.gender| > 0
  {
    if |s.gender| == 0 then None
    else
      Some(FaceReport(
        id,
        s.totalFrames,
        KeyOfMax(s.emotionCounts, AsReal),
        s.emotionCounts,
        Means(s.emotionConfidences),
        Mean(s.age),
        MostFrequent(s.gender),
        Means(s.race),
        (|s.embeddings|, |s.embeddings[0].keys|),
        s.embeddings[0],
        s.thumbnails))
  }

  /** What the written report says: the counts as stored, the most common emotion
      (the first in key order among the most counted), the mean of every score
      list and of the ages, a most frequent gender, the number of embeddings and
      the first one, and the thumbnails. */
  lemma ReportContents(id: string, s: FaceStats)
    requires Consistent(s) && |s.gender| > 0
    ensures ReportFor(id, s).Some?
    ensures var rep := ReportFor(id, s).value;
      && rep.faceId == id
      && rep.totalFramesProcessed == s.totalFrames
      && rep.emotionCounts == s.emotionCounts
      && rep.mostCommonEmotion in s.emotionCounts.vals
      && (forall e :: e in s.emotionCounts.vals ==> s.emotionCounts.vals[e] <= s.emotionCounts.vals[rep.mostCommonEmotion])
      && (forall i :: 0 <= i < |s.emotionCounts.keys|
            && s.emotionCounts.vals[s.emotionCounts.keys[i]] == s.emotionCounts.vals[rep.mostCommonEmotion]
            ==> rep.mostCommonEmotion in s.emotionCounts.keys[..i + 1])
      && rep.averageConfidences.keys == s.emotionConfidences.keys
      && (forall e :: e in s.emotionConfidences.vals
            ==> e in rep.averageConfidences.vals && rep.averageConfidences.vals[e] == Mean(s.emotionConfidences.vals[e]))
      && rep.averageAge == Mean(s.age)
      && rep.mostCommonGender in s.gender
      && (forall g :: g in s.gender ==> Count(s.gender, g) <= Count(s.gender, rep.mostCommonGender))
      && rep.averageRace.keys == s.race.keys
      && (forall k :: k in s.race.vals ==> k in rep.averageRace.vals && rep.averageRace.vals[k] == Mean(s.race.vals[k]))
      && rep.embeddingsShape == (|s.embeddings|, |s.embeddings[0].keys|)
      && rep.embeddingExample == s.embeddings[0]
      && rep.thumbnails == s.thumbnails
  {
  }

  /** For an entry whose analyses all went through, the embeddings shape starts
      with the number of analysed frames. */
  lemma ShapeCountsFrames(id: string, s: FaceStats)
    requires Consistent(s) && Complete(s)
    ensures ReportFor(id, s).Some?
    ensures ReportFor(id, s).value.embeddingsShape.0 == s.totalFrames
    ensures |ReportFor(id, s).value.thumbnails| == s.totalFrames
  {
  }

  /** The loop writing one report per entry: all of them, or those before the
      first entry whose report raises, and that entry's label. */
  datatype Reduction<R> = Written(reports: seq<R>) | Aborted(written: seq<R>, faceId: string)

  /** The reduction loop over labels `ids`, where `outs[i]` is the report of
      `ids[i]`, None when building it raises. It writes every report, in order,
      when none raises; otherwise it writes those before the first one that
      raises and names that label. */
  function Reduce<R>(ids: seq<string>, outs: seq<Option<R>>): (r: Reduction<R>)
    requires |ids| == |outs|
    ensures r.Written? <==> forall i :: 0 <= i < |outs| ==> outs[i].Some?
    ensures r.Written? ==> |r.reports| == |outs| && forall i :: 0 <= i < |outs| ==> outs[i] == Some(r.reports[i])
    ensures r.Aborted? ==>
      && |r.written| < |outs|
      && r.faceId == ids[|r.written|]
      && outs[|r.written|].None?
      && forall i :: 0 <= i < |r.written| ==> outs[i] == Some(r.written[i])
  {
    if outs == [] then Written([])
    else
      var n := |outs|;
      var ids', outs' := ids[..n - 1], outs[..n - 1];
      assert forall i :: 0 <= i < n - 1 ==> outs'[i] == outs[i] && ids'[i] == ids[i];
      match Reduce(ids', outs')
      case Aborted(w, id) => Aborted(w, id)
      case Written(rs) =>
        match outs[n - 1]
        case None => Aborted(rs, ids[n - 1])
        case Some(rep) => Written(rs + [rep])
  }

  /** One more round of the reduction loop after rounds that all went through. */
  lemma ReduceStep<R>(ids: seq<string>, outs: seq<Option<R>>, i: nat)
    requires |ids| == |outs| && i < |outs|
    requires Reduce(ids[..i], outs[..i]).Written?
    ensures Reduce(ids[..i + 1], outs[..i + 1])
         == if outs[i].None? then Aborted(Reduce(ids[..i], outs[..i]).reports, ids[i])
            else Written(Reduce(ids[..i], outs[..i]).reports + [outs[i].value])
  {
    assert ids[..i + 1][..i] == ids[..i] && outs[..i + 1][..i] == outs[..i];
  }

  /** Once a report raises, the later entries are never reached. */
  lemma {:induction false} ReduceStaysAborted<R>(ids: seq<string>, outs: seq<Option<R>>, m: nat)
    requires |ids| == |outs| && m <= |outs|
    requires Reduce(ids[..m], outs[..m]).Aborted?
    ensures Reduce(ids, outs) == Reduce(ids[..m], outs[..m])
  {
    var n := |outs|;
    if m == n {
      assert ids[..m] == ids && outs[..m] == outs;
    } else {
      var ids', outs' := ids[..n - 1], outs[..n - 1];
      assert Reduce(ids', outs') == Reduce(ids[..m], outs[..m]) by {
        assert ids'[..m] == ids[..m] && outs'[..m] == outs[..m];
        ReduceStaysAborted(ids', outs', m);
      }
      assert Reduce(ids, outs) == Reduce(ids', outs') by {
        ReduceAbortedLast(ids, outs);
      }
    }
  }

  /** An aborted reduction of all entries but the last is the reduction of all of them. */
  lemma ReduceAbortedLast<R>(ids: seq<string>, outs: seq<Option<R>>)
    requires |ids| == |outs| > 0
    requires Reduce(ids[..|outs| - 1], outs[..|outs| - 1]).Aborted?
    ensures Reduce(ids, outs) == Reduce(ids[..|outs| - 1], outs[..|outs| - 1])
  {
  }

  /** The report of every entry of `face_stats`, in key order. */
  function Reports(t: FaceTable): seq<Option<FaceReport>>
    requires TableConsistent(t)
  {
    MapItems(t, |t.keys|, ReportFor)
  }

  /** The loop over the entries of `face_stats`: each iteration builds
      the report of one entry with `report` and writes it; an exception ends
      the loop and the call. */
  method WriteReports<S, R>(t: Dict<S>, report: (string, S) --> Option<R>) returns (red: Reduction<R>)
    requires forall k :: k in t.vals ==> report.requires(k, t.vals[k])
    ensures red == Reduce(t.keys, MapItems(t, |t.keys|, report))
  {
    ghost var outs := MapItems(t, |t.keys|, report);
    var reports := [];
    for i := 0 to |t.keys|
      invariant Reduce(t.keys[..i], outs[..i]) == Written(reports)
    {
      var id := t.keys[i];
      var out := report(id, t.vals[id]);
      assert out == outs[i];
      ReduceStep(t.keys, outs, i);
      if out.None? {
        ReduceStaysAborted(t.keys, outs, i + 1);
        return Aborted(reports, id);
      }
      reports := reports + [out.value];
    }
    assert t.keys[..|t.keys|] == t.keys && outs[..|t.keys|] == outs;
    return Written(reports);
  }

  // ---------------------------------------------------------------------------
  // The whole call

  /** How `process_video` ends. */
  datatype RunOutcome =
    | CannotOpen                                            // ValueError before any frame is read
    | ZeroInterval                                          // ZeroDivisionError on the first frame read
    | ReportFailed(written: seq<FaceReport>, faceId: string) // ValueError while reducing `faceId`
    | Completed(reports: seq<FaceReport>, overall: OverallStats)

  /** `face_stats` when the loop ends normally. */
  function Accumulated(frames: seq<Frame<FaceAnalysis>>, interval: int): (t: FaceTable)
    requires interval != 0 || frames == []
    ensures TableConsistent(t)
  {
    if interval == 0 then Empty()
    else AccumulateConsistent(frames, interval); Accumulate(frames, interval)
  }

  /** `process_video`: it fails before reading when the video cannot be opened, and
      on the first frame when the interval is zero; otherwise it reads every
      frame, and a completed call counts them all. */
  function Run(video: Video<FaceAnalysis>, interval: int): (r: RunOutcome)
    ensures r == CannotOpen <==> !video.isOpen
    ensures r == ZeroInterval <==> video.isOpen && interval == 0 && video.frames != []
    ensures r.Completed? ==> r.overall.totalFramesProcessed == |video.frames|
  {
    if !video.isOpen then CannotOpen
    else if interval == 0 && video.frames != [] then ZeroInterval
    else
      var t := Accumulated(video.frames, interval);
      match Reduce(t.keys, Reports(t))
      case Aborted(w, id) => ReportFailed(w, id)
      case Written(rs) => Completed(rs, OverallStats(|video.frames|, |t.keys|, t.keys))
  }

  /** One round of the loop over the detector's faces (lines 55-95). */
  method AnalyseFace(faceStats: FaceTable, detection: Detection<FaceAnalysis>) returns (r: FaceTable)
    ensures r == FoldDetection(faceStats, detection, FoldAnalysis, NewFaceStats())
  {
    r := faceStats;
    if detection.analysis.None? {
      return;
    }
    var id := detection.faceId;
    if id !in r.vals {
      r := Put(r, id, NewFaceStats());
    }
    var s := UpdateStats(r.vals[id], detection.analysis.value);
    r := Put(r, id, s);
    PutTwice(faceStats, id, NewFaceStats(), s);
  }

  /** Lines 77-93 on the entry `face_stats[face_id]`: the statements run in
      order until one raises, and what they stored before stays stored. */
  method UpdateStats(entry: FaceStats, a: FaceAnalysis) returns (s: FaceStats)
    ensures s == FoldAnalysis(entry, a)
  {
    s := CountStats(entry, a);
    if |a.gender.keys| == 0 {
      return;
    }
    s := DescribeStats(s, a);
    if a.thumbnail.None? {
      return;
    }
    s := s.(thumbnails := s.thumbnails + [a.thumbnail.value]);
  }

  /** Lines 77-81 on the entry. */
  method CountStats(entry: FaceStats, a: FaceAnalysis) returns (s: FaceStats)
    ensures s == CountFrame(entry, a)
  {
    s := entry.(totalFrames := entry.totalFrames + 1);
    s := s.(emotionCounts := Increment(s.emotionCounts, a.dominantEmotion));
    var confidences := AppendEach(s.emotionConfidences, a.emotion);
    s := s.(emotionConfidences := confidences, age := s.age + [a.age]);
  }

  /** Lines 84-89 on the entry, reached only with a non-empty gender dict. */
  method DescribeStats(entry: FaceStats, a: FaceAnalysis) returns (s: FaceStats)
    requires |a.gender.keys| > 0
    ensures s == Describe(entry, a)
  {
    s := entry.(gender := entry.gender + [KeyOfMax(a.gender, Itself)]);
    var race := AppendEach(s.race, a.race);
    s := s.(race := race, embeddings := s.embeddings + [a.emotion]);
  }

  /** Reading one more frame: it is folded in exactly when it is sampled. */
  lemma AccumulateStep(frames: seq<Frame<FaceAnalysis>>, n: nat, interval: int)
    requires interval != 0 && 1 <= n <= |frames|
    ensures Accumulate(frames[..n], interval)
         == if IsSampled(n, interval) then FoldFaces(Accumulate(frames[..n - 1], interval), frames[n - 1].faces, FoldAnalysis, NewFaceStats())
            else Accumulate(frames[..n - 1], interval)
  {
    var prefix := frames[..n];
    assert prefix[..n - 1] == frames[..n - 1];
    var before := Sampled(frames[..n - 1], interval);
    if IsSampled(n, interval) {
      var after := before + [frames[n - 1]];
      assert after[..|after| - 1] == before;
    } else {
      assert Sampled(prefix, interval) == before + [];
      assert before + [] == before;
    }
  }

  /** The loop over the faces in the detector's answer
      for one sampled frame. */
  method AnalyseFrame(faceStats: FaceTable, frame: Frame<FaceAnalysis>) returns (r: FaceTable)
    ensures r == FoldFaces(faceStats, frame.faces, FoldAnalysis, NewFaceStats())
  {
    r := faceStats;
    for j := 0 to |frame.faces|
      invariant r == FoldFaces(faceStats, frame.faces[..j], FoldAnalysis, NewFaceStats())
    {
      assert frame.faces[..j + 1][..j] == frame.faces[..j];
      r := AnalyseFace(r, frame.faces[j]);
    }
    assert frame.faces[..|frame.faces|] == frame.faces;
  }

  /** `process_video` on an opened video and a frame interval, with the files
      it writes returned as values. */
  method ProcessVideo(video: Video<FaceAnalysis>, frameInterval: int) returns (out: RunOutcome)
    ensures out == Run(video, frameInterval)
  {
    if !video.isOpen {
      return CannotOpen;
    }
    var faceStats: FaceTable := Empty();
    var frameCount := 0;
    while frameCount < |video.frames|
      invariant 0 <= frameCount <= |video.frames|
      invariant frameInterval == 0 ==> frameCount == 0 && faceStats == Empty()
      invariant frameInterval != 0 ==> faceStats == Accumulate(video.frames[..frameCount], frameInterval)
    {
      var frame := video.frames[frameCount];
      frameCount := frameCount + 1;
      if frameInterval == 0 {
        return ZeroInterval;
      }
      AccumulateStep(video.frames, frameCount, frameInterval);
      if frameCount % frameInterval != 0 {
        continue;
      }
      faceStats := AnalyseFrame(faceStats, frame);
    }
    assert video.frames[..frameCount] == video.frames;
    assert faceStats == Accumulated(video.frames, frameInterval);
    var reduction := WriteReports(faceStats, ReportFor);
    match reduction
    case Aborted(written, id) =>
      return ReportFailed(written, id);
    case Written(reports) =>
      return Completed(reports, OverallStats(frameCount, |faceStats.keys|, faceStats.keys));
  }

  // ---------------------------------------------------------------------------
  // Properties of whole runs

  /** The overall summary of a completed run: every frame read is counted, the
      faces are the labels analysed in the sampled frames in first-seen order,
      and there is one report per face, in the same order. */
  lemma RunSummary(video: Video<FaceAnalysis>, interval: int)
    requires Run(video, interval).Completed?
    ensures var o := Run(video, interval).overall;
      && (interval != 0 || video.frames == [])
      && o.totalFramesProcessed == |video.frames|
      && (interval != 0 ==> o.faces == Dedup(AnalysedIdsOfFrames(Sampled(video.frames, interval))))
      && o.totalFacesDetected == |o.faces|
      && |Run(video, interval).reports| == |o.faces|
      && forall i :: 0 <= i < |o.faces| ==> Run(video, interval).reports[i].faceId == o.faces[i]
  {
    var t := Accumulated(video.frames, interval);
    if interval != 0 {
      FoldFramesKeysFromEmpty(Sampled(video.frames, interval), FoldAnalysis, NewFaceStats());
    }
    forall i | 0 <= i < |t.keys| ensures Run(video, interval).reports[i].faceId == t.keys[i] {
      assert Reports(t)[i] == Some(Run(video, interval).reports[i]);
      ReportContents(t.keys[i], t.vals[t.keys[i]]);
    }
  }

  /** When every analysis goes through, no reduction fails and every report's
      embeddings shape and thumbnail list count the frames its face was analysed in. */
  lemma FullySuccessfulRun(video: Video<FaceAnalysis>, interval: int)
    requires video.isOpen && interval != 0
    requires forall f, d :: f in video.frames && d in f.faces && d.analysis.Some? ==> FullySucceeds(d.analysis.value)
    ensures Run(video, interval).Completed?
    ensures forall rep :: rep in Run(video, interval).reports ==>
      rep.embeddingsShape.0 == rep.totalFramesProcessed == |rep.thumbnails|
  {
    var t := Accumulated(video.frames, interval);
    var outs := Reports(t);
    AccumulateComplete(video.frames, interval);
    ReportsCountFrames(t);
    var red := Reduce(t.keys, outs);
    assert red.Written?;
    assert Run(video, interval) == Completed(red.reports, OverallStats(|video.frames|, |t.keys|, t.keys));
    forall rep | rep in red.reports
      ensures rep.embeddingsShape.0 == rep.totalFramesProcessed == |rep.thumbnails|
    {
      var i :| 0 <= i < |red.reports| && red.reports[i] == rep;
      assert outs[i] == Some(rep);
    }
  }

  /** Every entry of a table of complete entries has a report whose embeddings
      shape and thumbnail list count the frames of the entry. */
  lemma ReportsCountFrames(t: FaceTable)
    requires TableConsistent(t)
    requires forall id :: id in t.vals ==> Complete(t.vals[id])
    ensures forall i :: 0 <= i < |Reports(t)| ==>
      && Reports(t)[i].Some?
      && Reports(t)[i].value.embeddingsShape.0 == Reports(t)[i].value.totalFramesProcessed == |Reports(t)[i].value.thumbnails|
  {
    var outs := Reports(t);
    forall i | 0 <= i < |outs|
      ensures outs[i].Some? && outs[i].value.embeddingsShape.0 == outs[i].value.totalFramesProcessed == |outs[i].value.thumbnails|
    {
      ShapeCountsFrames(t.keys[i], t.vals[t.keys[i]]);
    }
  }

  lemma AccumulateComplete(frames: seq<Frame<FaceAnalysis>>, interval: int)
    requires interval != 0
    requires forall f, d :: f in frames && d in f.faces && d.analysis.Some? ==> FullySucceeds(d.analysis.value)
    ensures forall id :: id in Accumulate(frames, interval).vals ==> Complete(Accumulate(frames, interval).vals[id])
  {
    SampledMembers(frames, interval);
    forall s, a | (Complete(s) || s == NewFaceStats()) && FullySucceeds(a) ensures Complete(FoldAnalysis(s, a)) {
      FoldAnalysisComplete(s, a);
    }
    FoldFramesKeeps(Empty(), Sampled(frames, interval), FoldAnalysis, NewFaceStats(), FullySucceeds, Complete);
  }
}
