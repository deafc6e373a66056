# Per-face emotion statistics, modelled in Dafny

This project models the statistics part of a video emotion-recognition repository. A
video is a sequence of frames. An external face detector labels the faces of a frame,
and an external classifier analyses each face. The model covers three programs that
fold these answers into dictionaries and reduce them to reports:

- `process_video` in `app/utils/emotion_detection.py` (module `EmotionDetection`).
  It reads every frame and sends every `frame_interval`-th frame to the detector. It
  folds each face's emotion, age, gender, race and thumbnail into the `face_stats`
  entry of its label, then reduces every entry to a per-face report and writes an
  overall summary.
- `convert_float32_to_float` in the same file (module `Float32Conversion`). This tree
  map turns numpy float32 leaves into Python floats inside dicts and lists.
- `app/emotion_detection_retina.py` (module `RetinaScript`). This is the emotion-only
  version of the same fold at a fixed interval of 25. The 'q' key is polled only after
  a sampled frame.
- `My-App/main.py` (module `PooledScript`). Every frame is analysed, and the scores of
  every face are pooled into one dict from emotion name to score list. The script then
  prints the mean of each list.

Shared parts:

- `PyDict` models Python's insertion-ordered `dict` and `defaultdict`: the keys in
  insertion order plus a map.
- `Aggregates` holds `np.mean` as an exact quotient of reals, and `max(..., key=...)`.
- `Pipeline` holds the input datatypes (video, frame, detection) and the frame-sampling
  rule. It also holds a generic per-face fold, used by both `process_video` and the
  retina script, and the count of frames a loop reads before it breaks.

The detector, the classifier and the key press are inputs. A `Frame` carries the
detector's faces in dict order and whether 'q' is read after it. A `Detection` carries
the face label and the classifier's answer, or None when the classifier call raised.

Each loop is a method proved equal to a specification function:

| method | specification function |
|---|---|
| `ProcessVideo` | `Run` |
| `RunScript` | `Run` |
| `AnalyseFrame` | `FoldFaces` |
| `AnalyseFace` | `FoldDetection` |
| `UpdateStats` | `FoldAnalysis` (retina script: `FoldEmotion`) |
| `CountStats` / `DescribeStats` | `CountFrame` / `Describe` |
| `AppendEach` / `PoolScores` | `AppendScores` |
| `WriteReports` / `PrintAverages` | the reduction |

The properties are lemmas about those functions.

`process_video` keeps the source's partial updates. Lines 77-93 run inside the `try`, so
when the gender dict is empty, `max(gender, ...)` raises after lines 77-81 have stored
their updates. When `cv2.imencode` raises, everything but the thumbnail has been stored.
Two consequences:

- `FoldAnalysis` models these partial updates.
- The reduction can raise at `max(set(stats["gender"]), ...)` for a face whose analyses
  never stored a gender. The call then stops with the reports written so far
  (`Reduction`, `RunOutcome.ReportFailed`).

`frame_interval == 0` raises `ZeroDivisionError` on the first frame read. It is
modelled as the `ZeroInterval` outcome, not excluded by a precondition: an empty video
with interval 0 completes normally, as the code does.

On ties, `max(d, key=d.get)` returns the first tied key in insertion order
(`Aggregates.KeyOfMax`). `max(set(...), key=...)` returns whichever tied element the
set yields first (`Aggregates.MostFrequent`, see "Left out"). The model follows the
code.

Some specification functions have no contract of their own. Lemmas state their
properties instead:

| function | lemmas |
|---|---|
| `Pipeline.Sampled` | `SampledCount`, `SampledStep`, `SampledMembers`, `SampledIgnoresSkipped`, `SampledEveryFrame` |
| `RetinaScript.ReportFor` | `ReportContents`, `AveragesInRange` |
| `RetinaScript.Stops`, `RetinaScript.Run` | `RunReads`, `AnalysedFrameCount`, `SkippedFramesIgnored`, `RunSummary` |
| `Pipeline.FoldFaces` | `FoldFacesKeys`, `FoldFacesKeeps`, `FailuresAreDropped` |
| `Pipeline.FoldFrames` | `FoldFramesKeys`, `FoldFramesKeysFromEmpty`, `FoldFramesKeeps` |
| `EmotionDetection.NewFaceStats` | `CountFrameConsistent`, `FoldAnalysisConsistent` (the fresh entry is folded into a consistent one) |
| `PooledScript.PoolFace`, `PooledScript.PoolFaces` | `PoolFacesKeys`, `PoolFacesGrows`, `PoolFacesLength`, `PoolFacesNonEmpty`, `FailuresLeavePoolUnchanged` |
| `PooledScript.PoolFrames` | `PoolFramesKeys`, `PoolFramesGrows`, `PoolFramesLength`, `PoolFramesNonEmpty` |
| `PooledScript.Averages` | `RunAverages`, `AveragesInRange` |
| `PooledScript.Stops`, `PooledScript.Run` | `RunReads`, `RunAverages` |

## Model

| member | source | states |
|---|---|---|
| PyDict.Put | app/utils/emotion_detection.py:64-74 | `d[k] = v` stores `v` at `k`; an existing key keeps its place, a new key goes last |
| PyDict.Dedup | app/utils/emotion_detection.py:143 | key order of a dict filled from a sequence: exactly the elements of the sequence, each once |
| PyDict.IncrementAt | app/utils/emotion_detection.py:78 | `d[k] += 1` on a `defaultdict(int)`: the count of `k`, zero when missing, goes up by one; a new key goes last; every other count stays |
| PyDict.AppendToAt | app/utils/emotion_detection.py:80 | `d[k].append(x)` on a `defaultdict(list)`: the list of `k`, empty when missing, gains `x` at its end; a new key goes last; every other list stays |
| PyDict.AppendFirstKeys | app/utils/emotion_detection.py:79-80 | after `n` rounds of `d[k].append(v)` the keys are the old keys followed by the new keys of the first `n` scores, in first-seen order |
| PyDict.AppendFirstAt | app/utils/emotion_detection.py:79-80 | after `n` rounds, a key's list is its old list plus its score exactly when the key is among the first `n` score keys |
| PyDict.AppendScores | app/utils/emotion_detection.py:79-80 | `for k, v in scores.items(): d[k].append(v)` appends exactly one score to the list of every key of `scores`, creates missing keys last in `scores` order, changes nothing else |
| PyDict.IncrementSum | app/utils/emotion_detection.py:78 | `d[k] += 1` on a `defaultdict(int)` raises the sum of all counts by exactly one |
| PyDict.DedupAppend | app/utils/emotion_detection.py:143 | first-seen order of labels seen over two stretches of frames is that of the whole |
| Aggregates.Mean | app/utils/emotion_detection.py:107-110 | `np.mean` of a non-empty score list lies between its smallest and its largest score |
| Aggregates.MeanBounds | app/utils/emotion_detection.py:107 | `np.mean` of scores that all lie in [lo, hi] lies in [lo, hi] |
| Aggregates.SumBounds | app/utils/emotion_detection.py:107 | the sum of n values in [lo, hi] lies in [n*lo, n*hi] |
| Aggregates.FirstMaxIndex | app/utils/emotion_detection.py:104 | the index `max` picks: holds a largest value, and every earlier element is strictly smaller |
| Aggregates.KeyOfMax | app/utils/emotion_detection.py:104 | `max(d, key=d.get)` (also line 84): a key of `d` whose score is largest, the first in key order among keys with that score |
| Aggregates.MostFrequent | app/utils/emotion_detection.py:113 | `max(set(xs), key=xs.count)`: an element of `xs` occurring at least as often as any other |
| Aggregates.Means | app/utils/emotion_detection.py:107 | the averages dict has exactly the keys of the score dict, in the same order, each mapped to the mean of its list |
| Pipeline.SampledCount | app/utils/emotion_detection.py:36-40 | of N frames read with interval k != 0, exactly N div abs(k) reach the detector |
| Pipeline.SampledIgnoresSkipped | app/utils/emotion_detection.py:36-40 | changing frames the sampling rule skips does not change the frames analysed |
| Pipeline.SampledEveryFrame | app/utils/emotion_detection.py:39 | with interval 1 every frame read is analysed |
| Pipeline.SampledStep | app/utils/emotion_detection.py:36-40 | reading frame number n adds it to the analysed frames exactly when n is a multiple of the interval |
| Pipeline.SampledMembers | app/utils/emotion_detection.py:36-40 | every analysed frame is a frame read |
| Pipeline.FramesRead | My-App/main.py:21-63 | the loop reads up to and including the first frame at which it breaks, or to the end of the stream |
| Pipeline.FramesReadUnique | My-App/main.py:21-63 | that count is the only one with no break before it and a break at it unless the stream ended |
| Pipeline.FoldDetection | app/utils/emotion_detection.py:55-95 | a failed classification leaves `face_stats` unchanged; otherwise the face's entry, created when missing (last in key order), is folded and every other entry is unchanged |
| Pipeline.FailuresAreDropped | app/utils/emotion_detection.py:55-95 | classifier failures are dropped: the other faces of the frame are folded as if the failed ones were absent |
| Pipeline.FoldFacesKeys | app/utils/emotion_detection.py:64-74 | entries are created in the order labels are first analysed successfully |
| Pipeline.FoldFramesKeys | app/utils/emotion_detection.py:64-74 | the same over any number of frames |
| Pipeline.FoldFramesKeysFromEmpty | app/utils/emotion_detection.py:140-144 | from an empty dict, the labels are the successfully analysed labels, without repetition, in first-seen order |
| Pipeline.FoldFacesKeeps | app/utils/emotion_detection.py:46-95 | a property of entries that each fold keeps, and that holds after folding into a new entry, holds of every entry after a frame |
| Pipeline.FoldFramesKeeps | app/utils/emotion_detection.py:31-95 | the same after any number of frames |
| EmotionDetection.CountFrame | app/utils/emotion_detection.py:77-81 | one more frame; one more count for the dominant emotion, so the counts sum to one more; one more score per emotion key; one more age; gender, race, embeddings and thumbnails unchanged |
| EmotionDetection.Describe | app/utils/emotion_detection.py:84-89 | one more gender, a key of the gender dict scoring at least as high as every other; one more score per race key; the emotion dict as one more embedding; nothing else changed |
| EmotionDetection.FoldAnalysis | app/utils/emotion_detection.py:77-93 | every analysis adds a frame and an age; one with a non-empty gender dict also adds a gender and an embedding; only one that raises nowhere adds a thumbnail; earlier genders are kept |
| EmotionDetection.CountFrameConsistent | app/utils/emotion_detection.py:77-81 | after lines 77-81 the counter, the sum of emotion counts and the number of ages agree, and no stored list is empty |
| EmotionDetection.DescribeConsistent | app/utils/emotion_detection.py:84-89 | lines 84-89 append the dominant gender and the emotion dict as embedding, append the race scores, leave thumbnails and everything else alone, and keep every race list non-empty and no longer than the gender list |
| EmotionDetection.FoldAnalysisConsistent | app/utils/emotion_detection.py:77-93 | every fold, complete or cut short by an exception, keeps `total_frames == sum(emotion_counts) == len(age)` and `len(gender) == len(embeddings) <= len(age)` |
| EmotionDetection.FoldAnalysisComplete | app/utils/emotion_detection.py:77-93 | a fully successful fold keeps `len(gender) == len(embeddings) == len(thumbnails) == len(age) == total_frames` |
| EmotionDetection.FullFoldAppendsOne | app/utils/emotion_detection.py:77-93 | a fully successful fold adds one frame and one count for the dominant emotion. It appends one age, gender, embedding and thumbnail, and one score to the list of each emotion and race key |
| EmotionDetection.GenderFailureKeepsEarlierUpdates | app/utils/emotion_detection.py:77-85 | an empty gender dict stops the fold after lines 77-81: those updates stay, gender, race, embeddings and thumbnails are untouched |
| EmotionDetection.ThumbnailFailureKeepsEarlierUpdates | app/utils/emotion_detection.py:77-93 | when `cv2.imencode` raises, the frame, emotion, age, gender, race and embedding updates stay and the thumbnails are untouched |
| EmotionDetection.AccumulateConsistent | app/utils/emotion_detection.py:31-95 | every entry of `face_stats` is consistent whatever the classifier did |
| EmotionDetection.AccumulateComplete | app/utils/emotion_detection.py:77-93 | when every analysis succeeds fully, every entry is complete |
| EmotionDetection.AccumulateStep | app/utils/emotion_detection.py:31-95 | reading one more frame folds its faces in exactly when it is sampled |
| EmotionDetection.ReportFor | app/utils/emotion_detection.py:102-131 | a report is built exactly when the entry stored at least one gender |
| EmotionDetection.ReportContents | app/utils/emotion_detection.py:102-131 | the report's most common emotion, means, most common gender, embeddings shape and example, thumbnails and counts, as the lines compute them |
| EmotionDetection.ShapeCountsFrames | app/utils/emotion_detection.py:128-130 | for a complete entry the embeddings shape starts with `total_frames` and there is one thumbnail per frame |
| EmotionDetection.Reduce | app/utils/emotion_detection.py:102-137 | the report loop writes every report in order iff none raises; otherwise it writes those before the first one that raises and names that face |
| EmotionDetection.ReduceStep | app/utils/emotion_detection.py:102-137 | one more round after rounds that all went through writes one more report or stops at it |
| EmotionDetection.ReduceStaysAborted | app/utils/emotion_detection.py:102-137 | once a report raises, later entries are never reached |
| EmotionDetection.WriteReports | app/utils/emotion_detection.py:102-137 | the loop gives the reduction of the entries' reports |
| EmotionDetection.UpdateStats | app/utils/emotion_detection.py:77-93 | the statements on one entry give the fold, partial updates included |
| EmotionDetection.CountStats | app/utils/emotion_detection.py:77-81 | the statements of lines 77-81 give `CountFrame` |
| EmotionDetection.DescribeStats | app/utils/emotion_detection.py:84-89 | the statements of lines 84-89 give `Describe` |
| PyDict.AppendEach | app/utils/emotion_detection.py:79-80 | the append loop over a score dict gives `AppendScores`; the retina script's loop at its lines 79-80 calls it too |
| EmotionDetection.AnalyseFace | app/utils/emotion_detection.py:55-95 | one round of the face loop is `FoldDetection` |
| EmotionDetection.AnalyseFrame | app/utils/emotion_detection.py:46-95 | the face loop folds the faces of the frame in order |
| EmotionDetection.ProcessVideo | app/utils/emotion_detection.py:20-148 | the whole call gives `Run`: open error, zero-interval error, a failed reduction, or the reports and summary |
| EmotionDetection.Run | app/utils/emotion_detection.py:20-148 | ValueError exactly when the video cannot be opened; ZeroDivisionError exactly when it opens, the interval is 0 and there is a frame; a completed call counts every frame read |
| EmotionDetection.RunSummary | app/utils/emotion_detection.py:139-144 | a completed run reports every frame read, the labels in first-seen order and their number, and one report per label in that order |
| EmotionDetection.FullySuccessfulRun | app/utils/emotion_detection.py:55-131 | when every analysis succeeds fully no report raises, and each report's embeddings shape and thumbnail count equal its frame count |
| Float32Conversion.Convert | app/utils/emotion_detection.py:10-18 | float32 becomes float with the same value; a dict keeps its keys in order with each value converted; a list keeps its length with each element converted; any other value is returned as it is |
| Float32Conversion.ConvertRemovesFloat32 | app/utils/emotion_detection.py:10-18 | no float32 is left in the result where the conversion looks |
| Float32Conversion.ConvertFixesFloat32Free | app/utils/emotion_detection.py:10-18 | a value without float32 where the conversion looks is unchanged |
| Float32Conversion.ConvertIdempotent | app/utils/emotion_detection.py:10-18 | converting twice is converting once |
| Float32Conversion.ConvertFixedPoints | app/utils/emotion_detection.py:10-18 | a value is unchanged iff it has no float32 where the conversion looks |
| Float32Conversion.ConvertAt | app/utils/emotion_detection.py:10-18 | the result has the same paths through dicts and lists as the input, and what a path reaches in the result is the conversion of what it reaches in the input |
| Float32Conversion.ConvertLeaf | app/utils/emotion_detection.py:11-18 | at any depth a float32 leaf becomes a float with the same value and every other leaf, tuples and whatever they hold included, is kept as it is |
| RetinaScript.FoldEmotion | app/emotion_detection_retina.py:76-81 | one more frame; one more count for the dominant emotion, so the counts sum to one more; one more score per emotion key; the emotion dict as one more embedding |
| RetinaScript.FoldEmotionEffect | app/emotion_detection_retina.py:76-81 | one classification adds one frame, one count for its dominant emotion, one score for each emotion key and one embedding |
| RetinaScript.FoldEmotionConsistent | app/emotion_detection_retina.py:76-81 | `total_frames == sum(emotion_counts) == len(embeddings)`, and every score list is non-empty and no longer than `total_frames` |
| RetinaScript.AccumulateConsistent | app/emotion_detection_retina.py:36-87 | every entry of `face_stats` is consistent |
| RetinaScript.ReportContents | app/emotion_detection_retina.py:99-115 | most common emotion is maximal, first in key order on ties; per-emotion means; shape `(total_frames, size of first embedding)`; first embedding as example |
| RetinaScript.AveragesInRange | app/emotion_detection_retina.py:104 | every average lies in the range of the classifier's scores |
| RetinaScript.WriteReports | app/emotion_detection_retina.py:99-122 | one report per entry, in key order |
| RetinaScript.Written | app/emotion_detection_retina.py:124-129 | the summary's frame count is the number of frames read |
| RetinaScript.UpdateStats | app/emotion_detection_retina.py:76-81 | the statements on one entry give `FoldEmotion` |
| RetinaScript.AnalyseFace | app/emotion_detection_retina.py:62-87 | one round of the face loop is `FoldDetection` |
| RetinaScript.AnalyseFrame | app/emotion_detection_retina.py:52-87 | the face loop folds the faces of the frame in order |
| RetinaScript.RunScript | app/emotion_detection_retina.py:19-133 | the script gives `Run`: exit when the video cannot be opened, otherwise the reports and summary of the frames read |
| RetinaScript.RunReads | app/emotion_detection_retina.py:36-92 | the loop reads up to the first sampled frame at which 'q' is pressed, or to the end of the stream |
| RetinaScript.AnalysedFrameCount | app/emotion_detection_retina.py:41-45 | of n frames read exactly n div 25 are analysed |
| RetinaScript.SkippedFramesIgnored | app/emotion_detection_retina.py:41-92 | skipped frames, their faces and key presses included, change nothing the script writes |
| RetinaScript.RunSummary | app/emotion_detection_retina.py:124-129 | labels in first-seen order and their number, one report per label in that order, each with as many embeddings as frames |
| PooledScript.PoolScore | My-App/main.py:49-52 | the `if`/`else` on whether the emotion is already pooled appends the score to its list, starting a one-element list for an unseen emotion |
| PooledScript.PoolScores | My-App/main.py:48-52 | the `if`/`else` append loop gives `AppendScores`: one more score per emotion, a one-element list for an unseen emotion |
| PooledScript.PoolFrame | My-App/main.py:32-58 | the face loop pools the faces of the frame in order |
| PooledScript.PrintAverages | My-App/main.py:71-73 | one line per emotion in key order, each the mean of its list |
| PooledScript.RunScript | My-App/main.py:9-73 | the script gives `Run`: exit when the video cannot be opened, otherwise the frame count and the printed averages |
| PooledScript.PoolFacesGrows | My-App/main.py:48-52 | keys are never removed and each old list is a prefix of its new list |
| PooledScript.PoolFramesGrows | My-App/main.py:21-63 | the same over any number of frames |
| PooledScript.PoolFacesKeys | My-App/main.py:48-52 | emotions enter `emotion_stats` in the order first reported: the old keys, then the emotion keys of the classified faces, each once, at its first occurrence |
| PooledScript.PoolFramesKeys | My-App/main.py:21-63 | the same first-seen key order over any number of frames |
| PooledScript.PoolFacesLength | My-App/main.py:48-52 | each emotion's list gains one score per classified face whose answer has that emotion |
| PooledScript.PoolFramesLength | My-App/main.py:21-63 | the same over any number of frames |
| PooledScript.PoolFacesNonEmpty | My-App/main.py:48-52 | every stored list stays non-empty |
| PooledScript.PoolFramesNonEmpty | My-App/main.py:21-63 | the same over any number of frames |
| PooledScript.FailuresLeavePoolUnchanged | My-App/main.py:42-58 | a failed analysis leaves the pool unchanged; the frame pools what its successful faces alone pool |
| PooledScript.RunReads | My-App/main.py:21-63 | every frame is read up to the first at which 'q' is pressed, or to the end; the frame count is the number read |
| PooledScript.RunAverages | My-App/main.py:69-73 | one average per emotion reported by any classified face of the frames read, in first-seen order (the keys are `Dedup` of the reported emotion keys), each the mean of a list holding one score per face that reported it |
| PooledScript.AveragesInRange | My-App/main.py:71-73 | every printed average lies in the range of the classifier's scores |

## Left out

- Video decoding, the detector and the classifier (`cv2.VideoCapture`, `cap.read`, `RetinaFace.detect_faces`, `DeepFace.analyze`) are inputs. A detector answer that is not a dict is an empty face list.
- The default `frame_interval=5` of `process_video` (app/utils/emotion_detection.py:20) is not modelled: the interval is always a parameter, as at both call sites in app.py, which pass it explicitly.
- Face-region slicing, bounding-box drawing, `cv2.imshow` and `cv2.destroyAllWindows` are left out: they only touch pixels or the screen.
- `cv2.waitKey` is the `quitKey` flag of each frame.
- An exception from `RetinaFace.detect_faces` (app/utils/emotion_detection.py:43, app/emotion_detection_retina.py:50, My-App/main.py:30) or from reading `face_data['facial_area']` (lines 48, 55 and 35 of the same files) is not modelled. Both sit outside the `try`, so in the source such an exception ends the run before anything is written; the model takes the detector's answer as a well-formed input.
- The retina script's `json.dump` of a report (app/emotion_detection_retina.py:120) is not modelled. It is not preceded by `convert_float32_to_float`, so a report holding numpy float32 means or embedding values would raise a TypeError at the first report written. The model returns the reports as values and has no float32/float distinction there.
- File output (`os.makedirs`, `json.dump`, file names), `print` and `exit()` are left out. Reports and summaries are returned as values, and the pooled script's printed lines are returned as (emotion, mean) pairs without the two-decimal formatting.
- The retina script's `os.path.exists` check and `isOpened` check are one `isOpen` flag.
- The thumbnail is the outcome of `cv2.imencode` plus base64 encoding, given as an input string or None.
- numpy float semantics are not modelled: scores are exact reals and `np.mean` is an exact quotient.
- Float32Conversion.Convert is not applied to the reports, because reals carry no float32/float distinction. It is modelled on its own over a value tree.
- Aggregates.MostFrequent: Python iterates a `set` in an unspecified order, so on ties any maximal element may be returned. The model picks the first in list order, and its contract states only that the result occurs at least as often as any other.
- The other files of the repository (the Flask app, the front end, the live-feed recogniser and the generative part) are not part of this model.
