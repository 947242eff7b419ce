# ad_detector core in Dafny

ad_detector finds advertisements in a video file. It works in four steps:

1. Scene detection cuts the video into scenes `(start, end)`, in seconds.
2. An image classifier labels frames sampled every half second in each
   scene.
3. Each scene gets a score: the percentage of its sampled frames that the
   classifier marks as advertisement (class 0), or a variant where frames
   are weighted by their position in the scene.
4. The analysis keeps the scenes whose score passes a threshold. The
   threshold is 12.5, lowered by 10 for a scene next to a strong one.

A player window then lists the detected advertisements as buttons labelled
`MM:SS – MM:SS`, filters them with a search box and draws them as segments
on the position slider.

This project models:

- the scorers and filters of `app/frame_classifier.py`;
- the hysteresis decision of `app/gui.py`;
- the timecode, search and slider logic of `app/player.py`.

The files are:

- `wrappers.dfy`: `Option` and `Result`.
- `selection.dfy`: `Select`. It keeps the scenes whose verdict holds, in
  order. Lemmas show it is exactly the flagged subsequence.
- `frame_classifier.dfy`:
  - the sampling loop as the recursive function `Samples`, with lemmas
    that characterise it;
  - the unweighted and weighted scores;
  - the scoring loops as methods proved equal to those scores;
  - the threshold filter and the score map.
- `gui.dfy`:
  - `_is_advertisement` and the hysteresis loop, proved equal to
    `Select` over per-scene verdicts;
  - the alignment of scores with scenes;
  - worked examples.
- `python_text.dfy`: the Python built-ins the timecode code relies on,
  with their properties. These are `str.strip`, `int(str)`,
  `str.split(sep)`, `str.lower`, `in` on strings and `f"{n:02d}"`.
  `strip()` and `int()` skip different whitespace: `int()` does not skip
  the separators U+001C to U+001F. `int()` reads ASCII digits only, and
  `lower()` lowers ASCII letters only (see "## Left out").
- `player.dfy`:
  - `format_time` and `parse_time`, with the round trip between them;
  - the reading of the search text (the range regular expression, a time,
    or a label substring) and the visibility loop;
  - the slider segment rectangles.

The video reader and the classifier are a single function parameter,
`FrameReader = real -> Option<Label>`. For a timestamp it gives the class
the classifier would assign to the frame there, or `None` when the read
fails. Times and scores are exact reals.

## Model

| member | source | states |
|---|---|---|
| FrameClassifier.SampleTime | app/frame_classifier.py:32-45 | defines the time of the k-th sample: the start plus `frame_interval`, added k times |
| FrameClassifier.MaxSamples | app/frame_classifier.py:33 | defines the number of sample times at or before `end`, the measure by which the loop ends |
| FrameClassifier.Samples | app/frame_classifier.py:33-46 | defines the labels the sampling loop reads from sample k on: read at each sample time while it is at or before `end`, stop at the first failed read |
| FrameClassifier.SceneSamples | app/frame_classifier.py:27-46 | defines the labels of all frames the loop reads in a scene |
| FrameClassifier.SampleTimeClosedForm | app/frame_classifier.py:32-45 | the k-th sample time, reached by adding `frame_interval` k times, is `start + k * interval` |
| FrameClassifier.SampleTimeWithinBound | app/frame_classifier.py:33 | a sample time at or before `end` has an index below the bound that makes the sampling loop terminate |
| FrameClassifier.SamplesStep | app/frame_classifier.py:33-45 | a successful read within the scene contributes its label, and sampling continues at the next time |
| FrameClassifier.SamplesAreReadsUntilFirstFailure | app/frame_classifier.py:33-37 | every sampled label was read at its time within the scene; sampling stops at the first time past `end` or the first failed read |
| FrameClassifier.SamplesUnique | app/frame_classifier.py:33-37 | any label sequence read in order up to such a stop is the sample sequence: the loop's reads are determined |
| FrameClassifier.StopsAtSampleCount | app/frame_classifier.py:33-37 | the number of samples read is the index of the first stop |
| FrameClassifier.SampleCountBound | app/frame_classifier.py:32-33 | a scene that starts after it ends reads nothing; otherwise at most `floor((end - start) / interval) + 1` frames are read |
| FrameClassifier.IsAd | app/frame_classifier.py:42 | defines an ad frame: class index 0 |
| FrameClassifier.AdCount | app/frame_classifier.py:42-43 | the number of ad frames never exceeds the number of frames |
| FrameClassifier.AdCountAllOrNone | app/frame_classifier.py:39-43 | all frames ads gives `ad_frames == total_frames`; no ad frame gives 0 |
| FrameClassifier.AdCountPrefix | app/frame_classifier.py:39-43 | one more frame adds one to the ad count exactly when its label is 0 |
| FrameClassifier.Percentage | app/frame_classifier.py:49 | defines `part / whole * 100` when `whole > 0`, else 0.0 |
| FrameClassifier.PercentageBounds | app/frame_classifier.py:49 | a part of a whole, as a percentage guarded by `whole > 0`, lies in [0, 100]; the whole gives 100; nothing gives 0 |
| FrameClassifier.PercentageMonotonic | app/frame_classifier.py:49 | a larger part of the same whole never gives a smaller percentage |
| FrameClassifier.RatioInUnitInterval | app/frame_classifier.py:49 | a part over a positive whole containing it lies in [0, 1] |
| FrameClassifier.UnweightedScore | app/frame_classifier.py:27-50 | defines the unweighted score: the percentage of the frames read that are ads |
| FrameClassifier.UnweightedScoreProperties | app/frame_classifier.py:27-50 | the unweighted score lies in [0, 100]; it is 0 with no frames read and when no frame is an ad, and 100 when every frame read is an ad |
| FrameClassifier.UnweightedScoreMonotonic | app/frame_classifier.py:27-50 | of two readers that read as many frames of a scene, the one with no more ad frames scores no higher |
| FrameClassifier.Weight | app/frame_classifier.py:65-66 | defines the weight of sample k: `(t - start) / (end - start)` |
| FrameClassifier.TotalWeight | app/frame_classifier.py:69 | defines the sum of the weights of the first n samples |
| FrameClassifier.AdWeight | app/frame_classifier.py:70-71 | defines the sum of the weights of the ad samples |
| FrameClassifier.WeightedScore | app/frame_classifier.py:54-77 | defines the weighted score: 0.0 without frames, ZeroDivisionError for a zero-length scene with a frame read, else the ad weight as a percentage of the total weight |
| FrameClassifier.SampleOffset | app/frame_classifier.py:65-66 | in a forward scene, sample k is `k * interval` past the start; its weight is non-negative, and positive after the first sample |
| FrameClassifier.WeightInUnitInterval | app/frame_classifier.py:65-66 | the weight of every sampled frame, its relative position, lies in [0, 1] |
| FrameClassifier.AdWeightPrefix | app/frame_classifier.py:69-71 | one more frame adds its weight to the ad weight exactly when its label is 0 |
| FrameClassifier.AdWeightBounds | app/frame_classifier.py:56-73 | in a forward scene the ad weight lies between 0 and the total weight; it equals the total when every frame is an ad and is 0 when none is |
| FrameClassifier.TotalWeightPositive | app/frame_classifier.py:76 | two or more samples of a forward scene carry positive total weight, so the guarded division applies |
| FrameClassifier.WeightedScoreProperties | app/frame_classifier.py:54-77 | the weighted scorer raises ZeroDivisionError exactly when start == end and the first read succeeds; otherwise its score lies in [0, 100]; no frames gives 0 |
| FrameClassifier.WeightedScoreAllOrNone | app/frame_classifier.py:54-77 | with two or more frames all ads the weighted score is 100; with no ad frame it is 0 |
| FrameClassifier.WeightedScoreOnlyFirstFrame | app/frame_classifier.py:65-76 | a forward scene with a single frame read has total weight 0 and scores 0.0 |
| FrameClassifier.ProcessVideoSegments | app/frame_classifier.py:27-50 | the sampling loop returns the unweighted score of the scene's samples, a value in [0, 100] |
| FrameClassifier.ProcessVideoSegmentsAfter | app/frame_classifier.py:79-103 | the copy of the scorer returns the same unweighted score, in [0, 100] |
| FrameClassifier.ProcessVideoSegmentsWeighted | app/frame_classifier.py:54-77 | the weighted loop returns the weighted score, or ZeroDivisionError as a failure |
| FrameClassifier.SceneScores | app/frame_classifier.py:110-111 | one unweighted score per scene, at the default interval of 0.5 s |
| FrameClassifier.AboveThreshold | app/frame_classifier.py:113 | one verdict `score > threshold` per scene |
| FrameClassifier.DetectAdScenesFromSegments | app/frame_classifier.py:106-115 | the result is the scenes whose score is strictly above the threshold, in scene order |
| FrameClassifier.DetectedScenesAreAboveThreshold | app/frame_classifier.py:110-115 | a scene is reported iff some occurrence of it in the scene list scores strictly above the threshold |
| FrameClassifier.DetectAdScenesFromSegmentsAndGetAllResults | app/frame_classifier.py:128-133 | the map's keys are exactly the scenes, and each value is that scene's unweighted score |
| Selection.Select | app/gui.py:217-234 | keeping the flagged scenes never yields more scenes than given |
| Selection.SelectLength | app/gui.py:233-234 | as many scenes are kept as verdicts hold |
| Selection.SelectedIndicesFlagged | app/gui.py:218-234 | the kept positions are strictly increasing and each has its verdict set |
| Selection.SelectedIndicesComplete | app/gui.py:218-234 | every position whose verdict holds is kept |
| Selection.SelectAt | app/gui.py:233-234 | the k-th kept scene is the scene at the k-th kept position |
| Selection.SelectIsFlaggedSubsequence | app/gui.py:217-236 | the result is the order-preserving subsequence of exactly the flagged scenes |
| Selection.SelectMembership | app/frame_classifier.py:110-115 | a scene is in the result iff it stands at some flagged position |
| Gui.IsAdvertisement | app/gui.py:242-250 | a score at or above the base threshold is an ad; one below `base - boost` is not; an isolated ad is also an ad when not isolated |
| Gui.HysteresisVerdicts | app/gui.py:218-231 | one verdict per scene |
| Gui.IsIsolated | app/gui.py:222-224 | defines isolation: neither the previous nor the next scene, where it exists, reaches the base threshold |
| Gui.IsolatedIffNoStrongNeighbour | app/gui.py:222-224 | a scene is isolated iff no existing neighbour reaches the base threshold |
| Gui.VerdictBounds | app/gui.py:214-231 | with a non-negative boost, every scene at or above 12.5 is kept and none below `12.5 - boost` is |
| Gui.VerdictIsLocal | app/gui.py:218-231 | a scene's verdict depends only on its own and its neighbours' scores, never on earlier verdicts |
| Gui.DecideAds | app/gui.py:217-236 | the decision loop returns the scenes whose hysteresis verdict holds, in scene order |
| Gui.AlignScores | app/gui.py:213 | the scores are aligned with the scenes (one per scene, read from the map) exactly when every scene has a score; otherwise KeyError, modelled as None |
| Gui.AnalyzeVideo | app/gui.py:183-236 | the analysis returns the scenes kept by the hysteresis rule over their unweighted scores, with 12.5 and 10 |
| Gui.ExampleOnlyStrongScene | app/gui.py:214-236 | scores [50, 0, 0] report only the first scene |
| Gui.ExampleWholeRun | app/gui.py:214-236 | scores [20, 13, 5] report all three scenes |
| Gui.ExampleWeakNeighbours | app/gui.py:214-236 | scores [3, 20, 3] report all three scenes: both weak neighbours are pulled in |
| PythonText.DigitChar | app/player.py:25 | the rendered digit is a digit and reads back as its value |
| PythonText.IsSpace | app/player.py:114 | defines the characters `str.isspace()` accepts, which `strip()` removes |
| PythonText.IsIntSpace | app/player.py:118 | defines the whitespace `int()` skips: that of `strip()` without the separators U+001C to U+001F |
| PythonText.LeadingRun | app/player.py:114 | the count of leading characters of a set fits in the text |
| PythonText.TrailingRun | app/player.py:114 | the count of trailing characters of a set fits in the text |
| PythonText.Trim | app/player.py:114 | defines trimming a set of characters from both ends |
| PythonText.Strip | app/player.py:114 | defines `str.strip()`: trimming the `isspace` characters |
| PythonText.TrimCutsRuns | app/player.py:114-118 | trimming (by `strip()` or by `int()`) keeps a contiguous piece with only trimmed characters before and after it and none at its ends, so the runs removed are the longest ones |
| PythonText.TrimUnchanged | app/player.py:114-118 | trimming leaves unchanged a text that neither starts nor ends with a trimmed character |
| PythonText.StripKeepsNonSpace | app/player.py:114-115 | `strip()` keeps every occurrence of a non-whitespace character, such as the colon tested on line 115 |
| PythonText.ParseDigits | app/player.py:118 | a non-empty run of ASCII digits is read, anything else fails |
| PythonText.DigitsValue | app/player.py:118 | defines the decimal value of a run of digits |
| PythonText.ParseInt | app/player.py:118 | defines `int(s)`: skipped whitespace, an optional sign, then digits; anything else is ValueError, as None |
| PythonText.ParseIntKeepsSeparator | app/player.py:118 | `int()` does not skip U+001C: `int("1\x1c")` is ValueError although `strip()` gives "1" |
| PythonText.ParseIntDigits | app/player.py:118 | `int()` reads a run of digits as its decimal value |
| PythonText.ParseIntShowInt | app/player.py:118 | `int(str(n)) == n` for every integer |
| PythonText.ShowInt | app/player.py:118 | defines `str(n)`, the text that `int()` reads back as n |
| PythonText.Decimal | app/player.py:25 | an integer's decimal digits are non-empty digits: one below 10, two from 10 to 99 |
| PythonText.DecimalValue | app/player.py:25 | the decimal digits of n read back as n |
| PythonText.Pad2 | app/player.py:25 | defines `f"{n:02d}"`: zero-padded to two characters, the sign counting as one |
| PythonText.Pad2Digits | app/player.py:25 | `f"{n:02d}"` of a non-negative n is at least two digits reading back as n, exactly two below 100 |
| PythonText.Split | app/player.py:116 | `split(':')` yields at least one part |
| PythonText.SplitCount | app/player.py:116 | `split(sep)` yields one more part than there are separators |
| PythonText.SplitWithoutSeparator | app/player.py:116 | a text without the separator splits into itself alone |
| PythonText.SplitAfterFirstSeparator | app/player.py:116 | splitting `a + sep + b`, `a` without separator, yields `a` followed by the parts of `b` |
| PythonText.LowerChar | app/player.py:377 | defines `lower()` on one character: ASCII capitals to small letters |
| PythonText.Lower | app/player.py:377 | `lower()` keeps the length |
| PythonText.LowerSuffix | app/player.py:377-380 | lowering commutes with dropping a prefix |
| PythonText.IsSubstring | app/player.py:380 | defines `q in s` for strings: `q` is a prefix of `s` or of a shorter suffix of it |
| PythonText.IsSubstringAt | app/player.py:380 | `q in label` holds iff `q` is a prefix of the label from some position |
| PythonText.LowerSubstring | app/player.py:377-380 | `q.lower() in s.lower()` iff from some position `s` starts with `q` up to ASCII case |
| Player.Minutes | app/player.py:23 | defines `int(seconds // 60)` |
| Player.LeftoverSeconds | app/player.py:24 | defines `int(seconds % 60)`, with Python's floored float remainder |
| Player.FormatTime | app/player.py:22-25 | defines `format_time`: minutes and leftover seconds, each padded to two digits, joined by a colon |
| Player.MinutesAndSeconds | app/player.py:22-25 | `seconds // 60` and `seconds % 60` split the whole seconds: `m * 60 + s == floor(seconds)` with `0 <= s < 60`, and non-negative times give non-negative minutes |
| Player.FormatTimeShape | app/player.py:22-25 | `format_time` of a non-negative time is at least two minute digits, a colon and two second digits below 60, reading back as the whole seconds |
| Player.ParseTime | app/player.py:113-131 | defines `parse_time`: strip, then the colon branch or a plain `int()` |
| Player.ParseMinutesSeconds | app/player.py:116-125 | defines the colon branch: every part an integer and exactly two parts give `m * 60 + s`, else None |
| Player.ParseAll | app/player.py:118 | `list(map(int, parts))` succeeds iff every part is an integer, and then yields each part's value |
| Player.ColonGivesTwoParts | app/player.py:115-123 | a text with a colon splits into at least two parts, so the one-part branch is never taken |
| Player.ParseTimeInteger | app/player.py:126-128 | a plain integer parses as itself |
| Player.ParseTimeTwoParts | app/player.py:115-121 | a colon text whose two parts are integers m and s parses as `m * 60 + s` |
| Player.MinutesSecondsOfPair | app/player.py:119-121 | two parsed parts m and s give `m * 60 + s` |
| Player.ParseAllPair | app/player.py:118 | two texts that `int()` reads map to their two values |
| Player.SplitPair | app/player.py:116 | `a + ":" + b` without other colons splits into `[a, b]` |
| Player.ParseTimeMinutesSeconds | app/player.py:113-121 | two integer texts joined by a colon, with no whitespace at the outer ends, parse as `m * 60 + s` |
| Player.NoColonInShowInt | app/player.py:115 | `str(n)` has no colon, so it takes the plain-integer branch |
| Player.ParseTimeShowMinutesSeconds | app/player.py:113-121 | `str(m) + ":" + str(s)` parses as `m * 60 + s` for all integers, negative ones included |
| Player.ParseTimeDigits | app/player.py:113-121 | two runs of digits joined by a colon parse as minutes times 60 plus seconds |
| Player.ParseFormatTime | app/player.py:22-25 | `parse_time(format_time(t)) == floor(t)` for every non-negative t |
| Player.ParseTimeTooManyParts | app/player.py:115-131 | a text with two or more colons never parses |
| Player.ParseTimeSeparatorInPart | app/player.py:113-125 | `parse_time("1\x1c:30")` is None: the part `"1\x1c"` is not an integer |
| Player.ParseTimeBadPart | app/player.py:117-125 | a colon-separated part that is not an integer makes the text unparseable |
| Player.IsDash | app/player.py:362 | defines the dash class `[–\-]`: an en dash or a hyphen |
| Player.FirstLineEnd | app/player.py:362 | the first line ends at the first newline, or at the end of the text |
| Player.LastDash | app/player.py:362 | the found position is a dash with no dash after it in the range; None means the range has no dash |
| Player.RangeMatch | app/player.py:362-364 | defines `re.match(r'(.+)[–\-](.+)', query)`: the first line split at its last dash that leaves a character on each side, or None |
| Player.RangeMatchGroups | app/player.py:362-364 | the range pattern splits the first line at its last dash that leaves a character on each side; it matches exactly when the first line has such a dash |
| Player.SearchOf | app/player.py:355-380 | defines how the text is read: blank shows all; a range whose ends both parse; else a time; else a lowered label substring |
| Player.ButtonLabel | app/player.py:379 | defines a button's label: start and end as `format_time`, joined by ` – ` |
| Player.Visible | app/player.py:357-380 | defines each kind of search's rule: all; start or end within the range; start at or before the time and end at or after it; label contains the text |
| Player.LabelContains | app/player.py:376-380 | defines `q in label.lower()` |
| Player.ShowWhere | app/player.py:366-374 | one visibility per button, each the branch's test applied to that button's ad |
| Player.ApplySearch | app/player.py:357-380 | every branch's loop sets each button's visibility by the rule of its kind of search |
| Player.FilterAdButtons | app/player.py:355-380 | the visibility of every button is the rule of the search the text denotes |
| Player.BlankSearchShowsAll | app/player.py:356-360 | an empty or whitespace-only search shows every ad |
| Player.RangeSearchHidesEnclosingAd | app/player.py:366-367 | a range search hides an ad that starts before the range and ends after it |
| Player.SearchWithoutDash | app/player.py:362-374 | a text with no dash after its first character that parses as a time is a search for that second |
| Player.LabelSearchIgnoresCase | app/player.py:376-380 | a label search shows an ad iff, from some position, the ad's label starts with the text up to ASCII case |
| Player.NoDashInFormatTime | app/player.py:22-25 | a rendered non-negative time holds only digits and colons, so it has no dash and no whitespace at its ends |
| Player.NoDashInDigitPair | app/player.py:25 | two digit runs joined by a colon hold only digits and colons, so no dash and no outer whitespace |
| Player.SearchFormattedTime | app/player.py:362-374 | typing a rendered time searches for the ads containing its whole second |
| Player.JoinedByHyphen | app/player.py:356-362 | two non-empty digit-and-colon texts joined by a hyphen are one stripped line whose only dash is that hyphen |
| Player.RangeMatchAtOnlyDash | app/player.py:362-364 | a one-line text with a single inner dash is split by the range pattern into the parts before and after it |
| Player.SearchOfRange | app/player.py:362-370 | a stripped text the range pattern splits into two parseable times is a range search between them |
| Player.SearchRangeOfTimes | app/player.py:356-370 | two parseable digit-and-colon times joined by a hyphen are searched as the range between their values |
| Player.SearchFormattedRange | app/player.py:356-370 | typing `format_time(a)-format_time(b)` for non-negative a, b is read as the range search between floor(a) and floor(b) |
| Player.SearchInteger | app/player.py:362-374 | typing an integer, negative ones included, searches for the ads containing that second; the minus sign is not read as a range |
| Player.Trunc | app/player.py:71-72 | `int()` on a float drops the fraction toward zero: never away from zero, by less than one |
| Player.Scaled | app/player.py:71-72 | defines `t * width_multiplier` |
| Player.SpanRect | app/player.py:71-75 | defines the `QRect` between two truncated positions on the groove, on its row and of its height |
| Player.SegmentRect | app/player.py:70-75 | defines one ad's segment: its start and end scaled and truncated |
| Player.CalculateSegments | app/player.py:62-77 | no segments without ads or with zero duration; otherwise one segment per ad, in order, scaled by `width / total_duration` |
| Player.ScaleToWidth | app/player.py:67-72 | times within [0, duration] scale, in order, into [0, width] |
| Player.SpanWithinGroove | app/player.py:71-75 | ordered positions within the groove width make a segment inside the groove |
| Player.SegmentWithinGroove | app/player.py:62-77 | the segment of an ad lying within the video is inside the groove, with non-negative width, on its row and of its height |

## Left out

- The image classifier (`classify_frame`, torch, the transforms), model loading (`app/model_loader.py`) and video reading (OpenCV) are the `FrameReader` parameter. The model does not capture which frame a seek returns or what the network outputs.
- Scene detection (`detect_scenes`, PySceneDetect) is not modelled. `DetectAdScenesFromSegments` and `AnalyzeVideo` take the scene list as a parameter instead of detecting it.
- `detect_ad_scenes_from_segments_and_get_all_results_to_logs` is left out. It is the score map built with the weighted scorer plus writes to a log file, and the weighted scorer is modelled.
- The `print` and logging calls are output only and are left out.
- The thread pool of `_analyze_video` is left out. Each scene is scored by a separate call and the maps are merged in scene order. Parallelism does not change the merged map.
- The `_is_running` cancellation checks are left out, so the model always runs to completion. Without cancellation, the `if not preds` early return cannot be reached when there are scenes.
- Exceptions from the reader or classifier inside `_analyze_video` are left out.
- The Qt and VLC user interface is left out: widgets, painting, the seek behaviour and the styles in `app/styles.py`.
- `app/main.py` is left out.
- Floating point is modelled as exact reals. Accumulated rounding in `current_time += frame_interval`, in the percentages and in the segment scaling is not captured.
- FrameClassifier.ProcessVideoSegments: requires `frameInterval > 0`. With `start <= end`, a non-positive interval makes the source loop forever unless a read fails. With `start > end` the source returns 0.0 for any interval, a case the requires also excludes. Every caller uses the default 0.5.
- FrameClassifier.ProcessVideoSegmentsAfter: requires `frameInterval > 0`, for the same reason.
- FrameClassifier.ProcessVideoSegmentsWeighted: requires `frameInterval > 0`, for the same reason.
- PythonText.ParseInt: `int()` is modelled for ASCII digits with an optional sign and surrounding whitespace. Underscores between digits and non-ASCII decimal digits, which Python also accepts, are not modelled.
- PythonText.ParseDigits: reads ASCII digits only; underscores and non-ASCII decimal digits are not modelled.
- PythonText.LowerChar: `lower()` is modelled for the ASCII letters only. Unicode case mapping is not modelled. The labels the query is compared with contain only digits, colons, spaces and an en dash.
- PythonText.Lower: lowers ASCII letters only, as `LowerChar` does.
- Player.CalculateSegments: `not self.total_duration` is modelled as a duration of 0. A `None` duration is not modelled, and the slider is always given a number.
- Player.ParseTime: the one-part branch of `parse_time` (lines 122-123) is not modelled. `ColonGivesTwoParts` proves that a text containing a colon splits into at least two parts, so that branch can never be taken.
- Player.FilterAdButtons: the search text is read once into a `Search` value, and one loop over the buttons applies that kind of search. The source writes four separate loops. Buttons are modelled by their ads, and `setVisible` becomes the returned list of visibilities.
