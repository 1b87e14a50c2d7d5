# OpenVINO Movidius edge module: a Dafny model

This is a model of the scoring module of an Azure IoT Edge solution. The module takes images in an HTTP `POST /score`
request, runs them through an object-detection network on an Intel Movidius stick (OpenVINO), and answers with the detected objects.
Now and then it uploads a frame that contained detections. It also listens to device-twin desired properties telling it
which model to download and load, and it reports its status back.

The model covers two files in `EdgeSolution/modules/openvinomovidius/`:

- `openvino_movidius.py` is the `OpenvinoMovidius` wrapper. It becomes the class `Movidius.OpenvinoMovidius`, whose fields
  are the object's fields and whose methods `LoadModel` and `Score` change them in place. `Score`'s decoding loop is the
  method `Detection.DecodeRows`. It is proved against the recursive specification `Detection.Decode`, and the lemmas are
  proved about that specification. The label-file comprehension of line 78 is `LabelFile.Labels`.
- `app.py` is the glue. The model covers the status word and reported-properties document, what a desired-properties update
  sets in motion, and how a `/score` request is answered and when its frame is uploaded. Each is a function in module `App`.

Supporting modules model the Python behaviour this code relies on:

- `Py`: `None`, exceptions, truthiness, and indexing with negative indices.
- `PyString`: `str.isspace`, `split(',')[0]`, `strip`, `endswith`, `lower` and `os.path.join`.
- `Clock`: `datetime` subtraction as Python normalises a `timedelta`, and the `'{0:%Y%m%d%H%M%S%f}'` timestamp.

The inference engine is an oracle, and its answers are parameters:

- `read_network` becomes an `Option<Network>` carrying the input names, the output names and whether `load_network` succeeds.
- `infer` becomes an `Inference` carrying the raw rows.
- The label file becomes its text (or `None` when it cannot be opened).
- `datetime.now()` becomes a `DateTime` argument.

Coordinates arrive already scaled to integers, confidences are `real`, and class ids are already `int(class_id)`.

Points where the code does something other than one might expect, modelled as the code has it:

- The topology check (`openvino_movidius.py:47`) uses `or`: a two-output network naming only one of `boxes`/`labels` is accepted.
  The output configuration at lines 71-72 then raises `KeyError` after `status` has already become 1. A later
  `Score` raises on the same lookup in the engine's result. `Movidius.OneNamedOutputPassesCheck` exhibits such a network,
  and `LoadModel` and `ScoreOf` carry the `KeyError` outcomes.
- For a network with both `boxes` and `labels` outputs, `Score` overwrites `self.labels` with the engine's `labels` array
  (line 123) before the loop. A label file given to `LoadModel` is then never used for tags: the tag becomes
  `labels[labels[i]]`, an element of the engine's array (`Movidius.TwoOutputIgnoresLabelFile`). That element is a numpy
  integer, which `json.dumps` (`app.py:159`) refuses, so every such request that detects something answers 500
  (`App.TwoOutputWithLabelFileFails`).
- A label path is passed to `LoadModel` only when the `label` entry is present and non-empty (`if labelName:`, `app.py:59`),
  not merely when the key is present.
- A `model` entry always triggers a download. There is no "only when unloaded" check. The model is loaded whenever the
  download answers 200 (and, for a `.tgz` file, the archive unpacks). When the call returns, it returns
  `spec['model']['name']`, whatever the download answered and whatever `LoadModel` returned. It does not return when the
  URL cannot be reached, the archive cannot be unpacked, or `LoadModel` raises.
- An exception raised between `modelLock.acquire()` and `modelLock.release()` skips the release: a `LoadModel` that raises
  (`app.py:62-64`) or a `Score` call that raises (`app.py:142-146`) leaves the lock held, and every later `acquire` blocks.
  The model records this as the `lockHeld` flag of the results of `App.ParseDesiredPropertiesRequest` and `App.HandleScore`.
- The code reads no telemetry or upload settings from the twin. The upload interval is the constant 60 (`app.py:132`) and there is no telemetry aggregation.
- `scored_time = nowTime` at `app.py:155` assigns a local that is never read. The real update is `Score`'s own, at
  `openvino_movidius.py:155`.
- The throttle reads `timeDelta.seconds`, the seconds component of a normalised `timedelta`, so whole days are dropped.
  Until the first detection, `scored_time` is midnight of 2000-01-01, so the elapsed seconds are today's time of day.

## Model

| member | source | states |
|---|---|---|
| Py.Truthy | EdgeSolution/modules/openvinomovidius/openvino_movidius.py:76 | `if labelinfo:` is false exactly for None and for the empty string |
| Py.Index | EdgeSolution/modules/openvinomovidius/openvino_movidius.py:133-138 | a list or array subscript succeeds exactly for `-len <= k < len` and gives the element counted from the end for negative `k`; otherwise `IndexError` |
| PyString.IsSpace | EdgeSolution/modules/openvinomovidius/openvino_movidius.py:78 | `str.isspace()` holds for space, tab, `\n` and `\r`, and not for ASCII letters, digits or the comma |
| PyString.BeforeFirst | EdgeSolution/modules/openvinomovidius/openvino_movidius.py:78 | `split(',')[0]` is a prefix of the line holding no comma, cut exactly at the first comma if there is one |
| PyString.LeadingSpaces | EdgeSolution/modules/openvinomovidius/openvino_movidius.py:78 | the count of leading whitespace is bounded by the length, covers only whitespace and stops at the first non-whitespace character |
| PyString.ContentEnd | EdgeSolution/modules/openvinomovidius/openvino_movidius.py:78 | the cut point of trailing whitespace lies in range, only whitespace follows it and the character before it is not whitespace |
| PyString.Strip | EdgeSolution/modules/openvinomovidius/openvino_movidius.py:78 | `strip()` keeps a slice outside of which there is only whitespace and which neither starts nor ends with whitespace |
| PyString.StripUnique | EdgeSolution/modules/openvinomovidius/openvino_movidius.py:78 | any slice fitting that description is the result of `strip()`, so the description determines it |
| PyString.StripInside | EdgeSolution/modules/openvinomovidius/openvino_movidius.py:78 | `strip()` adds no character, and a whitespace character present only at the end of the text does not survive |
| PyString.EndsWith | EdgeSolution/modules/openvinomovidius/app.py:51 | a name that ends with `.tgz` is some text followed by `.tgz` |
| PyString.EndsWithAppended | EdgeSolution/modules/openvinomovidius/app.py:51 | conversely, any text followed by `.tgz` ends with `.tgz` |
| PyString.AsciiLower | EdgeSolution/modules/openvinomovidius/app.py:154 | `format.lower()` keeps the length, turns each upper-case ASCII letter into its lower-case letter and keeps every other character |
| PyString.PathJoin | EdgeSolution/modules/openvinomovidius/app.py:47-60 | `os.path.join(a, b)` is `b` for an absolute `b`; otherwise `a + b` when `a` is empty or ends in `/`, and `a + "/" + b` otherwise |
| Clock.Ordinal | EdgeSolution/modules/openvinomovidius/openvino_movidius.py:23 | `toordinal()` of a valid date-time is at least 1 |
| Clock.Instant | EdgeSolution/modules/openvinomovidius/app.py:143-144 | a date-time is an instant within its day: the ordinal in days plus the time of day in microseconds |
| Clock.Epoch2000Ordinal | EdgeSolution/modules/openvinomovidius/openvino_movidius.py:23 | the initial `scored_time`, 2000-01-01 00:00:00, is a valid date-time with ordinal 730120 |
| Clock.FromMicros | EdgeSolution/modules/openvinomovidius/app.py:144 | the `timedelta` built from a number of microseconds is in normal form: seconds within a day and microseconds within a second |
| Clock.NormalisedUnique | EdgeSolution/modules/openvinomovidius/app.py:144 | there is exactly one normal form per length, so `FromMicros` is the `timedelta` Python computes |
| Clock.Subtract | EdgeSolution/modules/openvinomovidius/app.py:144 | `nowTime - scored_time` is the normalised `timedelta` of the two instants' difference |
| Clock.SecondsComponent | EdgeSolution/modules/openvinomovidius/app.py:150 | `.seconds` lies in `[0, 86400)` and is the difference modulo one day, in whole seconds |
| Clock.SecondsIgnoreDays | EdgeSolution/modules/openvinomovidius/app.py:150 | adding whole days to the later instant leaves `.seconds` unchanged |
| Clock.Padded | EdgeSolution/modules/openvinomovidius/app.py:154 | a zero-padded field has exactly its width and is made of decimal digits |
| Clock.Decimal | EdgeSolution/modules/openvinomovidius/app.py:154 | the unpadded year has one digit per decimal place, all digits, and reads back to the year |
| Clock.FourDigitYear | EdgeSolution/modules/openvinomovidius/app.py:154 | a year from 1000 to 9999 prints as four digits |
| Clock.ValueOfPadded | EdgeSolution/modules/openvinomovidius/app.py:154 | reading a padded field back gives the number it was made from, whenever the number fits the width |
| Clock.Timestamp | EdgeSolution/modules/openvinomovidius/app.py:154 | `%Y%m%d%H%M%S%f` is all digits, and 20 of them for a four-digit year |
| Clock.ParseTimestamp | EdgeSolution/modules/openvinomovidius/app.py:154 | a timestamp is read back only from a string of 20 characters |
| Clock.SevenFields | EdgeSolution/modules/openvinomovidius/app.py:154 | the seven fields of the timestamp occupy positions 0-4, 4-6, 6-8, 8-10, 10-12, 12-14 and 14-20, and their concatenation is all digits |
| Clock.TimestampRoundTrip | EdgeSolution/modules/openvinomovidius/app.py:154 | for four-digit years `%Y%m%d%H%M%S%f` is 20 digits and parses back to the same date-time |
| LabelFile.Universal | EdgeSolution/modules/openvinomovidius/openvino_movidius.py:77 | text-mode reading leaves no `\r`, never lengthens the text, and leaves a text without `\r` unchanged |
| LabelFile.UniversalBreaks | EdgeSolution/modules/openvinomovidius/openvino_movidius.py:77 | `\r\n` and a lone `\r` each become `\n`, and any other character is kept |
| LabelFile.UniversalAppend | EdgeSolution/modules/openvinomovidius/openvino_movidius.py:77 | the translation goes piece by piece wherever the cut does not fall between the `\r` and the `\n` of a `\r\n`, including after a trailing `\r` when the rest does not start with `\n` |
| LabelFile.LoneCarriageReturn | EdgeSolution/modules/openvinomovidius/openvino_movidius.py:77 | a lone `\r` followed by another character becomes `\n` and the character is kept |
| LabelFile.FirstLine | EdgeSolution/modules/openvinomovidius/openvino_movidius.py:78 | the first line is a non-empty prefix of the text holding no `\n` before its end, and it ends with `\n` or is the whole text |
| LabelFile.Lines | EdgeSolution/modules/openvinomovidius/openvino_movidius.py:78 | `for line in f` yields no more lines than characters, and no line at all exactly for an empty file |
| LabelFile.LinesConcat | EdgeSolution/modules/openvinomovidius/openvino_movidius.py:78 | the lines iterated by `for line in f` concatenate back to the text |
| LabelFile.LinesShape | EdgeSolution/modules/openvinomovidius/openvino_movidius.py:78 | every line is non-empty, every line but the last ends with `\n`, and no line has a `\n` before its end |
| LabelFile.LinesAreSlices | EdgeSolution/modules/openvinomovidius/openvino_movidius.py:77-78 | after universal-newline translation no line holds a `\r` |
| LabelFile.LabelOfLine | EdgeSolution/modules/openvinomovidius/openvino_movidius.py:78 | the label of a line holds no comma and neither starts nor ends with whitespace |
| LabelFile.LabelOfLineNoBreak | EdgeSolution/modules/openvinomovidius/openvino_movidius.py:78 | the label of a line holds no line break |
| LabelFile.Labels | EdgeSolution/modules/openvinomovidius/openvino_movidius.py:76-78 | there is one label per line of the file, and label `i` is the stripped text before the first comma of line `i` |
| LabelFile.LabelsClean | EdgeSolution/modules/openvinomovidius/openvino_movidius.py:76-78 | no label holds a comma or a line break, and none starts or ends with whitespace |
| Detection.CandidateAt | EdgeSolution/modules/openvinomovidius/openvino_movidius.py:129-134 | row `i` of a single-output network gives its own class id, confidence and corners; row `i` of `boxes` gives its confidence and corners, and its class id is `labels[i]`, found exactly when the `labels` output has an entry `i` |
| Detection.Candidates | EdgeSolution/modules/openvinomovidius/openvino_movidius.py:116-134 | one candidate per raw row (the single output's rows or the `boxes` rows), in row order |
| Detection.TagFor | EdgeSolution/modules/openvinomovidius/openvino_movidius.py:138 | without a label file the tag is `int(class_id)`; with one, it is `self.labels[int(class_id)]` with Python indexing (a name from the file, or an element of the engine's array), `IndexError` out of range, and `TypeError` when no labels were loaded |
| Detection.Step | EdgeSolution/modules/openvinomovidius/openvino_movidius.py:129-146 | one pass of the loop body raises exactly when the row has no class id or a kept row has no tag; a kept row appends its record, any other row leaves the list unchanged |
| Detection.Decode | EdgeSolution/modules/openvinomovidius/openvino_movidius.py:127-146 | the records are no more than the rows, and each has confidence strictly above 0.5 |
| Detection.Kept | EdgeSolution/modules/openvinomovidius/openvino_movidius.py:136 | the kept positions are strictly increasing, and a row is kept exactly when its confidence is above 0.5 |
| Detection.DecodeOkIff | EdgeSolution/modules/openvinomovidius/openvino_movidius.py:129-146 | the loop finishes without raising exactly when every row has a class id and every kept row has a tag |
| Detection.DecodeRecords | EdgeSolution/modules/openvinomovidius/openvino_movidius.py:136-146 | record `k` comes from the `k`-th kept row, in row order, with that row's tag and confidence and the box `l = xmin, t = ymin, w = xmax - xmin, h = ymax - ymin` |
| Detection.DecodeExtend | EdgeSolution/modules/openvinomovidius/openvino_movidius.py:129-146 | one more row is one more pass of the loop body |
| Detection.DecodeRaisedPrefix | EdgeSolution/modules/openvinomovidius/openvino_movidius.py:129-146 | once a row raises, the rows after it do not matter |
| Detection.DecodePass | EdgeSolution/modules/openvinomovidius/openvino_movidius.py:129-146 | the loop pass over row `i` ends the whole loop with its exception, appends the record of a kept row, or leaves the list as it was |
| Detection.DecodeEmptyIff | EdgeSolution/modules/openvinomovidius/openvino_movidius.py:136-154 | the list is empty exactly when no row's confidence exceeds 0.5 |
| Detection.DecodeRows | EdgeSolution/modules/openvinomovidius/openvino_movidius.py:127-146 | the loop returns the records `Decode` specifies, or the first exception |
| Movidius.AcceptsTopology | EdgeSolution/modules/openvinomovidius/openvino_movidius.py:43-49 | an accepted network has exactly one input and at least one output |
| Movidius.OutputsConfigurable | EdgeSolution/modules/openvinomovidius/openvino_movidius.py:67-72 | a network whose output configuration succeeds has an output, and with one input it also passes the topology check |
| Movidius.Loads | EdgeSolution/modules/openvinomovidius/openvino_movidius.py:41-55 | a model reaches status 1 only when it was read, has one input and the device load succeeds |
| Movidius.OneNamedOutputPassesCheck | EdgeSolution/modules/openvinomovidius/openvino_movidius.py:47-72 | a network with outputs `labels` and `scores` passes the topology check but not the output configuration |
| Movidius.ScoringLabels | EdgeSolution/modules/openvinomovidius/openvino_movidius.py:116-123 | a single-output network scores with the labels it had; a two-output network with `boxes` and `labels` scores with the engine's `labels` output in place of `self.labels` |
| Movidius.ScoreOf | EdgeSolution/modules/openvinomovidius/openvino_movidius.py:116-123 | a two-output network lacking `boxes` (then `labels`) raises `KeyError` on the engine's result |
| Movidius.TwoOutputIgnoresLabelFile | EdgeSolution/modules/openvinomovidius/openvino_movidius.py:122-138 | with both `boxes` and `labels` outputs no tag is a name from the label file, and with a label file every tag is an element of the engine's array |
| Movidius.OpenvinoMovidius.constructor | EdgeSolution/modules/openvinomovidius/openvino_movidius.py:12-23 | a fresh wrapper targets `MYRIAD`, has nothing loaded, has status 0 and has `scored_time` 2000-01-01 00:00:00 |
| Movidius.OpenvinoMovidius.LoadModel | EdgeSolution/modules/openvinomovidius/openvino_movidius.py:35-80 | `-1` exactly on a rejected topology; the read, device-load and missing-output errors; `FileError` when the label file cannot be opened; `0` otherwise. Status is 1 exactly when the device load was reached, so a failed reload falls back to 0. The whole new state is given |
| Movidius.OpenvinoMovidius.Score | EdgeSolution/modules/openvinomovidius/openvino_movidius.py:82-163 | unloaded: `[]` and nothing changes. Loaded: `(records, 'out.bmp')` with the records `ScoreOf` specifies, or the exception. A two-output network's `labels` output replaces `self.labels`. `scored_time` becomes now exactly when a record was kept, and no other field changes |
| Movidius.OpenvinoMovidius.GetStatus | EdgeSolution/modules/openvinomovidius/openvino_movidius.py:165-166 | the status is 0 or 1, and 1 means a network passing the topology check is on the device |
| Movidius.OpenvinoMovidius.GetScoredTime | EdgeSolution/modules/openvinomovidius/openvino_movidius.py:168-169 | the last detection time is a valid date-time |
| App.ReportingStatus | EdgeSolution/modules/openvinomovidius/app.py:22-26 | `initialized` exactly for 0, `model-loaded` exactly for 1, `unknown` exactly for anything else |
| App.WrapperStatusIsKnown | EdgeSolution/modules/openvinomovidius/app.py:101 | the status reported for the wrapper is never `unknown` |
| App.ReportedProperties | EdgeSolution/modules/openvinomovidius/app.py:28-31 | the document has the single key `current_status`, holding exactly `status` and `model` |
| App.ReportedRoundTrip | EdgeSolution/modules/openvinomovidius/app.py:28-31 | the document carries the status word, and `model` is the given name, or `''` when none or an empty one is given |
| App.ModelSpecOf | EdgeSolution/modules/openvinomovidius/app.py:34-41 | no `model` key means nothing to do; otherwise url, filename and name are read in that order, and `label` is optional. The call raises exactly when `model` is a string or lacks one of the three keys |
| App.LoadStep | EdgeSolution/modules/openvinomovidius/app.py:55-63 | the model path is `<cwd>/model/<name>`, and a label path `<cwd>/model/<label>` is passed exactly when the label name is non-empty |
| App.Plan | EdgeSolution/modules/openvinomovidius/app.py:43-63 | the fetch comes first, and after a successful download the load comes last |
| App.PlanShape | EdgeSolution/modules/openvinomovidius/app.py:44-63 | a load happens exactly after a successful download, and an unpack or removal exactly when the download succeeded and the file is an archive |
| App.Steps | EdgeSolution/modules/openvinomovidius/app.py:42-64 | a model update always fetches first, and on a 200 answer ends with the load |
| App.ArchivePlanShape | EdgeSolution/modules/openvinomovidius/app.py:51-63 | after a download of an archive the plan has six steps: the save third, the unpack fourth, the removal fifth and the load last, with no load before it |
| App.DownloadedArchivePlan | EdgeSolution/modules/openvinomovidius/app.py:47-63 | a downloaded `.tgz` file is saved to the model folder as the third step, unpacked into the folder fourth, removed fifth, and the load with the paths of lines 55-60 is the sixth and only load |
| App.StepsPlan | EdgeSolution/modules/openvinomovidius/app.py:44-60 | the model is loaded exactly on a 200 answer, and it is unpacked exactly on a 200 answer for a `.tgz` file name |
| App.StepsRemoval | EdgeSolution/modules/openvinomovidius/app.py:44-54 | the saved file is removed exactly on a 200 answer for a `.tgz` file name |
| App.ParseDesiredPropertiesRequest | EdgeSolution/modules/openvinomovidius/app.py:33-72 | a malformed `model` entry raises before any step; a returned name is the model's `name`; every step sequence starts with the fetch; the lock stays held exactly when `LoadModel` raised, and then the call raises that exception; whenever the download answered and no archive failed to open, the steps are exactly those of `Steps` for the answer |
| App.ParseDesiredReturns | EdgeSolution/modules/openvinomovidius/app.py:33-72 | without `model` nothing happens and `None` is returned; with it, a call that returns returns the model's `name` after taking some step |
| App.ParseDesiredRaisesIff | EdgeSolution/modules/openvinomovidius/app.py:35-72 | the call raises exactly for a malformed `model` entry, an unreachable URL, or, after a 200 answer, an archive that cannot be unpacked or a `LoadModel` that raises; a non-200 answer never raises |
| App.ArchiveFailureStopsBeforeLoad | EdgeSolution/modules/openvinomovidius/app.py:51-63 | an archive that cannot be unpacked stops the call at the unpack step, before the removal and the load |
| App.ReturnedIgnoresDownload | EdgeSolution/modules/openvinomovidius/app.py:44-72 | two calls on the same desired properties that both return give the same value, whatever the download answered and whatever `LoadModel` returned |
| App.UploadDue | EdgeSolution/modules/openvinomovidius/app.py:149-152 | an upload is due only with at least one detection and at least 61 seconds in the `.seconds` component |
| App.UploadBoundary | EdgeSolution/modules/openvinomovidius/app.py:150 | the comparison is strict: 60 seconds does not upload, 61 does |
| App.JsonEncodable | EdgeSolution/modules/openvinomovidius/app.py:159 | `json.dumps` accepts records whose tags are label names or Python numbers, and refuses any numpy array element |
| App.DetectionsOf | EdgeSolution/modules/openvinomovidius/openvino_movidius.py:84-163 | the detections of an unloaded wrapper are empty, those of a scored image are its records, and a raised exception stays raised |
| App.HandleScore | EdgeSolution/modules/openvinomovidius/app.py:134-167 | 500 with the fixed message exactly on an undecodable image, a scoring exception, a failed upload or a tag `json.dumps` refuses; 204 with no body exactly for no detections; otherwise 200 with the detections. An upload is attempted exactly with detections, `.seconds > 60` and an uploader, and carries the device id, the 20-digit timestamp and the lower-cased format. The lock stays held exactly when scoring raised |
| App.EmptyAnswerIffNothingAboveThreshold | EdgeSolution/modules/openvinomovidius/app.py:149-164 | for a loaded model whose scoring does not raise, the answer is 204 exactly when no raw row has confidence above 0.5 |
| App.TwoOutputWithLabelFileFails | EdgeSolution/modules/openvinomovidius/app.py:156-167 | a two-output network with a label file answers 500 to every request in which it detects something |
| App.ElapsedSinceStart | EdgeSolution/modules/openvinomovidius/app.py:144 | before any detection the throttle's seconds are the current time of day, measured from the initial midnight |
| App.DayLongGapReadsShort | EdgeSolution/modules/openvinomovidius/app.py:150 | a gap of one day and 30 seconds reads as 30 seconds, so it does not reach the upload threshold |
| App.PyLen | EdgeSolution/modules/openvinomovidius/app.py:149 | `len` of what `Score` returns is 0 exactly for the empty list of an unloaded wrapper, and 2 for the returned pair |
| App.HandleScoreAsWritten | EdgeSolution/modules/openvinomovidius/app.py:136-167 | with the wrong number of arguments to `Score`, the handler answers 500, uploads nothing and, once the image decoded, leaves the lock held |
| App.AsWrittenAlwaysFails | EdgeSolution/modules/openvinomovidius/app.py:142-146 | as written, a request whose image does not decode answers 500, and a request whose scoring call is reached answers 500 and leaves the lock held |
| App.AsWrittenEmptyPairIs200 | EdgeSolution/modules/openvinomovidius/app.py:149 | as written, a loaded model finding nothing answers 200, where the corrected handler answers 204 |

## Left out

- Flask routing, `app.run` and the `GET /` health route: HTTP plumbing. The `/score` handler is modelled by its inputs (whether the image decodes, what `Score` returned, the clock readings, whether the upload raises) and its answer.
- The IoT Hub client (`get_twin`, `receive_twin_desired_properties_patch`, `patch_twin_reported_properties`), `setup_iot` and the `twin_update_listener` loop: foreign services. Their payloads are the `Entry` map, the `Json` document and `Option<string>` of the functions in `App`. That an exception from `parse_desired_properties_request` ends the listener thread, or makes `setup_iot` re-raise at start-up, is not modelled beyond the `Raised` result.
- `requests.get`, writing the file, `tarfile` extraction, `os.remove` and `os.makedirs`: I/O. They appear as the `Step` values of `App.Steps`; the download's answer, whether the archive unpacks and what `LoadModel` returns or raises are parameters of `App.ParseDesiredPropertiesRequest`. Failures of `os.makedirs`, of writing the file and of `os.remove` are not modelled.
- `FileUploader` is not part of this model. Its call is the `Upload` value of `App.HandleScore`, and whether it raises is a parameter.
- `threading.Lock`, the daemon thread and `asyncio`: concurrency. Only whether a call leaves the lock held is recorded; the blocking of later callers is not modelled.
- OpenVINO (`IECore`, `read_network`, `load_network`, `infer`), cv2 and numpy are foreign libraries. Their results enter as the `Network` and `Inference` parameters. Setting blob precisions (`openvino_movidius.py:65-72`) is modelled only through the key lookups that can raise. Output names are dictionary keys, so `LoadModel` takes them without repetitions.
- Image preparation, resizing, drawing with `inferenceMark` and writing `out.bmp` (`openvino_movidius.py:88-110,150-161`): image I/O. `Score` takes `inferenceMark` but the model does not use it.
- Movidius.OpenvinoMovidius.Score: coordinates are already-scaled integers and confidences are reals. The float scaling `int(xmin * w)` and the two-output rescale (`openvino_movidius.py:125,140-143`) are floating-point arithmetic and are not modelled.
- Detection.Detected: the constant `'type': 'entity'` of each record is not stored. The JSON encoding of the response body is modelled only as whether `json.dumps` accepts the tags.
- The constructor's `config`/`extension` branches (`openvino_movidius.py:27-33`) refer to undefined names and are never reached; the `config` and `extension` fields are not modelled.
- Environment-variable parsing (`app.py:115-125`): bootstrap plumbing. Whether an uploader is configured is a parameter.
- LabelFile.Labels: the file's byte decoding is not modelled; the text is taken as already decoded.
- PyString.AsciiLower: only ASCII letters are lowered. Image formats are ASCII names.
- Clock.Timestamp: `%Y` is printed without padding, as the C library does on Linux. The 20-digit round trip is proved for years 1000 to 9999.
- App.ModelSpecOf: the `model` entries are taken to be strings. Other JSON types for `url`, `filename`, `name` or `label`, and a `model` value that is neither a string nor a dictionary, are not modelled.

## Findings

| source | as written | input that shows it | evidently intended | confidence | as-written member | corrected member |
|---|---|---|---|---|---|---|
| EdgeSolution/modules/openvinomovidius/app.py:145 | `ovmv.Score(pilImage)` passes one argument to `Score(self, input, inferenceMark)` and raises `TypeError` after `modelLock.acquire()` (line 142), so the release on line 146 is skipped: the first request whose body decodes answers 500, and every later such request, and the next model load (line 62), block on the lock | any `POST /score` whose body decodes as an image | `Score` called with both arguments | high, not executed | App.HandleScoreAsWritten | App.HandleScore |
| EdgeSolution/modules/openvinomovidius/app.py:149 | `len(detectedObjects)` tests the pair `(detectedObjects, 'out.bmp')` that a loaded `Score` returns, whose length is always 2 | once line 145 passes both arguments: a loaded model and an image with no row above 0.5, so `Score` returns `([], 'out.bmp')` | 204 when the detection list is empty | high, not executed | App.HandleScoreAsWritten | App.HandleScore |

`App.AsWrittenAlwaysFails` and `App.AsWrittenEmptyPairIs200` exhibit the two rows. `App.HandleScore` takes the
detection list out of `Score`'s result; its contract and `App.EmptyAnswerIffNothingAboveThreshold` state the intended
204/200/500 behaviour.
