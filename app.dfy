/** The decisions the module's web and device-twin glue makes: the reported
    status document, what a desired-properties update sets in motion, and how
    a `/score` request is answered and when its image is uploaded. */
module App {
  import opened Py
  import opened PyString
  import Clock
  import opened Detection
  import opened Movidius

  // ---------------------------------------------------------------------------
  // update_reported_properties

  /** The status word reported for the wrapper's status code. */
  function ReportingStatus(status: int): (s: string)
    ensures s == "initialized" <==> status == 0
    ensures s == "model-loaded" <==> status == 1
    ensures s == "unknown" <==> status != 0 && status != 1
  {
    if status == 0 then "initialized"
    else if status == 1 then "model-loaded"
    else "unknown"
  }

  /** The wrapper only ever reports one of the two known words. */
  lemma WrapperStatusIsKnown(o: OpenvinoMovidius)
    requires o.Valid()
    ensures ReportingStatus(o.GetStatus()) in {"initialized", "model-loaded"}
  {
  }

  /** The JSON documents the module reports. */
  datatype Json = JString(s: string) | JObject(fields: map<string, Json>)

  /** `{'current_status': {'status': ..., 'model': ...}}`: the model entry
      starts as `''` and is overwritten only by a truthy model name. */
  function ReportedProperties(status: int, model: Option<string>): (doc: Json)
    ensures doc.JObject? && doc.fields.Keys == {"current_status"}
    ensures doc.fields["current_status"].JObject?
    ensures doc.fields["current_status"].fields.Keys == {"status", "model"}
  {
    var current := map["status" := JString(ReportingStatus(status)), "model" := JString("")];
    var current := if Truthy(model) then current["model" := JString(model.value)] else current;
    JObject(map["current_status" := JObject(current)])
  }

  /** Reads the two reported strings back out of a status document. */
  function ReadReported(doc: Json): Option<(string, string)>
  {
    if doc.JObject? && "current_status" in doc.fields then
      var c := doc.fields["current_status"];
      if c.JObject? && "status" in c.fields && "model" in c.fields
         && c.fields["status"].JString? && c.fields["model"].JString?
      then Some((c.fields["status"].s, c.fields["model"].s))
      else None
    else None
  }

  /** The document carries the status word of the code, and the model name
      exactly when one was given and is non-empty; otherwise `''`. */
  lemma ReportedRoundTrip(status: int, model: Option<string>)
    ensures ReadReported(ReportedProperties(status, model))
            == Some((ReportingStatus(status), if model.Some? then model.value else ""))
  {
  }

  // ---------------------------------------------------------------------------
  // parse_desired_properties_request

  /** A top-level value of the desired properties; the `model` entry is a
      dictionary of strings. */
  datatype Entry = Text(text: string) | Fields(fields: map<string, string>)

  /** The fields read from `desired['model']`. */
  datatype ModelSpec = ModelSpec(url: string, filename: string, name: string, labelName: Option<string>)

  /** Lines 35-41: no `model` key means nothing to do; otherwise `url`,
      `filename` and `name` are read in that order (a missing one raises
      `KeyError`, a `model` that is a string raises `TypeError`) and `label`
      is optional. */
  function ModelSpecOf(desired: map<string, Entry>): (r: Result<Option<ModelSpec>>)
    ensures r == Ok(None) <==> "model" !in desired
    ensures r.Ok? && r.value.Some? ==>
      "model" in desired && desired["model"].Fields?
      && var f := desired["model"].fields;
      "url" in f && "filename" in f && "name" in f
      && r.value.value == ModelSpec(f["url"], f["filename"], f["name"], if "label" in f then Some(f["label"]) else None)
    ensures r.Raised? <==>
      "model" in desired && (desired["model"].Text? || !("url" in desired["model"].fields
                                                         && "filename" in desired["model"].fields
                                                         && "name" in desired["model"].fields))
  {
    if "model" !in desired then Ok(None)
    else match desired["model"]
      case Text(_) => Raised(TypeError)
      case Fields(f) =>
        if "url" !in f then Raised(KeyError("url"))
        else if "filename" !in f then Raised(KeyError("filename"))
        else if "name" !in f then Raised(KeyError("name"))
        else Ok(Some(ModelSpec(f["url"], f["filename"], f["name"], if "label" in f then Some(f["label"]) else None)))
  }

  /** The side effects of a model update, in order. */
  datatype Step =
    | Fetch(url: string)                                  // requests.get
    | MakeFolder(folder: string)                          // os.makedirs(..., exist_ok=True)
    | Save(path: string)                                  // write the response body
    | Unpack(archive: string, folder: string)             // tarfile extractall
    | Remove(path: string)                                // os.remove
    | Load(modelPath: string, labelPath: Option<string>)  // ovmv.LoadModel, under the lock

  const ModelFolder: string := "model"

  predicate IsLoad(s: Step) { s.Load? }
  predicate IsUnpack(s: Step) { s.Unpack? }
  predicate IsRemove(s: Step) { s.Remove? }

  /** The `LoadModel` call of a downloaded model: the model path, and a label
      path exactly when the label name is non-empty. */
  function LoadStep(spec: ModelSpec, cwd: string): (st: Step)
    ensures st.Load?
    ensures st.modelPath == PathJoin(PathJoin(cwd, ModelFolder), spec.name)
    ensures st.labelPath.Some? <==> Truthy(spec.labelName)
    ensures Truthy(spec.labelName) ==> st.labelPath == Some(PathJoin(PathJoin(cwd, ModelFolder), spec.labelName.value))
  {
    var folder := PathJoin(cwd, ModelFolder);
    Load(PathJoin(folder, spec.name),
         if Truthy(spec.labelName) then Some(PathJoin(folder, spec.labelName.value)) else None)
  }

  /** The order of the side effects: fetch; then, after a 200, create the
      folder, save the file, unpack and remove it when it is an archive, and
      load the model. */
  function Plan(url: string, saved: string, downloaded: bool, archive: bool, load: Step): (st: seq<Step>)
    ensures |st| > 0 && st[0] == Fetch(url)
    ensures downloaded ==> st[|st| - 1] == load
  {
    if !downloaded then [Fetch(url)]
    else if archive then [Fetch(url), MakeFolder(ModelFolder), Save(saved), Unpack(saved, ModelFolder), Remove(saved), load]
    else [Fetch(url), MakeFolder(ModelFolder), Save(saved), load]
  }

  /** A load, an unpack and a removal each happen only where the plan calls
      for them. */
  lemma PlanShape(url: string, saved: string, downloaded: bool, archive: bool, load: Step)
    requires load.Load?
    ensures (exists k :: 0 <= k < |Plan(url, saved, downloaded, archive, load)|
                         && IsLoad(Plan(url, saved, downloaded, archive, load)[k])) <==> downloaded
    ensures (exists k :: 0 <= k < |Plan(url, saved, downloaded, archive, load)|
                         && IsUnpack(Plan(url, saved, downloaded, archive, load)[k])) <==> downloaded && archive
    ensures (exists k :: 0 <= k < |Plan(url, saved, downloaded, archive, load)|
                         && IsRemove(Plan(url, saved, downloaded, archive, load)[k])) <==> downloaded && archive
  {
    var st := Plan(url, saved, downloaded, archive, load);
    if downloaded {
      assert IsLoad(st[|st| - 1]);
      if archive {
        assert IsUnpack(st[3]) && IsRemove(st[4]);
      }
    }
  }

  /** Lines 42-64 for a model update whose download answered `statusCode`. */
  function Steps(spec: ModelSpec, statusCode: int, cwd: string): (st: seq<Step>)
    ensures |st| > 0 && st[0] == Fetch(spec.url)
    ensures statusCode == 200 ==> st[|st| - 1] == LoadStep(spec, cwd)
  {
    Plan(spec.url, PathJoin(ModelFolder, spec.filename), statusCode == 200, EndsWith(spec.filename, ".tgz"), LoadStep(spec, cwd))
  }

  /** For a downloaded archive the plan has six steps: the save is the
      third, the unpack the fourth, the removal the fifth and the load, the
      last, is the only load. */
  lemma ArchivePlanShape(url: string, saved: string, load: Step)
    ensures var st := Plan(url, saved, true, true, load);
      |st| == 6 && st[2] == Save(saved) && st[3] == Unpack(saved, ModelFolder) && st[4] == Remove(saved) && st[5] == load
      && forall k :: 0 <= k < 5 ==> !IsLoad(st[k])
  {
  }

  /** A downloaded archive is saved, unpacked and removed before the load,
      which is the last of its six steps. */
  lemma DownloadedArchivePlan(spec: ModelSpec, cwd: string)
    requires EndsWith(spec.filename, ".tgz")
    ensures var st := Steps(spec, 200, cwd);
      var saved := PathJoin(ModelFolder, spec.filename);
      |st| == 6 && st[2] == Save(saved) && st[3] == Unpack(saved, ModelFolder) && st[4] == Remove(saved)
      && st[5] == LoadStep(spec, cwd)
      && forall k :: 0 <= k < 5 ==> !IsLoad(st[k])
  {
    var saved, load := PathJoin(ModelFolder, spec.filename), LoadStep(spec, cwd);
    assert Steps(spec, 200, cwd) == Plan(spec.url, saved, true, true, load);
    ArchivePlanShape(spec.url, saved, load);
  }

  /** The model is loaded exactly when the download answered 200, and the
      archive is unpacked exactly when, in addition, the file name ends in
      `.tgz`. */
  lemma StepsPlan(spec: ModelSpec, statusCode: int, cwd: string)
    ensures (exists k :: 0 <= k < |Steps(spec, statusCode, cwd)| && IsLoad(Steps(spec, statusCode, cwd)[k]))
            <==> statusCode == 200
    ensures (exists k :: 0 <= k < |Steps(spec, statusCode, cwd)| && IsUnpack(Steps(spec, statusCode, cwd)[k]))
            <==> statusCode == 200 && EndsWith(spec.filename, ".tgz")
  {
    var downloaded, archive := statusCode == 200, EndsWith(spec.filename, ".tgz");
    var st := Plan(spec.url, PathJoin(ModelFolder, spec.filename), downloaded, archive, LoadStep(spec, cwd));
    assert Steps(spec, statusCode, cwd) == st;
    PlanShape(spec.url, PathJoin(ModelFolder, spec.filename), downloaded, archive, LoadStep(spec, cwd));
  }

  /** The saved file is removed exactly when the download answered 200 and
      the file name ends in `.tgz`, that is, exactly when it was unpacked. */
  lemma StepsRemoval(spec: ModelSpec, statusCode: int, cwd: string)
    ensures (exists k :: 0 <= k < |Steps(spec, statusCode, cwd)| && IsRemove(Steps(spec, statusCode, cwd)[k]))
            <==> statusCode == 200 && EndsWith(spec.filename, ".tgz")
  {
    var downloaded, archive := statusCode == 200, EndsWith(spec.filename, ".tgz");
    var st := Plan(spec.url, PathJoin(ModelFolder, spec.filename), downloaded, archive, LoadStep(spec, cwd));
    assert Steps(spec, statusCode, cwd) == st;
    PlanShape(spec.url, PathJoin(ModelFolder, spec.filename), downloaded, archive, LoadStep(spec, cwd));
  }

  /** What `requests.get` gives: a response with its status code, or an
      exception when the URL cannot be reached. */
  datatype Download = Answered(statusCode: int) | Unreachable

  /** The steps a call attempted, what it returned or raised, and whether it
      left `modelLock` held: an exception from `LoadModel` skips the release
      on line 64, and every later `acquire` then blocks. */
  datatype Applied = Applied(steps: seq<Step>, result: Result<Option<string>>, lockHeld: bool)

  /** Lines 33-72. `download` is the answer of `requests.get`, `archiveOk`
      says whether `tarfile` can open and extract the saved file, and `load` is
      what `LoadModel` returns or raises for the paths of the `Load` step. */
  function ParseDesiredPropertiesRequest(desired: map<string, Entry>, download: Download, archiveOk: bool,
                                         load: Result<int>, cwd: string): (a: Applied)
    ensures ModelSpecOf(desired).Raised? ==> a == Applied([], Raised(ModelSpecOf(desired).error), false)
    ensures a.result.Ok? && a.result.value.Some? ==>
      ModelSpecOf(desired).Ok? && ModelSpecOf(desired).value.Some?
      && a.result.value.value == ModelSpecOf(desired).value.value.name
    ensures a.steps != [] ==> ModelSpecOf(desired).Ok? && ModelSpecOf(desired).value.Some?
                              && a.steps[0] == Fetch(ModelSpecOf(desired).value.value.url)
    ensures a.lockHeld <==> a.result.Raised? && a.steps != [] && IsLoad(a.steps[|a.steps| - 1])
    ensures a.lockHeld ==> load.Raised? && a.result == Raised(load.error)
    ensures ModelSpecOf(desired).Ok? && ModelSpecOf(desired).value.Some? && download.Answered?
            && !(download.statusCode == 200 && EndsWith(ModelSpecOf(desired).value.value.filename, ".tgz") && !archiveOk)
            ==> a.steps == Steps(ModelSpecOf(desired).value.value, download.statusCode, cwd)
  {
    match ModelSpecOf(desired)
    case Raised(e) => Applied([], Raised(e), false)
    case Ok(None) => Applied([], Ok(None), false)
    case Ok(Some(spec)) =>
      match download
      case Unreachable => Applied([Fetch(spec.url)], Raised(RequestError), false)
      case Answered(code) =>
        var st := Steps(spec, code, cwd);
        if code != 200 then Applied(st, Ok(Some(spec.name)), false)
        else if EndsWith(spec.filename, ".tgz") && !archiveOk then
          DownloadedArchivePlan(spec, cwd);
          Applied(st[..4], Raised(ArchiveError), false)
        else if load.Raised? then Applied(st, Raised(load.error), true)
        else Applied(st, Ok(Some(spec.name)), false)
  }

  /** Without a `model` key the call does nothing and returns None; when it
      returns with one, it returns the model's `name`, having fetched first. */
  lemma ParseDesiredReturns(desired: map<string, Entry>, download: Download, archiveOk: bool, load: Result<int>, cwd: string)
    ensures "model" !in desired ==>
      ParseDesiredPropertiesRequest(desired, download, archiveOk, load, cwd) == Applied([], Ok(None), false)
    ensures "model" in desired && ParseDesiredPropertiesRequest(desired, download, archiveOk, load, cwd).result.Ok? ==>
      desired["model"].Fields? && "name" in desired["model"].fields
      && ParseDesiredPropertiesRequest(desired, download, archiveOk, load, cwd).result.value == Some(desired["model"].fields["name"])
      && ParseDesiredPropertiesRequest(desired, download, archiveOk, load, cwd).steps != []
  {
  }

  /** The call raises exactly when the `model` entry is malformed, the URL
      cannot be reached, or, after a 200 answer, the archive cannot be
      unpacked or `LoadModel` raises. A non-200 answer never raises. */
  lemma ParseDesiredRaisesIff(desired: map<string, Entry>, download: Download, archiveOk: bool, load: Result<int>, cwd: string)
    ensures var a := ParseDesiredPropertiesRequest(desired, download, archiveOk, load, cwd);
      var spec := ModelSpecOf(desired);
      a.result.Raised? <==>
        spec.Raised?
        || (spec.value.Some?
            && (download.Unreachable?
                || (download.statusCode == 200
                    && ((EndsWith(spec.value.value.filename, ".tgz") && !archiveOk) || load.Raised?))))
  {
  }

  /** After a 200 answer for an archive that cannot be unpacked, the call
      stops at the unpack step: it neither removes the file nor loads. */
  lemma ArchiveFailureStopsBeforeLoad(spec: ModelSpec, desired: map<string, Entry>, load: Result<int>, cwd: string)
    requires ModelSpecOf(desired) == Ok(Some(spec)) && EndsWith(spec.filename, ".tgz")
    ensures var a := ParseDesiredPropertiesRequest(desired, Answered(200), false, load, cwd);
      |a.steps| == 4 && a.steps[3].Unpack?
      && forall k :: 0 <= k < |a.steps| ==> !IsLoad(a.steps[k])
  {
    ArchiveFailureSteps(spec, desired, load, cwd);
    PrefixWithoutLoad(Steps(spec, 200, cwd));
  }

  /** The first four steps of a downloaded archive's plan hold no load. */
  lemma PrefixWithoutLoad(st: seq<Step>)
    requires |st| == 6 && st[3].Unpack? && forall k :: 0 <= k < 5 ==> !IsLoad(st[k])
    ensures |st[..4]| == 4 && st[..4][3].Unpack? && forall k :: 0 <= k < 4 ==> !IsLoad(st[..4][k])
  {
  }

  lemma ArchiveFailureSteps(spec: ModelSpec, desired: map<string, Entry>, load: Result<int>, cwd: string)
    requires ModelSpecOf(desired) == Ok(Some(spec)) && EndsWith(spec.filename, ".tgz")
    ensures |Steps(spec, 200, cwd)| == 6 && Steps(spec, 200, cwd)[3].Unpack?
    ensures forall k :: 0 <= k < 5 ==> !IsLoad(Steps(spec, 200, cwd)[k])
    ensures ParseDesiredPropertiesRequest(desired, Answered(200), false, load, cwd)
            == Applied(Steps(spec, 200, cwd)[..4], Raised(ArchiveError), false)
  {
    DownloadedArchivePlan(spec, cwd);
  }

  /** Whenever two calls on the same desired properties both return, they
      return the same value, whatever the download and the load did. */
  lemma ReturnedIgnoresDownload(desired: map<string, Entry>, d1: Download, d2: Download, ok1: bool, ok2: bool,
                                load1: Result<int>, load2: Result<int>, cwd: string)
    ensures var a1 := ParseDesiredPropertiesRequest(desired, d1, ok1, load1, cwd);
      var a2 := ParseDesiredPropertiesRequest(desired, d2, ok2, load2, cwd);
      a1.result.Ok? && a2.result.Ok? ==> a1.result == a2.result
  {
  }

  // ---------------------------------------------------------------------------
  // The /score handler

  /** `time_delta_sec`. */
  const UploadIntervalSeconds: int := 60

  const ExceptionMessage: string := "Exception occured while processing the image."

  datatype Body = NoBody | Inferences(objects: seq<Detected>) | ScoreValue(value: ScoreReturn) | Message(text: string)

  datatype Response = Response(status: int, body: Body)

  /** The arguments of `fileUploader.upload` besides the image bytes. */
  datatype Upload = Upload(deviceId: string, timestamp: string, extension: string)

  /** The response, the upload attempted on the way, if any, and whether the
      handler left `modelLock` held: an exception between the `acquire` on
      line 142 and the `release` on line 146 skips the release, and every
      later request and model load then blocks on the lock. */
  datatype Handled = Handled(response: Response, upload: Option<Upload>, lockHeld: bool)

  const Failed: Response := Response(500, Message(ExceptionMessage))

  /** Lines 149-153: upload only with detections, more than 60 in the
      elapsed time's seconds component, and an uploader configured. */
  predicate UploadDue(detections: nat, elapsedSeconds: int, uploaderConfigured: bool)
    ensures UploadDue(detections, elapsedSeconds, uploaderConfigured) ==> elapsedSeconds >= 61 && detections >= 1
  {
    detections > 0 && elapsedSeconds > UploadIntervalSeconds && uploaderConfigured
  }

  /** Whether `json.dumps` accepts the detections (line 159): it refuses an
      element of a numpy array, the tag of a two-output network that has a
      label file. Confidences and box corners are Python numbers already. */
  predicate JsonEncodable(objects: seq<Detected>)
    ensures (forall k :: 0 <= k < |objects| ==> objects[k].tag.LabelName? || objects[k].tag.Number?)
            ==> JsonEncodable(objects)
    ensures JsonEncodable(objects) ==> forall k :: 0 <= k < |objects| ==> !objects[k].tag.ArrayNumber?
  {
    forall k :: 0 <= k < |objects| ==> !objects[k].tag.ArrayNumber?
  }

  /** The detections in what `Score` returned. */
  function DetectionsOf(v: ScoreReturn): (r: Result<seq<Detected>>)
    ensures v.NotLoaded? ==> r == Ok([])
    ensures v.Scored? ==> r == Ok(v.objects)
    ensures v.ScoreRaised? ==> r == Raised(v.error)
  {
    match v
    case NotLoaded => Ok([])
    case Scored(objects, _) => Ok(objects)
    case ScoreRaised(e) => Raised(e)
  }

  /** The handler with `Score` called as its signature requires and its
      detection list taken out of the returned pair. `decoded` says whether
      `Image.open` accepted the body, `outcome` is what `Score` returned,
      `nowTime` is read under the lock before scoring, `uploadNow` is the
      clock reading for the timestamp and `uploadFails` says whether the
      upload raises. */
  function HandleScore(decoded: bool, outcome: ScoreReturn, nowTime: Clock.DateTime, scoredTime: Clock.DateTime,
                       uploaderConfigured: bool, uploadNow: Clock.DateTime, uploadFails: bool,
                       deviceId: string, format: string): (h: Handled)
    requires Clock.Valid(nowTime) && Clock.Valid(scoredTime) && Clock.Valid(uploadNow)
    ensures h.response.status in {200, 204, 500}
    ensures h.upload.Some? <==>
      decoded && DetectionsOf(outcome).Ok?
      && UploadDue(|DetectionsOf(outcome).value|, Clock.SecondsComponent(nowTime, scoredTime), uploaderConfigured)
    ensures h.upload.Some? ==> h.upload.value == Upload(deviceId, Clock.Timestamp(uploadNow), AsciiLower(format))
    ensures h.response.status == 500 <==>
      !decoded || DetectionsOf(outcome).Raised? || (h.upload.Some? && uploadFails)
      || (DetectionsOf(outcome).Ok? && !JsonEncodable(DetectionsOf(outcome).value))
    ensures h.response.status == 500 ==> h.response == Failed
    ensures h.lockHeld <==> decoded && DetectionsOf(outcome).Raised?
    ensures h.response.status == 204 <==> decoded && DetectionsOf(outcome) == Ok([])
    ensures h.response.status == 204 ==> h.response.body == NoBody
    ensures h.response.status == 200 ==>
      DetectionsOf(outcome).Ok? && DetectionsOf(outcome).value != []
      && JsonEncodable(DetectionsOf(outcome).value)
      && h.response.body == Inferences(DetectionsOf(outcome).value)
  {
    if !decoded then Handled(Failed, None, false)
    else match DetectionsOf(outcome)
      case Raised(_) => Handled(Failed, None, true)
      case Ok(objects) =>
        if |objects| > 0 then
          var seconds := Clock.SecondsComponent(nowTime, scoredTime);
          if seconds > UploadIntervalSeconds && uploaderConfigured then
            var up := Upload(deviceId, Clock.Timestamp(uploadNow), AsciiLower(format));
            if uploadFails || !JsonEncodable(objects) then Handled(Failed, Some(up), false)
            else Handled(Response(200, Inferences(objects)), Some(up), false)
          else if !JsonEncodable(objects) then Handled(Failed, None, false)
          else Handled(Response(200, Inferences(objects)), None, false)
        else Handled(Response(204, NoBody), None, false)
  }

  /** For a loaded model whose scoring succeeds, the corrected handler
      answers 204 exactly when no row of the engine's answer is above the
      confidence threshold. */
  lemma EmptyAnswerIffNothingAboveThreshold(outputs: seq<string>, raw: Inference, labelinfo: Option<string>,
                                            labels: Option<Labels>, nowTime: Clock.DateTime, scoredTime: Clock.DateTime,
                                            uploaderConfigured: bool, uploadNow: Clock.DateTime, uploadFails: bool,
                                            deviceId: string, format: string)
    requires Clock.Valid(nowTime) && Clock.Valid(scoredTime) && Clock.Valid(uploadNow)
    requires ScoreOf(outputs, raw, labelinfo, labels).Ok?
    ensures var cs := Candidates(|outputs| == 1, raw);
      HandleScore(true, Scored(ScoreOf(outputs, raw, labelinfo, labels).value, OutputFilename), nowTime, scoredTime,
                  uploaderConfigured, uploadNow, uploadFails, deviceId, format).response.status == 204
      <==> forall i :: 0 <= i < |cs| ==> cs[i].confidence <= Threshold
  {
    DecodeEmptyIff(Candidates(|outputs| == 1, raw), labelinfo, ScoringLabels(outputs, labels, raw));
  }

  /** A two-output network with a label file answers every request in which
      it detects something with 500: its tags are numpy array elements, which
      `json.dumps` refuses, after the upload has been attempted. */
  lemma TwoOutputWithLabelFileFails(outputs: seq<string>, raw: Inference, labelinfo: Option<string>,
                                    labels: Option<Labels>, nowTime: Clock.DateTime, scoredTime: Clock.DateTime,
                                    uploaderConfigured: bool, uploadNow: Clock.DateTime, uploadFails: bool,
                                    deviceId: string, format: string)
    requires Clock.Valid(nowTime) && Clock.Valid(scoredTime) && Clock.Valid(uploadNow)
    requires |outputs| != 1 && "boxes" in outputs && "labels" in outputs && Truthy(labelinfo)
    requires ScoreOf(outputs, raw, labelinfo, labels).Ok? && ScoreOf(outputs, raw, labelinfo, labels).value != []
    ensures HandleScore(true, Scored(ScoreOf(outputs, raw, labelinfo, labels).value, OutputFilename), nowTime, scoredTime,
                        uploaderConfigured, uploadNow, uploadFails, deviceId, format).response == Failed
  {
    TwoOutputIgnoresLabelFile(outputs, raw, labelinfo, labels);
    assert ScoreOf(outputs, raw, labelinfo, labels).value[0].tag.ArrayNumber?;
  }

  /** The throttle is strict: 60 seconds is not enough, 61 is. */
  lemma UploadBoundary()
    ensures !UploadDue(1, 60, true) && UploadDue(1, 61, true)
  {
  }

  /** Until the first detection the throttle measures from midnight of
      2000-01-01, so its seconds component is the time of day: a first
      detection within the first minute after midnight is not uploaded. */
  lemma ElapsedSinceStart(now: Clock.DateTime)
    requires Clock.Valid(now)
    ensures Clock.SecondsComponent(now, Clock.Epoch2000) == now.hour * 3600 + now.minute * 60 + now.second
  {
    Clock.Epoch2000Ordinal();
    var sec := now.hour * 3600 + now.minute * 60 + now.second;
    var t := Clock.TimeDelta(Clock.Ordinal(now) - 730120, sec, now.microsecond);
    assert Clock.Normalised(t, Clock.Instant(now) - Clock.Instant(Clock.Epoch2000));
    Clock.NormalisedUnique(t, Clock.Instant(now) - Clock.Instant(Clock.Epoch2000));
  }

  /** A gap of a day and half a minute reads as 30 seconds: no upload. */
  lemma DayLongGapReadsShort()
    ensures var last := Clock.DateTime(2020, 5, 1, 12, 0, 0, 0);
      var now := Clock.DateTime(2020, 5, 2, 12, 0, 30, 0);
      Clock.Valid(last) && Clock.Valid(now)
      && Clock.Instant(now) - Clock.Instant(last) > Clock.MicrosPerDay
      && Clock.SecondsComponent(now, last) == 30
  {
    var last := Clock.DateTime(2020, 5, 1, 12, 0, 0, 0);
    var now := Clock.DateTime(2020, 5, 2, 12, 0, 30, 0);
    assert Clock.Ordinal(now) == Clock.Ordinal(last) + 1;
    var t := Clock.TimeDelta(1, 30, 0);
    assert Clock.Normalised(t, Clock.Instant(now) - Clock.Instant(last));
    Clock.NormalisedUnique(t, Clock.Instant(now) - Clock.Instant(last));
  }

  // ---------------------------------------------------------------------------
  // The /score handler as written

  /** `Score(self, input, inferenceMark)` takes two arguments. */
  const ScoreParameters: nat := 2

  /** `ovmv.Score(pilImage)` passes one. */
  const ArgumentsPassed: nat := 1

  /** Python's `len` of what `Score` returns: `[]`, or a pair. */
  function PyLen(v: ScoreReturn): (n: nat)
    requires !v.ScoreRaised?
    ensures n == 0 <==> v.NotLoaded?
    ensures v.Scored? ==> n == 2
  {
    if v.NotLoaded? then 0 else 2
  }

  /** The handler as the source has it, for a call passing `passed`
      arguments: a wrong count raises `TypeError` before `Score` runs; the
      returned value is tested with `len` and sent back whole. */
  function HandleScoreAsWritten(decoded: bool, passed: nat, outcome: ScoreReturn,
                                nowTime: Clock.DateTime, scoredTime: Clock.DateTime,
                                uploaderConfigured: bool, uploadNow: Clock.DateTime, uploadFails: bool,
                                deviceId: string, format: string): (h: Handled)
    requires Clock.Valid(nowTime) && Clock.Valid(scoredTime) && Clock.Valid(uploadNow)
    ensures passed != ScoreParameters ==> h == Handled(Failed, None, decoded)
    ensures h.lockHeld <==> decoded && (passed != ScoreParameters || outcome.ScoreRaised?)
  {
    if !decoded then Handled(Failed, None, false)
    else if passed != ScoreParameters || outcome.ScoreRaised? then Handled(Failed, None, true)
    else if PyLen(outcome) > 0 then
      var seconds := Clock.SecondsComponent(nowTime, scoredTime);
      if seconds > UploadIntervalSeconds && uploaderConfigured then
        var up := Upload(deviceId, Clock.Timestamp(uploadNow), AsciiLower(format));
        if uploadFails || !JsonEncodable(outcome.objects) then Handled(Failed, Some(up), false)
        else Handled(Response(200, ScoreValue(outcome)), Some(up), false)
      else if !JsonEncodable(outcome.objects) then Handled(Failed, None, false)
      else Handled(Response(200, ScoreValue(outcome)), None, false)
    else Handled(Response(204, NoBody), None, false)
  }

  /** As written, one call answers 500 and uploads nothing: a request whose
      image does not decode fails before the lock, and the first request whose
      image decodes reaches the scoring call, fails and leaves the lock held.
      Only that first such request reaches the scoring call; later ones block
      at the `acquire`, which this single-call view does not show. */
  lemma AsWrittenAlwaysFails(decoded: bool, outcome: ScoreReturn, nowTime: Clock.DateTime, scoredTime: Clock.DateTime,
                             uploaderConfigured: bool, uploadNow: Clock.DateTime, uploadFails: bool,
                             deviceId: string, format: string)
    requires Clock.Valid(nowTime) && Clock.Valid(scoredTime) && Clock.Valid(uploadNow)
    ensures HandleScoreAsWritten(decoded, ArgumentsPassed, outcome, nowTime, scoredTime, uploaderConfigured,
                                 uploadNow, uploadFails, deviceId, format).response.status == 500
    ensures decoded ==> HandleScoreAsWritten(decoded, ArgumentsPassed, outcome, nowTime, scoredTime, uploaderConfigured,
                                             uploadNow, uploadFails, deviceId, format).lockHeld
  {
  }

  /** Even with the argument supplied, a loaded model that finds nothing
      returns `([], 'out.bmp')`, whose `len` is 2: the handler answers 200
      where the corrected one answers 204. */
  lemma AsWrittenEmptyPairIs200(nowTime: Clock.DateTime, scoredTime: Clock.DateTime, uploadNow: Clock.DateTime,
                                deviceId: string, format: string)
    requires Clock.Valid(nowTime) && Clock.Valid(scoredTime) && Clock.Valid(uploadNow)
    ensures var empty := Scored([], OutputFilename);
      HandleScoreAsWritten(true, ScoreParameters, empty, nowTime, scoredTime, false, uploadNow, false, deviceId, format).response.status == 200
      && HandleScore(true, empty, nowTime, scoredTime, false, uploadNow, false, deviceId, format).response.status == 204
  {
  }
}
