/** The `OpenvinoMovidius` wrapper around the inference engine: a model is
    loaded (status 1) or not (status 0), and scoring turns the engine's raw
    rows into detection records and remembers when something was last seen. */
module Movidius {
  import opened Py
  import Clock
  import LabelFile
  import opened Detection

  /** What the engine's `read_network` reports about a model: the names of its
      inputs and of its outputs (dictionary keys, in order, so without
      repetitions), and whether `load_network` succeeds in placing it on the
      device. */
  datatype Network = Network(inputs: seq<string>, outputs: seq<string>, loadsOnDevice: bool)

  /** Dictionary keys: no name twice. */
  predicate Distinct(names: seq<string>)
  {
    forall i, j :: 0 <= i < j < |names| ==> names[i] != names[j]
  }

  /** The topology check of `LoadModel`: one input, and either one output or
      an output named `boxes` or `labels`. */
  predicate AcceptsTopology(n: Network)
    ensures AcceptsTopology(n) ==> |n.inputs| == 1 && |n.outputs| >= 1
  {
    |n.inputs| == 1 && (|n.outputs| == 1 || "boxes" in n.outputs || "labels" in n.outputs)
  }

  /** The output configuration after the device load looks up both
      `outputs['boxes']` and `outputs['labels']` unless there is one output. */
  predicate OutputsConfigurable(n: Network)
    ensures OutputsConfigurable(n) ==> |n.outputs| >= 1
    ensures OutputsConfigurable(n) && |n.inputs| == 1 ==> AcceptsTopology(n)
  {
    |n.outputs| == 1 || ("boxes" in n.outputs && "labels" in n.outputs)
  }

  /** `read_network` succeeded, the topology was accepted and the device load
      succeeded: the point at which `status` becomes 1. */
  predicate Loads(read: Option<Network>)
    ensures Loads(read) ==> read.Some? && |read.value.inputs| == 1 && read.value.loadsOnDevice
  {
    read.Some? && AcceptsTopology(read.value) && read.value.loadsOnDevice
  }

  /** The topology check lets through a network that names only one of
      `boxes` and `labels`, and the output configuration then raises. */
  lemma OneNamedOutputPassesCheck()
    ensures var n := Network(["data"], ["labels", "scores"], true);
      AcceptsTopology(n) && !OutputsConfigurable(n)
  {
  }

  /** What `Score` returns: `[]` when no model is loaded, otherwise the pair
      `(detectedObjects, 'out.bmp')`, unless the decoding loop raises. */
  datatype ScoreReturn = NotLoaded | Scored(objects: seq<Detected>, filename: string) | ScoreRaised(error: PyError)

  const OutputFilename: string := "out.bmp"

  /** The labels the decoding loop reads: a two-output network first stores
      its `labels` output in `self.labels`, once both outputs were found. */
  function ScoringLabels(outputs: seq<string>, labels: Option<Labels>, raw: Inference): (r: Option<Labels>)
    ensures |outputs| == 1 || "boxes" !in outputs || "labels" !in outputs ==> r == labels
    ensures |outputs| != 1 && "boxes" in outputs && "labels" in outputs ==> r == Some(EngineLabels(raw.labels))
  {
    if |outputs| == 1 || "boxes" !in outputs || "labels" !in outputs then labels
    else Some(EngineLabels(raw.labels))
  }

  /** The records a loaded model with these outputs yields for `raw`, or the
      exception: the engine's result has one entry per output, so a
      two-output network lacking `boxes` or `labels` raises on the lookup. */
  function ScoreOf(outputs: seq<string>, raw: Inference, labelinfo: Option<string>, labels: Option<Labels>)
    : (r: Result<seq<Detected>>)
    ensures |outputs| != 1 && "boxes" !in outputs ==> r == Raised(KeyError("boxes"))
    ensures |outputs| != 1 && "boxes" in outputs && "labels" !in outputs ==> r == Raised(KeyError("labels"))
  {
    var single := |outputs| == 1;
    if !single && "boxes" !in outputs then Raised(KeyError("boxes"))
    else if !single && "labels" !in outputs then Raised(KeyError("labels"))
    else Decode(Candidates(single, raw), labelinfo, ScoringLabels(outputs, labels, raw))
  }

  /** A network with both `boxes` and `labels` never tags with a name from
      the label file: `self.labels` is the engine's array by then, so a label
      file only makes the tag `labels[labels[i]]`, an element of that array. */
  lemma TwoOutputIgnoresLabelFile(outputs: seq<string>, raw: Inference, labelinfo: Option<string>, labels: Option<Labels>)
    requires |outputs| != 1 && "boxes" in outputs && "labels" in outputs
    requires ScoreOf(outputs, raw, labelinfo, labels).Ok?
    ensures forall k :: 0 <= k < |ScoreOf(outputs, raw, labelinfo, labels).value| ==>
      !ScoreOf(outputs, raw, labelinfo, labels).value[k].tag.LabelName?
    ensures Truthy(labelinfo) ==> forall k :: 0 <= k < |ScoreOf(outputs, raw, labelinfo, labels).value| ==>
      ScoreOf(outputs, raw, labelinfo, labels).value[k].tag.ArrayNumber?
  {
    var cs := Candidates(false, raw);
    var lookup := Some(EngineLabels(raw.labels));
    assert ScoreOf(outputs, raw, labelinfo, labels) == Decode(cs, labelinfo, lookup);
    DecodeRecords(cs, labelinfo, lookup);
  }

  class OpenvinoMovidius {
    var device: string
    var net: Option<Network>
    var execNet: Option<Network>
    var inputBlob: Option<string>
    var outputBlob: Option<string>
    var labelinfo: Option<string>
    var labels: Option<Labels>
    var status: int
    var scoredTime: Clock.DateTime

    /** Status 1 means the current network passed the topology check and is
        the one loaded on the device, with its input (and single output)
        recorded. */
    ghost predicate Valid()
      reads this
    {
      (status == 0 || status == 1) && Clock.Valid(scoredTime)
      && (status == 1 ==>
            net.Some? && execNet == net && AcceptsTopology(net.value)
            && inputBlob == Some(net.value.inputs[0])
            && (|net.value.outputs| == 1 ==> outputBlob == Some(net.value.outputs[0])))
    }

    constructor ()
      ensures Valid()
      ensures device == "MYRIAD" && net == None && execNet == None
      ensures inputBlob == None && outputBlob == None && labelinfo == None && labels == None
      ensures status == 0 && scoredTime == Clock.Epoch2000
    {
      device := "MYRIAD";
      net := None;
      execNet := None;
      inputBlob := None;
      outputBlob := None;
      labelinfo := None;
      labels := None;
      status := 0;
      scoredTime := Clock.Epoch2000;
    }

    /** `read` is the engine's answer to `read_network(modelinfo)` (None when
        it raises); `labelFile` is the text of the label file (None when it
        cannot be opened). */
    method LoadModel(modelinfo: string, read: Option<Network>, labelinfo': Option<string>, labelFile: Option<string>)
      returns (r: Result<int>)
      requires Valid()
      requires read.Some? ==> Distinct(read.value.inputs) && Distinct(read.value.outputs)
      modifies this
      ensures Valid()
      ensures r == Raised(ReadNetworkError) <==> read.None?
      ensures r == Ok(-1) <==> read.Some? && !AcceptsTopology(read.value)
      ensures r == Raised(DeviceLoadError) <==> read.Some? && AcceptsTopology(read.value) && !read.value.loadsOnDevice
      ensures r == Raised(KeyError("boxes")) <==> Loads(read) && |read.value.outputs| != 1 && "boxes" !in read.value.outputs
      ensures r == Raised(KeyError("labels")) <==>
                Loads(read) && |read.value.outputs| != 1 && "boxes" in read.value.outputs && "labels" !in read.value.outputs
      ensures r == Raised(FileError) <==>
                Loads(read) && OutputsConfigurable(read.value) && Truthy(labelinfo') && labelFile.None?
      ensures r == Ok(0) <==>
                Loads(read) && OutputsConfigurable(read.value) && (Truthy(labelinfo') ==> labelFile.Some?)
      ensures status == (if Loads(read) then 1 else 0)
      ensures net == (if read.Some? then read else old(net))
      ensures execNet == (if Loads(read) then read else old(execNet))
      ensures inputBlob == (if Loads(read) then Some(read.value.inputs[0]) else old(inputBlob))
      ensures outputBlob == (if Loads(read) && |read.value.outputs| == 1 then Some(read.value.outputs[0]) else old(outputBlob))
      ensures labelinfo == (if Loads(read) && OutputsConfigurable(read.value) then labelinfo' else old(labelinfo))
      ensures labels == (if Loads(read) && OutputsConfigurable(read.value) && Truthy(labelinfo') && labelFile.Some?
                         then Some(FileLabels(LabelFile.Labels(labelFile.value))) else old(labels))
      ensures device == old(device) && scoredTime == old(scoredTime)
    {
      status := 0;
      if read.None? {
        return Raised(ReadNetworkError);
      }
      var n := read.value;
      net := read;
      if |n.inputs| != 1 {
        return Ok(-1);
      }
      if |n.outputs| != 1 && !("boxes" in n.outputs || "labels" in n.outputs) {
        return Ok(-1);
      }
      if !n.loadsOnDevice {
        return Raised(DeviceLoadError);
      }
      execNet := read;
      status := 1;
      inputBlob := Some(n.inputs[0]);
      if |n.outputs| == 1 {
        outputBlob := Some(n.outputs[0]);
      } else {
        if "boxes" !in n.outputs {
          return Raised(KeyError("boxes"));
        }
        if "labels" !in n.outputs {
          return Raised(KeyError("labels"));
        }
      }
      labelinfo := labelinfo';
      if Truthy(labelinfo') {
        if labelFile.None? {
          return Raised(FileError);
        }
        labels := Some(FileLabels(LabelFile.Labels(labelFile.value)));
      }
      return Ok(0);
    }

    /** `raw` is the engine's answer to `infer` for this image; `now` is the
        clock reading `datetime.now()`. */
    method Score(inferenceMark: bool, raw: Inference, now: Clock.DateTime) returns (r: ScoreReturn)
      requires Valid() && Clock.Valid(now)
      modifies this
      ensures Valid()
      ensures old(status) == 0 ==> r == NotLoaded && labels == old(labels) && scoredTime == old(scoredTime)
      ensures old(status) == 1 ==>
        var outputs := old(net).value.outputs;
        var out := ScoreOf(outputs, raw, old(labelinfo), old(labels));
        r == (if out.Ok? then Scored(out.value, OutputFilename) else ScoreRaised(out.error))
        && labels == ScoringLabels(outputs, old(labels), raw)
        && scoredTime == (if out.Ok? && out.value != [] then now else old(scoredTime))
      ensures status == old(status) && net == old(net) && execNet == old(execNet)
      ensures inputBlob == old(inputBlob) && outputBlob == old(outputBlob)
      ensures labelinfo == old(labelinfo) && device == old(device)
    {
      if status == 0 {
        return NotLoaded;
      }
      var outputs := net.value.outputs;
      var single := |outputs| == 1;
      if !single {
        if "boxes" !in outputs {
          return ScoreRaised(KeyError("boxes"));
        }
        if "labels" !in outputs {
          return ScoreRaised(KeyError("labels"));
        }
        labels := Some(EngineLabels(raw.labels));
      }
      var out := DecodeRows(Candidates(single, raw), labelinfo, labels);
      if out.Raised? {
        return ScoreRaised(out.error);
      }
      if |out.value| > 0 {
        scoredTime := now;
      }
      return Scored(out.value, OutputFilename);
    }

    function GetStatus(): (s: int)
      reads this
      requires Valid()
      ensures s == 0 || s == 1
      ensures s == 1 ==> net.Some? && execNet == net && AcceptsTopology(net.value)
    {
      status
    }

    function GetScoredTime(): (t: Clock.DateTime)
      reads this
      requires Valid()
      ensures Clock.Valid(t)
    {
      scoredTime
    }
  }
}
