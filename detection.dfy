/** How `Score` turns the engine's raw output rows into detection records:
    unpack each row, keep those whose confidence exceeds 0.5, choose the tag
    and compute the box. */
module Detection {
  import opened Py

  /** The `tag.value` of a record: a name from the label file, the class id
      as a Python `int`, or an element of the engine's `labels` array (a numpy
      integer, which `json.dumps` refuses). */
  datatype Tag = LabelName(name: string) | Number(n: int) | ArrayNumber(n: int)

  /** `{'l': xmin, 't': ymin, 'w': xmax - xmin, 'h': ymax - ymin}`. */
  datatype Box = Box(l: int, t: int, w: int, h: int)

  /** `{'type': 'entity', 'entity': {'tag': {'value': tag, 'confidence': c}, 'box': box}}`;
      the `type` is always `'entity'`. */
  datatype Detected = Detected(tag: Tag, confidence: real, box: Box)

  /** What `self.labels` holds: names read from the label file, or the
      engine's `labels` output of a two-output network. */
  datatype Labels = FileLabels(names: seq<string>) | EngineLabels(ids: seq<int>)

  /** One row `[image_id, class_id, confidence, xmin, ymin, xmax, ymax]` of a
      single-output network; `classId` is `int(class_id)` and the corners are
      already scaled to the image. */
  datatype Row = Row(imageId: real, classId: int, confidence: real,
                     xmin: int, ymin: int, xmax: int, ymax: int)

  /** One row `[xmin, ymin, xmax, ymax, confidence]` of `res['boxes']`. */
  datatype BoxRow = BoxRow(xmin: int, ymin: int, xmax: int, ymax: int, confidence: real)

  /** The engine's answer to `exec_net.infer`: the output of a single-output
      network, or the `boxes` and `labels` outputs of a two-output one. */
  datatype Inference = Inference(rows: seq<Row>, boxes: seq<BoxRow>, labels: seq<int>)

  /** A row after unpacking. For a two-output network the class id is
      `self.labels[i]`, which raises when the row has no label. */
  datatype Candidate = Candidate(classId: Result<int>, confidence: real,
                                 xmin: int, ymin: int, xmax: int, ymax: int)

  /** `if confidence > 0.5`. */
  const Threshold: real := 0.5

  function RowCount(single: bool, raw: Inference): nat
  {
    if single then |raw.rows| else |raw.boxes|
  }

  /** The unpacking of row `i`. */
  function CandidateAt(single: bool, raw: Inference, i: nat): (c: Candidate)
    requires i < RowCount(single, raw)
    ensures single ==> c.classId == Ok(raw.rows[i].classId) && c.confidence == raw.rows[i].confidence
    ensures single ==> c.xmin == raw.rows[i].xmin && c.ymin == raw.rows[i].ymin
                       && c.xmax == raw.rows[i].xmax && c.ymax == raw.rows[i].ymax
    ensures !single ==> (c.classId.Ok? <==> i < |raw.labels|)
    ensures !single && c.classId.Ok? ==> c.classId.value == raw.labels[i]
    ensures !single ==> c.confidence == raw.boxes[i].confidence
    ensures !single ==> c.xmin == raw.boxes[i].xmin && c.ymin == raw.boxes[i].ymin
                        && c.xmax == raw.boxes[i].xmax && c.ymax == raw.boxes[i].ymax
  {
    if single then
      var r := raw.rows[i];
      Candidate(Ok(r.classId), r.confidence, r.xmin, r.ymin, r.xmax, r.ymax)
    else
      var b := raw.boxes[i];
      Candidate(Index(raw.labels, i), b.confidence, b.xmin, b.ymin, b.xmax, b.ymax)
  }

  function Candidates(single: bool, raw: Inference): (cs: seq<Candidate>)
    ensures |cs| == RowCount(single, raw)
    ensures forall i :: 0 <= i < |cs| ==> cs[i] == CandidateAt(single, raw, i)
  {
    seq(RowCount(single, raw), i requires 0 <= i < RowCount(single, raw) => CandidateAt(single, raw, i))
  }

  /** `self.labels[int(class_id)] if self.labelinfo else int(class_id)`. */
  function TagFor(classId: int, labelinfo: Option<string>, labels: Option<Labels>): (r: Result<Tag>)
    ensures !Truthy(labelinfo) ==> r == Ok(Number(classId))
    ensures Truthy(labelinfo) && labels.None? ==> r == Raised(TypeError)
    ensures Truthy(labelinfo) && labels.Some? && labels.value.FileLabels? ==>
      var ns := labels.value.names;
      (r.Ok? <==> -|ns| <= classId < |ns|)
      && (r.Ok? ==> r.value == LabelName(ns[if classId < 0 then |ns| + classId else classId]))
      && (r.Raised? ==> r.error == IndexError)
    ensures Truthy(labelinfo) && labels.Some? && labels.value.EngineLabels? ==>
      var ids := labels.value.ids;
      (r.Ok? <==> -|ids| <= classId < |ids|)
      && (r.Ok? ==> r.value == ArrayNumber(ids[if classId < 0 then |ids| + classId else classId]))
      && (r.Raised? ==> r.error == IndexError)
  {
    if !Truthy(labelinfo) then Ok(Number(classId))
    else match labels
      case None => Raised(TypeError)
      case Some(FileLabels(names)) =>
        (match Index(names, classId)
         case Ok(n) => Ok(LabelName(n))
         case Raised(e) => Raised(e))
      case Some(EngineLabels(ids)) =>
        (match Index(ids, classId)
         case Ok(n) => Ok(ArrayNumber(n))
         case Raised(e) => Raised(e))
  }

  /** One pass of the loop body: append a record for a kept row. */
  function Step(acc: seq<Detected>, c: Candidate, labelinfo: Option<string>, labels: Option<Labels>)
    : (r: Result<seq<Detected>>)
    ensures r.Ok? <==> RowOk(c, labelinfo, labels)
    ensures r.Ok? && c.confidence > Threshold ==> |r.value| == |acc| + 1 && r.value[..|acc|] == acc
                                                  && RecordOf(r.value[|acc|], c, labelinfo, labels)
    ensures r.Ok? && c.confidence <= Threshold ==> r.value == acc
  {
    match c.classId
    case Raised(e) => Raised(e)
    case Ok(id) =>
      if c.confidence > Threshold then
        match TagFor(id, labelinfo, labels)
        case Raised(e) => Raised(e)
        case Ok(tag) =>
          Ok(acc + [Detected(tag, c.confidence, Box(c.xmin, c.ymin, c.xmax - c.xmin, c.ymax - c.ymin))])
      else Ok(acc)
  }

  /** The records the loop over `cs` builds, or the exception that stops it. */
  function Decode(cs: seq<Candidate>, labelinfo: Option<string>, labels: Option<Labels>): (r: Result<seq<Detected>>)
    ensures r.Ok? ==> |r.value| <= |cs|
    ensures r.Ok? ==> forall k :: 0 <= k < |r.value| ==> r.value[k].confidence > Threshold
  {
    if cs == [] then Ok([])
    else
      match Decode(cs[..|cs| - 1], labelinfo, labels)
      case Raised(e) => Raised(e)
      case Ok(acc) => Step(acc, cs[|cs| - 1], labelinfo, labels)
  }

  /** The loop of `Score` over the unpacked rows: the records it builds are
      those `Decode` specifies, or the first exception. */
  method DecodeRows(cs: seq<Candidate>, labelinfo: Option<string>, labels: Option<Labels>)
    returns (r: Result<seq<Detected>>)
    ensures r == Decode(cs, labelinfo, labels)
  {
    var detected: seq<Detected> := [];
    var i := 0;
    while i < |cs|
      invariant 0 <= i <= |cs|
      invariant Decode(cs[..i], labelinfo, labels) == Ok(detected)
    {
      var c := cs[i];
      DecodePass(cs, i, labelinfo, labels, detected);
      if c.classId.Raised? {
        return Raised(c.classId.error);
      }
      if c.confidence > Threshold {
        var tag := TagFor(c.classId.value, labelinfo, labels);
        if tag.Raised? {
          return Raised(tag.error);
        }
        detected := detected + [Detected(tag.value, c.confidence, Box(c.xmin, c.ymin, c.xmax - c.xmin, c.ymax - c.ymin))];
      }
      i := i + 1;
    }
    assert cs[..|cs|] == cs;
    return Ok(detected);
  }

  /** The positions of the rows the threshold keeps: exactly the rows with
      confidence strictly above 0.5, in increasing order. */
  function Kept(cs: seq<Candidate>): (ks: seq<int>)
    ensures forall k :: 0 <= k < |ks| ==> 0 <= ks[k] < |cs|
    ensures forall k, m :: 0 <= k < m < |ks| ==> ks[k] < ks[m]
    ensures forall i :: 0 <= i < |cs| ==> (i in ks <==> cs[i].confidence > Threshold)
  {
    if cs == [] then []
    else
      var front := cs[..|cs| - 1];
      assert forall i :: 0 <= i < |front| ==> cs[i] == front[i];
      Kept(front) + (if cs[|cs| - 1].confidence > Threshold then [|cs| - 1] else [])
  }

  /** Whether row `c` gets through the loop body without raising. */
  predicate RowOk(c: Candidate, labelinfo: Option<string>, labels: Option<Labels>)
  {
    c.classId.Ok? && (c.confidence > Threshold ==> TagFor(c.classId.value, labelinfo, labels).Ok?)
  }

  /** `d` is the record the loop builds from the kept row `c`. */
  predicate RecordOf(d: Detected, c: Candidate, labelinfo: Option<string>, labels: Option<Labels>)
  {
    c.classId.Ok? && TagFor(c.classId.value, labelinfo, labels) == Ok(d.tag)
    && d.confidence == c.confidence
    && d.box.l == c.xmin && d.box.t == c.ymin
    && d.box.w == c.xmax - c.xmin && d.box.h == c.ymax - c.ymin
  }

  /** Decoding succeeds exactly when every row gets through the loop body. */
  lemma {:induction false} DecodeOkIff(cs: seq<Candidate>, labelinfo: Option<string>, labels: Option<Labels>)
    ensures Decode(cs, labelinfo, labels).Ok? <==> forall i :: 0 <= i < |cs| ==> RowOk(cs[i], labelinfo, labels)
  {
    if cs != [] {
      var front := cs[..|cs| - 1];
      DecodeOkIff(front, labelinfo, labels);
      assert forall i :: 0 <= i < |front| ==> cs[i] == front[i];
    }
  }

  /** The records are the kept rows, in row order, each with its tag, its
      confidence and its box. */
  lemma {:induction false} DecodeRecords(cs: seq<Candidate>, labelinfo: Option<string>, labels: Option<Labels>)
    requires Decode(cs, labelinfo, labels).Ok?
    ensures |Decode(cs, labelinfo, labels).value| == |Kept(cs)|
    ensures forall k :: 0 <= k < |Kept(cs)| ==>
      RecordOf(Decode(cs, labelinfo, labels).value[k], cs[Kept(cs)[k]], labelinfo, labels)
  {
    if cs != [] {
      var front := cs[..|cs| - 1];
      DecodeRecords(front, labelinfo, labels);
      RecordsSnoc(cs, front, Decode(front, labelinfo, labels).value, Decode(cs, labelinfo, labels).value, labelinfo, labels);
    }
  }

  /** The step of `DecodeRecords`: the records of all but the last row,
      extended by the last row's pass. */
  lemma RecordsSnoc(cs: seq<Candidate>, front: seq<Candidate>, acc: seq<Detected>, objs: seq<Detected>,
                    labelinfo: Option<string>, labels: Option<Labels>)
    requires cs != [] && front == cs[..|cs| - 1]
    requires Decode(front, labelinfo, labels) == Ok(acc) && Decode(cs, labelinfo, labels) == Ok(objs)
    requires |acc| == |Kept(front)|
    requires forall k :: 0 <= k < |Kept(front)| ==> RecordOf(acc[k], front[Kept(front)[k]], labelinfo, labels)
    ensures |objs| == |Kept(cs)|
    ensures forall k :: 0 <= k < |Kept(cs)| ==> RecordOf(objs[k], cs[Kept(cs)[k]], labelinfo, labels)
  {
    var last := cs[|cs| - 1];
    assert Step(acc, last, labelinfo, labels) == Ok(objs);
    var kept := last.confidence > Threshold;
    assert Kept(cs) == Kept(front) + (if kept then [|cs| - 1] else []);
    RecordsExtend(cs, Kept(front), Kept(cs), acc, objs, kept, labelinfo, labels);
  }

  /** Sequence bookkeeping for `RecordsSnoc`: a prefix keeps its records, and
      a kept last row adds its own record at the end. */
  lemma RecordsExtend(cs: seq<Candidate>, ks: seq<int>, ks': seq<int>, acc: seq<Detected>, objs: seq<Detected>,
                      kept: bool, labelinfo: Option<string>, labels: Option<Labels>)
    requires cs != []
    requires ks' == ks + (if kept then [|cs| - 1] else [])
    requires |acc| == |ks| && forall k :: 0 <= k < |ks| ==> 0 <= ks[k] < |cs| - 1
    requires forall k :: 0 <= k < |ks| ==> RecordOf(acc[k], cs[..|cs| - 1][ks[k]], labelinfo, labels)
    requires kept ==> |objs| == |acc| + 1 && objs[..|acc|] == acc && RecordOf(objs[|acc|], cs[|cs| - 1], labelinfo, labels)
    requires !kept ==> objs == acc
    ensures |objs| == |ks'|
    ensures forall k :: 0 <= k < |ks'| ==> RecordOf(objs[k], cs[ks'[k]], labelinfo, labels)
  {
    forall k | 0 <= k < |ks'|
      ensures RecordOf(objs[k], cs[ks'[k]], labelinfo, labels)
    {
      if k < |ks| {
        assert objs[k] == acc[k] && ks'[k] == ks[k];
        assert cs[..|cs| - 1][ks[k]] == cs[ks[k]];
      }
    }
  }

  /** One more row is one more loop pass. */
  lemma DecodeExtend(cs: seq<Candidate>, i: nat, labelinfo: Option<string>, labels: Option<Labels>, acc: seq<Detected>)
    requires i < |cs| && Decode(cs[..i], labelinfo, labels) == Ok(acc)
    ensures Decode(cs[..i + 1], labelinfo, labels) == Step(acc, cs[i], labelinfo, labels)
  {
    assert cs[..i + 1][..i] == cs[..i];
  }

  /** Once the loop has raised on a prefix of the rows, the remaining rows do
      not matter. */
  lemma {:induction false} DecodeRaisedPrefix(cs: seq<Candidate>, n: nat, labelinfo: Option<string>, labels: Option<Labels>)
    requires n <= |cs|
    requires Decode(cs[..n], labelinfo, labels).Raised?
    ensures Decode(cs, labelinfo, labels) == Decode(cs[..n], labelinfo, labels)
    decreases |cs| - n
  {
    if n < |cs| {
      assert cs[..n + 1][..n] == cs[..n];
      DecodeRaisedPrefix(cs, n + 1, labelinfo, labels);
    } else {
      assert cs[..n] == cs;
    }
  }

  /** One loop pass over row `i`, case by case: an exception ends the whole
      loop with it, a row above the threshold adds its record, any other row
      leaves the list as it was. */
  lemma DecodePass(cs: seq<Candidate>, i: nat, labelinfo: Option<string>, labels: Option<Labels>, acc: seq<Detected>)
    requires i < |cs| && Decode(cs[..i], labelinfo, labels) == Ok(acc)
    ensures cs[i].classId.Raised? ==> Decode(cs, labelinfo, labels) == Raised(cs[i].classId.error)
    ensures cs[i].classId.Ok? && cs[i].confidence > Threshold ==>
      var tag := TagFor(cs[i].classId.value, labelinfo, labels);
      (tag.Raised? ==> Decode(cs, labelinfo, labels) == Raised(tag.error))
      && (tag.Ok? ==> Decode(cs[..i + 1], labelinfo, labels)
                      == Ok(acc + [Detected(tag.value, cs[i].confidence,
                                            Box(cs[i].xmin, cs[i].ymin, cs[i].xmax - cs[i].xmin, cs[i].ymax - cs[i].ymin))]))
    ensures cs[i].classId.Ok? && cs[i].confidence <= Threshold ==> Decode(cs[..i + 1], labelinfo, labels) == Ok(acc)
  {
    DecodeExtend(cs, i, labelinfo, labels, acc);
    if Decode(cs[..i + 1], labelinfo, labels).Raised? {
      DecodeRaisedPrefix(cs, i + 1, labelinfo, labels);
    }
  }

  /** The list is empty exactly when no row is above the threshold. */
  lemma DecodeEmptyIff(cs: seq<Candidate>, labelinfo: Option<string>, labels: Option<Labels>)
    requires Decode(cs, labelinfo, labels).Ok?
    ensures Decode(cs, labelinfo, labels).value == [] <==> forall i :: 0 <= i < |cs| ==> cs[i].confidence <= Threshold
  {
    DecodeRecords(cs, labelinfo, labels);
    if Kept(cs) != [] {
      assert Kept(cs)[0] in Kept(cs);
    }
  }
}
