/** The label file read by `LoadModel`: one label per line, the label being the
    text before the first comma with surrounding whitespace removed. */
module LabelFile {
  import opened PyString

  /** Text-mode reading with universal newlines: `\r\n` and a lone `\r` both
      become `\n`. */
  function Universal(s: string): (r: string)
    ensures '\r' !in r
    ensures |r| <= |s|
    ensures '\r' !in s ==> r == s
  {
    if s == [] then []
    else if s[0] == '\r' then "\n" + Universal(if |s| > 1 && s[1] == '\n' then s[2..] else s[1..])
    else [s[0]] + Universal(s[1..])
  }

  /** The translation of each line break on its own: `\r\n` and a lone `\r`
      become `\n`, and any other character stays. */
  lemma UniversalBreaks(c: char)
    ensures Universal("\r\n") == "\n" && Universal("\r") == "\n"
    ensures c != '\r' ==> Universal([c]) == [c]
  {
    assert "\r\n"[2..] == [];
    assert "\r"[1..] == [];
    assert [c][1..] == [];
  }

  /** The text can be translated piece by piece, cutting anywhere except
      between the `\r` and the `\n` of a `\r\n`. */
  lemma {:induction false} UniversalAppend(a: string, b: string)
    requires a == [] || a[|a| - 1] != '\r' || b == [] || b[0] != '\n'
    ensures Universal(a + b) == Universal(a) + Universal(b)
    decreases |a|
  {
    if a == [] || a[|a| - 1] != '\r' {
      UniversalAppendClean(a, b);
    } else if b == [] {
      assert a + b == a;
    } else {
      var p := a[..|a| - 1];
      assert a == p + "\r";
      assert a + b == p + ("\r" + b);
      UniversalAppend(p, "\r" + b);
      UniversalAppend(p, "\r");
      UniversalLoneEnd(b);
      UniversalLone();
      Recombine(Universal(p), Universal("\r"), Universal(b), Universal("\r" + b));
    }
  }

  /** The cut after a text that does not end in `\r`. */
  lemma {:induction false} UniversalAppendClean(a: string, b: string)
    requires a == [] || a[|a| - 1] != '\r'
    ensures Universal(a + b) == Universal(a) + Universal(b)
    decreases |a|
  {
    if a == [] {
      assert a + b == b;
    } else {
      var ab := a + b;
      assert ab[0] == a[0];
      if a[0] == '\r' {
        assert |a| > 1 && ab[1] == a[1];
      }
      var n := if a[0] == '\r' && a[1] == '\n' then 2 else 1;
      var head := if a[0] == '\r' then "\n" else [a[0]];
      assert ab[n..] == a[n..] + b;
      assert Universal(a) == head + Universal(a[n..]);
      assert Universal(ab) == head + Universal(ab[n..]);
      UniversalAppendClean(a[n..], b);
      Regroup(head, Universal(a[n..]), Universal(b));
    }
  }

  lemma Regroup(h: string, x: string, y: string)
    ensures h + (x + y) == (h + x) + y
  { }

  lemma Recombine(p: string, r: string, b: string, rb: string)
    requires rb == r + b
    ensures p + rb == (p + r) + b
  { }

  lemma UniversalLone()
    ensures Universal("\r") == "\n"
  {
    assert "\r"[1..] == [];
  }

  /** A `\r` followed by text that does not start with `\n` becomes `\n`. */
  lemma UniversalLoneEnd(b: string)
    requires b == [] || b[0] != '\n'
    ensures Universal("\r" + b) == "\n" + Universal(b)
    ensures Universal("\r" + b) == Universal("\r") + Universal(b)
  {
    UniversalLone();
    var s := "\r" + b;
    assert s[0] == '\r';
    assert s[1..] == b;
    assert !(|s| > 1 && s[1] == '\n');
  }

  /** A lone `\r` followed by any other character becomes `\n`, and the
      character is kept. */
  lemma LoneCarriageReturn(c: char)
    requires c != '\n' && c != '\r'
    ensures Universal(['\r', c]) == ['\n', c]
  {
    UniversalBreaks(c);
    UniversalAppend("\r", [c]);
    assert "\r" + [c] == ['\r', c];
  }

  /** The first line of `s`, with its `\n` when it has one. */
  function FirstLine(s: string): (line: string)
    requires s != []
    ensures 0 < |line| <= |s| && line == s[..|line|]
    ensures forall k :: 0 <= k < |line| - 1 ==> line[k] != '\n'
    ensures line[|line| - 1] == '\n' || line == s
  {
    var before := BeforeFirst(s, '\n');
    if |before| < |s| then s[..|before| + 1] else s
  }

  /** `for line in f`: the lines of the text, each with its `\n` except
      possibly the last; an empty text has no lines. */
  function Lines(s: string): (ls: seq<string>)
    ensures |ls| <= |s|
    ensures ls == [] <==> s == []
    decreases |s|
  {
    if s == [] then [] else
      var line := FirstLine(s);
      [line] + Lines(s[|line|..])
  }

  function Concat(ls: seq<string>): string
  {
    if ls == [] then [] else ls[0] + Concat(ls[1..])
  }

  /** Splitting into lines loses nothing. */
  lemma {:induction false} LinesConcat(s: string)
    ensures Concat(Lines(s)) == s
    decreases |s|
  {
    if s != [] {
      var line := FirstLine(s);
      var rest := s[|line|..];
      var ls := Lines(s);
      assert ls == [line] + Lines(rest);
      assert ls[0] == line && ls[1..] == Lines(rest);
      assert Concat(ls) == line + Concat(Lines(rest));
      LinesConcat(rest);
      assert s == line + rest;
    }
  }

  /** Every line is non-empty, ends with its `\n` unless it is the last, and
      has no `\n` before its end. */
  lemma {:induction false} LinesShape(s: string)
    ensures forall i :: 0 <= i < |Lines(s)| ==> Lines(s)[i] != []
    ensures forall i :: 0 <= i < |Lines(s)| - 1 ==> Lines(s)[i][|Lines(s)[i]| - 1] == '\n'
    ensures forall i, k :: 0 <= i < |Lines(s)| && 0 <= k < |Lines(s)[i]| - 1 ==> Lines(s)[i][k] != '\n'
    decreases |s|
  {
    if s != [] {
      var line := FirstLine(s);
      var rest := s[|line|..];
      LinesShape(rest);
      var ls := Lines(s);
      assert ls == [line] + Lines(rest);
      assert rest != [] ==> line[|line| - 1] == '\n';
      assert forall i :: 1 <= i < |ls| ==> ls[i] == Lines(rest)[i - 1];
    }
  }

  /** `line.split(',')[0].strip()`. */
  function LabelOfLine(line: string): (r: string)
    ensures ',' !in r
    ensures r == [] || (!IsSpace(r[0]) && !IsSpace(r[|r| - 1]))
  {
    var field := BeforeFirst(line, ',');
    StripInside(field, ',');
    Strip(field)
  }

  /** A label taken from a line of the file keeps no line break. */
  lemma LabelOfLineNoBreak(line: string)
    requires '\r' !in line
    requires forall k :: 0 <= k < |line| - 1 ==> line[k] != '\n'
    ensures '\n' !in LabelOfLine(line) && '\r' !in LabelOfLine(line)
  {
    var field := BeforeFirst(line, ',');
    assert field == line[..|field|];
    assert forall k :: 0 <= k < |field| ==> field[k] == line[k];
    StripInside(field, '\n');
    StripInside(field, '\r');
  }

  /** `[line.split(',')[0].strip() for line in f]` on the file's text. */
  function Labels(text: string): (labels: seq<string>)
    ensures |labels| == |Lines(Universal(text))|
    ensures forall i :: 0 <= i < |labels| ==> labels[i] == LabelOfLine(Lines(Universal(text))[i])
  {
    var ls := Lines(Universal(text));
    seq(|ls|, i requires 0 <= i < |ls| => LabelOfLine(ls[i]))
  }

  /** There is one label per line of the file, and none carries a comma, a
      line break or surrounding whitespace. */
  lemma LabelsClean(text: string)
    ensures forall i :: 0 <= i < |Labels(text)| ==>
      var l := Labels(text)[i];
      ',' !in l && '\n' !in l && '\r' !in l && (l == [] || (!IsSpace(l[0]) && !IsSpace(l[|l| - 1])))
  {
    var u := Universal(text);
    LinesShape(u);
    forall i | 0 <= i < |Labels(text)|
      ensures '\n' !in Labels(text)[i] && '\r' !in Labels(text)[i]
    {
      LinesAreSlices(u, i);
      LabelOfLineNoBreak(Lines(u)[i]);
    }
  }

  /** Every line is a contiguous piece of the text, so carries no `\r` after
      universal-newline translation. */
  lemma {:induction false} LinesAreSlices(s: string, i: int)
    requires '\r' !in s
    requires 0 <= i < |Lines(s)|
    ensures '\r' !in Lines(s)[i]
    decreases |s|
  {
    var line := FirstLine(s);
    var rest := s[|line|..];
    assert Lines(s) == [line] + Lines(rest);
    if i == 0 {
      forall k | 0 <= k < |line| ensures line[k] != '\r' { assert line[k] == s[k]; }
    } else {
      forall k | 0 <= k < |rest| ensures rest[k] != '\r' { assert rest[k] == s[|line| + k]; }
      LinesAreSlices(rest, i - 1);
    }
  }
}
