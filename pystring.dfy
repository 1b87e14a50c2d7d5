/** The few Python `str` and `os.path` operations the service relies on. */
module PyString {

  /** Python's `str.isspace()` for one character: the ASCII whitespace and
      separator controls plus the Unicode space separators. */
  predicate IsSpace(c: char)
    ensures c == ' ' || c == '\t' || c == '\n' || c == '\r' ==> IsSpace(c)
    ensures 'a' <= c <= 'z' || 'A' <= c <= 'Z' || '0' <= c <= '9' || c == ',' ==> !IsSpace(c)
  {
    c as int in SpaceCodes
  }

  const SpaceCodes: set<int> :=
    {9, 10, 11, 12, 13, 28, 29, 30, 31, 32, 0x85, 0xA0, 0x1680,
     0x2000, 0x2001, 0x2002, 0x2003, 0x2004, 0x2005, 0x2006, 0x2007, 0x2008, 0x2009, 0x200A,
     0x2028, 0x2029, 0x202F, 0x205F, 0x3000}

  /** `s.split(sep)[0]`: the text before the first `sep`, or all of `s`. */
  function BeforeFirst(s: string, sep: char): (r: string)
    ensures r <= s
    ensures sep !in r
    ensures |r| < |s| ==> s[|r|] == sep
  {
    if s == [] || s[0] == sep then [] else [s[0]] + BeforeFirst(s[1..], sep)
  }

  /** Number of whitespace characters at the front of `s`. */
  function LeadingSpaces(s: string): (n: nat)
    ensures n <= |s|
    ensures forall k :: 0 <= k < n ==> IsSpace(s[k])
    ensures n < |s| ==> !IsSpace(s[n])
  {
    if s == [] || !IsSpace(s[0]) then 0 else 1 + LeadingSpaces(s[1..])
  }

  /** Where the text of `s[i..j]` ends once trailing whitespace is dropped. */
  function ContentEnd(s: string, i: nat, j: nat): (e: nat)
    requires i <= j <= |s|
    ensures i <= e <= j
    ensures forall k :: e <= k < j ==> IsSpace(s[k])
    ensures i < e ==> !IsSpace(s[e - 1])
    decreases j
  {
    if j == i || !IsSpace(s[j - 1]) then j else ContentEnd(s, i, j - 1)
  }

  /** `s[i..j]` is what `s.strip()` keeps: only whitespace lies outside it and,
      unless it is empty, it neither starts nor ends with whitespace. */
  ghost predicate StripsTo(s: string, i: int, j: int)
  {
    0 <= i <= j <= |s|
    && (forall k :: 0 <= k < i ==> IsSpace(s[k]))
    && (forall k :: j <= k < |s| ==> IsSpace(s[k]))
    && (i < j ==> !IsSpace(s[i]) && !IsSpace(s[j - 1]))
  }

  /** `s.strip()` with no argument. */
  function Strip(s: string): (r: string)
    ensures exists i, j :: StripsTo(s, i, j) && r == s[i..j]
    ensures r == [] || (!IsSpace(r[0]) && !IsSpace(r[|r| - 1]))
  {
    var i := LeadingSpaces(s);
    var j := ContentEnd(s, i, |s|);
    assert StripsTo(s, i, j);
    assert i < j ==> s[i..j][0] == s[i] && s[i..j][j - i - 1] == s[j - 1];
    s[i..j]
  }

  /** Only one piece of `s` fits the description of `s.strip()`, so that
      description pins `Strip` down completely. */
  lemma StripUnique(s: string, i: int, j: int)
    requires StripsTo(s, i, j)
    ensures Strip(s) == s[i..j]
  {
    var i', j' :| StripsTo(s, i', j') && Strip(s) == s[i'..j'];
    assert StripsTo(s, i', j');
    if i < j && i' < j' {
      assert i == i' && j == j';
    } else {
      assert i == j && i' == j';
    }
  }

  /** `s.strip()` keeps only characters of `s`, and a character that `s` holds
      only in its last position survives only if it is not whitespace. */
  lemma StripInside(s: string, c: char)
    ensures c in Strip(s) ==> c in s
    ensures IsSpace(c) && (forall k :: 0 <= k < |s| - 1 ==> s[k] != c) ==> c !in Strip(s)
  {
    var r := Strip(s);
    var i, j :| StripsTo(s, i, j) && r == s[i..j];
    assert StripsTo(s, i, j);
    forall k | 0 <= k < |r| ensures r[k] == s[i + k] && (i + k == |s| - 1 ==> k == |r| - 1 && j == |s|) { }
  }

  /** `s.endswith(suffix)`: `s` is some text followed by `suffix`. */
  predicate EndsWith(s: string, suffix: string)
    ensures EndsWith(s, suffix) ==> |suffix| <= |s| && s == s[..|s| - |suffix|] + suffix
  {
    |suffix| <= |s| && s[|s| - |suffix|..] == suffix
  }

  /** Conversely, any text followed by `suffix` ends with it. */
  lemma EndsWithAppended(p: string, suffix: string)
    ensures EndsWith(p + suffix, suffix)
  {
    assert (p + suffix)[|p|..] == suffix;
  }

  /** `s.lower()` on the ASCII letters; other characters are kept. */
  function AsciiLower(s: string): (r: string)
    ensures |r| == |s|
    ensures forall k :: 0 <= k < |s| ==> !('A' <= r[k] <= 'Z')
    ensures forall k :: 0 <= k < |s| && !('A' <= s[k] <= 'Z') ==> r[k] == s[k]
    ensures forall k :: 0 <= k < |s| && 'A' <= s[k] <= 'Z' ==> r[k] == (s[k] as int + 32) as char
  {
    if s == [] then []
    else
      var c := s[0];
      [if 'A' <= c <= 'Z' then (c as int + 32) as char else c] + AsciiLower(s[1..])
  }

  /** `os.path.join(a, b)` on POSIX: an absolute `b` discards `a`, and a `/`
      is inserted between the two unless `a` is empty or already ends in one. */
  function PathJoin(a: string, b: string): (r: string)
    ensures EndsWith(r, b)
    ensures |b| > 0 && b[0] == '/' ==> r == b
    ensures !(|b| > 0 && b[0] == '/') && (a == [] || a[|a| - 1] == '/') ==> r == a + b
    ensures !(|b| > 0 && b[0] == '/') && a != [] && a[|a| - 1] != '/' ==> r == a + "/" + b
  {
    if |b| > 0 && b[0] == '/' then b
    else if a == [] || a[|a| - 1] == '/' then a + b
    else a + "/" + b
  }
}
