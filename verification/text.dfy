/**
  String helpers shared by the subtitle pipeline and the job server: the parts of
  Python's `str` and `os.path` behaviour that the two programs rely on, stated
  over `seq<char>` (one `char` per Unicode scalar value, as in Python 3).
 */
module Text {

  datatype Option<T> = None | Some(value: T)

  /** Python's `str.isspace` for one character: the ASCII controls
      \t \n \v \f \r, the separators U+001C..U+001F, and the Unicode spaces. */
  predicate IsSpace(c: char) {
    || c == ' '
    || '\U{9}' <= c <= '\U{D}'
    || '\U{1C}' <= c <= '\U{1F}'
    || c == '\U{85}'
    || c == '\U{A0}'
    || c == '\U{1680}'
    || '\U{2000}' <= c <= '\U{200A}'
    || c == '\U{2028}'
    || c == '\U{2029}'
    || c == '\U{202F}'
    || c == '\U{205F}'
    || c == '\U{3000}'
  }

  predicate AllSpace(s: string) {
    forall i | 0 <= i < |s| :: IsSpace(s[i])
  }

  /** The index of the first non-space at or after `from`, or `|s|`. */
  function SpaceRunEnd(s: string, from: nat): (k: nat)
    requires from <= |s|
    decreases |s| - from
    ensures from <= k <= |s|
    ensures forall i | from <= i < k :: IsSpace(s[i])
    ensures k < |s| ==> !IsSpace(s[k])
  {
    if from < |s| && IsSpace(s[from]) then SpaceRunEnd(s, from + 1) else from
  }

  /** The index just past the last non-space before `limit` and at or after `floor`,
      or `floor`. */
  function TextEnd(s: string, floor: nat, limit: nat): (k: nat)
    requires floor <= limit <= |s|
    decreases limit
    ensures floor <= k <= limit
    ensures forall i | k <= i < limit :: IsSpace(s[i])
    ensures k > floor ==> !IsSpace(s[k - 1])
  {
    if limit > floor && IsSpace(s[limit - 1]) then TextEnd(s, floor, limit - 1) else limit
  }

  /** `r` is the piece of `s` that starts at `i` and has only white space around it. */
  predicate CutAt(s: string, r: string, i: nat) {
    && i + |r| <= |s|
    && r == s[i..i + |r|]
    && AllSpace(s[..i])
    && AllSpace(s[i + |r|..])
  }

  /** `s.strip()`: the text between the leading and trailing white space. */
  function Strip(s: string): (r: string)
    ensures exists i: nat :: CutAt(s, r, i)
    ensures r == [] <==> AllSpace(s)
    ensures r != [] ==> !IsSpace(r[0]) && !IsSpace(r[|r| - 1])
    ensures |r| <= |s|
  {
    var start := SpaceRunEnd(s, 0);
    var end := TextEnd(s, start, |s|);
    assert CutAt(s, s[start..end], start);
    s[start..end]
  }

  /** Stripping removes exactly the white space around a piece that starts and
      ends with a non-space. */
  lemma {:induction false} StripAround(lead: string, t: string, ws: string)
    requires AllSpace(lead) && AllSpace(ws)
    requires t != [] && !IsSpace(t[0]) && !IsSpace(t[|t| - 1])
    ensures Strip(lead + t + ws) == t
  {
    var s := lead + t + ws;
    var m := |lead| + |t|;
    assert s[|lead|] == t[0];
    assert s[m - 1] == t[|t| - 1];
    assert forall i | 0 <= i < |lead| :: s[i] == lead[i];
    assert forall i | m <= i < |s| :: s[i] == ws[i - m];
    var start := SpaceRunEnd(s, 0);
    assert start == |lead|;
    var end := TextEnd(s, start, |s|);
    assert end == m;
    assert s[start..end] == t;
  }

  /** A string that already starts and ends with a non-space is its own strip. */
  lemma StripOfTrimmed(s: string)
    requires s != [] && !IsSpace(s[0]) && !IsSpace(s[|s| - 1])
    ensures Strip(s) == s
  {
    StripAround([], s, []);
    assert [] + s + [] == s;
  }

  lemma StripIdempotent(s: string)
    ensures Strip(Strip(s)) == Strip(s)
  {
    if Strip(s) != [] {
      StripOfTrimmed(Strip(s));
    }
  }

  /** ASCII digits; `str.isdigit` and the regex class `\d` also accept other
      Unicode digits, which this model does not. */
  predicate IsDigit(c: char) {
    '0' <= c <= '9'
  }

  /** `s.isdigit()`: false on the empty string. */
  predicate IsAllDigits(s: string) {
    |s| > 0 && forall i | 0 <= i < |s| :: IsDigit(s[i])
  }

  function LowerChar(c: char): char {
    if 'A' <= c <= 'Z' then (c as int + 32) as char else c
  }

  /** `s.lower()` restricted to ASCII letters: every capital becomes its small
      letter, every other character is kept, and no capital is left. */
  function Lower(s: string): (r: string)
    ensures |r| == |s|
    ensures forall i | 0 <= i < |s| :: r[i] == LowerChar(s[i])
    ensures forall i | 0 <= i < |r| :: !('A' <= r[i] <= 'Z')
    ensures forall i | 0 <= i < |s| && !('A' <= s[i] <= 'Z') :: r[i] == s[i]
    ensures forall i | 0 <= i < |s| && 'A' <= s[i] <= 'Z' :: 'a' <= r[i] <= 'z' && r[i] as int - s[i] as int == 32
  {
    seq(|s|, i requires 0 <= i < |s| => LowerChar(s[i]))
  }

  /** `t in s` for strings: `t` occurs in `s` as a contiguous piece. */
  predicate HasInfix(s: string, t: string)
    decreases |s|
  {
    t <= s || (|s| > 0 && HasInfix(s[1..], t))
  }

  /** Index of the last occurrence of `c` in `s`, or -1 (`str.rfind`). */
  function LastIndexOf(s: string, c: char): (r: int)
    ensures -1 <= r < |s|
    ensures r >= 0 ==> s[r] == c
    ensures c in s <==> r >= 0
    ensures forall j | r < j < |s| :: s[j] != c
  {
    if |s| == 0 then -1
    else if s[|s| - 1] == c then |s| - 1
    else LastIndexOf(s[..|s| - 1], c)
  }

  /** `s.rsplit('.', 1)[-1]`: the text after the last dot (all of `s` when there is none). */
  function AfterLastDot(s: string): (r: string)
    ensures '.' !in r
    ensures '.' in s ==> |r| < |s| && s == s[..|s| - |r| - 1] + "." + r
    ensures '.' !in s ==> r == s
  {
    var k := LastIndexOf(s, '.');
    assert k >= 0 ==> s == s[..k] + "." + s[k + 1..];
    s[k + 1..]
  }

  /** POSIX `os.path.splitext`: the extension starts at the last dot of the last path
      component, unless everything before that dot in the component is dots. */
  function SplitExt(p: string): (r: (string, string))
    ensures r.0 + r.1 == p
    ensures r.1 == [] || (r.1[0] == '.' && '.' !in r.1[1..] && '/' !in r.1)
    ensures r.1 != [] ==> r.1 == p[LastIndexOf(p, '.')..]
    ensures r.1 != [] <==>
      && LastIndexOf(p, '.') > LastIndexOf(p, '/')
      && exists k | LastIndexOf(p, '/') + 1 <= k < LastIndexOf(p, '.') :: p[k] != '.'
  {
    var sep := LastIndexOf(p, '/');
    var dot := LastIndexOf(p, '.');
    if dot > sep && exists k | sep + 1 <= k < dot :: p[k] != '.' then
      assert p[dot..][1..] == p[dot + 1..];
      (p[..dot], p[dot..])
    else
      (p, [])
  }

  /** POSIX `os.path.join(a, b)` for two components. */
  function Join(a: string, b: string): (r: string)
    ensures |b| > 0 && b[0] == '/' ==> r == b
    ensures |b| <= |r| && r[|r| - |b|..] == b
    ensures !(|b| > 0 && b[0] == '/') ==> a <= r && (r == a + b || r == a + "/" + b)
    ensures !(|b| > 0 && b[0] == '/') && a != [] && a[|a| - 1] != '/' ==>
      |r| > |a| && r[|a|] == '/'
    ensures !(|b| > 0 && b[0] == '/') && (a == [] || a[|a| - 1] == '/') ==> |r| == |a| + |b|
  {
    if |b| > 0 && b[0] == '/' then b
    else if a == [] || a[|a| - 1] == '/' then a + b
    else a + "/" + b
  }
}
