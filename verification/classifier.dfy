/**
  Script classification of one subtitle sample: which lines of an extracted SRT
  file make up the sample, whether the sample holds traditional Han characters,
  and the two per-stream tests built on that.

  The traditional-to-simplified mapping (a third-party converter) is not visible
  to this model; it is an uninterpreted `simplify: string -> string` parameter,
  and nothing here assumes anything about it.
 */
module Classifier {
  import opened Text

  /** A stripped sample shorter than this is too short to judge. */
  const MinSampleLength := 30

  /** The `sample_lines` the two per-stream tests pass to the sample extraction. */
  const ClassifierSampleLines := 200

  /** The character class `[一-鿿]` (CJK Unified Ideographs). */
  predicate IsHan(c: char) {
    '\U{4E00}' <= c <= '\U{9FFF}'
  }

  /** The Han characters of `s`, in order: `''.join(re.findall(...))`. */
  function HanOnly(s: string): (r: string)
    ensures |r| <= |s|
    ensures forall i | 0 <= i < |r| :: IsHan(r[i])
    ensures forall i | 0 <= i < |r| :: r[i] in s
    ensures forall i | 0 <= i < |s| && IsHan(s[i]) :: s[i] in r
    ensures (forall i | 0 <= i < |s| :: IsHan(s[i])) ==> r == s
  {
    if s == [] then []
    else
      assert forall i | 1 <= i < |s| :: s[i] == s[1..][i - 1];
      (if IsHan(s[0]) then [s[0]] else []) + HanOnly(s[1..])
  }

  lemma {:induction false} HanOnlyAppend(a: string, b: string)
    ensures HanOnly(a + b) == HanOnly(a) + HanOnly(b)
    decreases |a|
  {
    if a == [] {
      assert a + b == b;
    } else {
      assert (a + b)[0] == a[0];
      assert (a + b)[1..] == a[1..] + b;
      HanOnlyAppend(a[1..], b);
    }
  }

  /** Text without Han characters has an empty Han projection. */
  lemma {:induction false} HanOnlyOfNonHan(s: string)
    requires forall i | 0 <= i < |s| :: !IsHan(s[i])
    ensures HanOnly(s) == []
    decreases |s|
  {
    if s != [] {
      HanOnlyOfNonHan(s[1..]);
    }
  }

  /** `contains_traditional_chars`: blank text and text without Han characters are not
      traditional; otherwise the Han-only text is traditional exactly when the mapping
      changes it. */
  function ContainsTraditional(text: string, simplify: string -> string): (r: bool)
    ensures AllSpace(text) ==> !r
    ensures r <==> HanOnly(text) != [] && HanOnly(text) != simplify(HanOnly(text))
  {
    if AllSpace(text) then
      HanOnlyOfNonHan(text);
      false
    else if text == [] || Strip(text) == [] then false
    else
      var han := HanOnly(text);
      if han == [] then false else han != simplify(han)
  }

  /** Characters outside the Han block never change the verdict: inserting any
      Han-free text anywhere leaves it as it was. */
  lemma NonHanTextIrrelevant(a: string, x: string, b: string, simplify: string -> string)
    requires forall i | 0 <= i < |x| :: !IsHan(x[i])
    ensures ContainsTraditional(a + x + b, simplify) == ContainsTraditional(a + b, simplify)
  {
    HanOnlyOfNonHan(x);
    HanOnlyAppend(a, x);
    assert HanOnly(a + x) == HanOnly(a);
    HanOnlyAppend(a + x, b);
    HanOnlyAppend(a, b);
    assert HanOnly(a + x + b) == HanOnly(a + b);
  }

  // ---------------------------------------------------------------------------
  // The SRT sample filter

  /** `re.match(r'^\d{2}:\d{2}:\d{2},\d{3}', s)`: an SRT timestamp at the start. */
  predicate IsSrtTimestamp(s: string) {
    && |s| >= 12
    && IsDigit(s[0]) && IsDigit(s[1]) && s[2] == ':'
    && IsDigit(s[3]) && IsDigit(s[4]) && s[5] == ':'
    && IsDigit(s[6]) && IsDigit(s[7]) && s[8] == ','
    && IsDigit(s[9]) && IsDigit(s[10]) && IsDigit(s[11])
  }

  /** `re.match(r'^\d{1,2}:\d{2}:\d{2}.\d{2}$', s)` on a line without a trailing newline:
      the whole line is a short clock time whose `.` is any character but a newline. */
  predicate IsShortTimestamp(s: string) {
    || (&& |s| == 10
        && IsDigit(s[0]) && s[1] == ':'
        && IsDigit(s[2]) && IsDigit(s[3]) && s[4] == ':'
        && IsDigit(s[5]) && IsDigit(s[6]) && s[7] != '\n'
        && IsDigit(s[8]) && IsDigit(s[9]))
    || (&& |s| == 11
        && IsDigit(s[0]) && IsDigit(s[1]) && s[2] == ':'
        && IsDigit(s[3]) && IsDigit(s[4]) && s[5] == ':'
        && IsDigit(s[6]) && IsDigit(s[7]) && s[8] != '\n'
        && IsDigit(s[9]) && IsDigit(s[10]))
  }

  /** A stripped line that counts as subtitle text: not blank, not a sequence
      number, not a timing line. */
  predicate IsTextLine(s: string) {
    && s != []
    && !IsAllDigits(s)
    && !HasInfix(s, "-->")
    && !IsSrtTimestamp(s)
    && !IsShortTimestamp(s)
  }

  /** What one line read from the file contributes to the sample. */
  function Keep(line: string): (r: seq<string>)
    ensures |r| <= 1
  {
    var s := Strip(line);
    if IsTextLine(s) then [s] else []
  }

  /** The contributions of `lines`, one line at a time, in file order. */
  function Collect(lines: seq<string>, keep: string -> seq<string>): seq<string> {
    if lines == [] then [] else Collect(lines[..|lines| - 1], keep) + keep(lines[|lines| - 1])
  }

  lemma CollectSnoc(s: seq<string>, x: string, keep: string -> seq<string>)
    ensures Collect(s + [x], keep) == Collect(s, keep) + keep(x)
  {
    assert (s + [x])[..|s|] == s;
  }

  lemma {:induction false} CollectAppend(a: seq<string>, b: seq<string>, keep: string -> seq<string>)
    ensures Collect(a + b, keep) == Collect(a, keep) + Collect(b, keep)
    decreases |b|
  {
    if b == [] {
      assert a + b == a;
    } else {
      var front, x := b[..|b| - 1], b[|b| - 1];
      assert b == front + [x];
      assert a + b == (a + front) + [x];
      CollectAppend(a, front, keep);
      CollectSnoc(a + front, x, keep);
      CollectSnoc(front, x, keep);
    }
  }

  /** Reference filter: the stripped text lines of `lines`, in file order. */
  function TextLines(lines: seq<string>): seq<string> {
    Collect(lines, Keep)
  }

  /** The filter works line by line, so it preserves the order of the file. */
  lemma TextLinesAppend(a: seq<string>, b: seq<string>)
    ensures TextLines(a + b) == TextLines(a) + TextLines(b)
  {
    CollectAppend(a, b, Keep);
  }

  /** Every line the filter keeps is a stripped text line. */
  lemma {:induction false} TextLinesAreText(lines: seq<string>)
    ensures forall k | 0 <= k < |TextLines(lines)| ::
      IsTextLine(TextLines(lines)[k]) && Strip(TextLines(lines)[k]) == TextLines(lines)[k]
    decreases |lines|
  {
    if lines != [] {
      var front := lines[..|lines| - 1];
      TextLinesAreText(front);
      StripIdempotent(lines[|lines| - 1]);
      assert TextLines(lines) == TextLines(front) + Keep(lines[|lines| - 1]);
    }
  }

  /** One more line read extends the reference filter by that line's contribution. */
  lemma TextLinesStep(lines: seq<string>, i: nat)
    requires i < |lines|
    ensures TextLines(lines[..i + 1]) == TextLines(lines[..i]) + Keep(lines[i])
  {
    assert lines[..i + 1][..i] == lines[..i];
    assert lines[..i + 1][i] == lines[i];
  }

  function Min(a: int, b: int): int { if a <= b then a else b }
  function Max(a: int, b: int): int { if a >= b then a else b }

  /** The lines the sample keeps: the first text lines, as many as `sampleLines`
      asks for, but always at least one, because the count is compared only after a
      line has been appended. */
  function KeptLines(lines: seq<string>, sampleLines: int): seq<string> {
    var v := TextLines(lines);
    v[..Min(|v|, Max(1, sampleLines))]
  }

  /** The sample text: each kept line followed by a newline. */
  function Render(kept: seq<string>): (r: string)
    ensures kept == [] <==> r == []
  {
    if kept == [] then [] else Render(kept[..|kept| - 1]) + kept[|kept| - 1] + "\n"
  }

  /** The sample text one subtitle position yields, as the classifier reads it. */
  function SampleText(lines: seq<string>): string {
    Render(KeptLines(lines, ClassifierSampleLines))
  }

  /** The line loop of `extract_sample_subtitle_text` over the lines read from the
      extracted file: it keeps the reference filter's lines, in order, and stops
      once `sampleLines` of them are kept. */
  method ExtractSampleText(lines: seq<string>, sampleLines: int) returns (text: string, kept: seq<string>)
    ensures kept == TextLines(lines)[..Min(|TextLines(lines)|, Max(1, sampleLines))]
    ensures text == Render(kept)
    ensures sampleLines >= 1 ==> |kept| <= sampleLines
  {
    text := "";
    kept := [];
    var count := 0;
    var i := 0;
    while i < |lines|
      invariant 0 <= i <= |lines|
      invariant kept == TextLines(lines[..i])
      invariant count == |kept| < Max(1, sampleLines)
      invariant text == Render(kept)
    {
      var stripped := Strip(lines[i]);
      ReadOneLine(lines, i, kept);
      if IsTextLine(stripped) {
        RenderSnoc(kept, stripped);
        text := text + stripped + "\n";
        kept := kept + [stripped];
        count := count + 1;
        if count >= sampleLines {
          StopEarly(lines, i);
          StopCount(count, |TextLines(lines)|, sampleLines);
          return;
        }
      }
      i := i + 1;
    }
    assert lines[..i] == lines;
  }

  lemma RenderSnoc(kept: seq<string>, line: string)
    ensures Render(kept + [line]) == Render(kept) + line + "\n"
  {
    assert (kept + [line])[..|kept|] == kept;
  }

  /** One line read: the kept lines grow by the stripped line exactly when it is a
      text line. */
  lemma ReadOneLine(lines: seq<string>, i: nat, kept: seq<string>)
    requires i < |lines| && kept == TextLines(lines[..i])
    ensures IsTextLine(Strip(lines[i])) ==> TextLines(lines[..i + 1]) == kept + [Strip(lines[i])]
    ensures !IsTextLine(Strip(lines[i])) ==> TextLines(lines[..i + 1]) == kept
  {
    TextLinesStep(lines, i);
  }

  /** Stopping after line `i` leaves a prefix of the whole file's text lines. */
  lemma StopEarly(lines: seq<string>, i: nat)
    requires i < |lines|
    ensures |TextLines(lines[..i + 1])| <= |TextLines(lines)|
    ensures TextLines(lines[..i + 1]) == TextLines(lines)[..|TextLines(lines[..i + 1])|]
  {
    assert lines == lines[..i + 1] + lines[i + 1..];
    TextLinesAppend(lines[..i + 1], lines[i + 1..]);
  }

  /** The count the loop stops at is the number of lines the sample keeps. */
  lemma StopCount(count: int, total: int, sampleLines: int)
    requires 1 <= count <= total
    requires count >= sampleLines && count - 1 < Max(1, sampleLines)
    ensures count == Min(total, Max(1, sampleLines))
  {
  }

  // ---------------------------------------------------------------------------
  // The two per-stream tests on one sample

  /** `is_traditional_subtitle` on the sample it extracted. */
  function IsTraditionalSubtitle(sample: string, simplify: string -> string): (r: bool)
    ensures |Strip(sample)| < MinSampleLength ==> !r
    ensures r <==> |Strip(sample)| >= MinSampleLength && ContainsTraditional(sample, simplify)
  {
    if sample == [] || |Strip(sample)| < MinSampleLength then false
    else ContainsTraditional(sample, simplify)
  }

  /** `has_simplified_subtitle` on the sample it extracted: long enough, and the
      exact complement of the traditional test there. */
  function HasSimplifiedSubtitle(sample: string, simplify: string -> string): (r: bool)
    ensures |Strip(sample)| < MinSampleLength ==> !r
    ensures r <==> |Strip(sample)| >= MinSampleLength && !IsTraditionalSubtitle(sample, simplify)
  {
    if sample == [] || |Strip(sample)| < MinSampleLength then false
    else !ContainsTraditional(sample, simplify)
  }

  /** The length threshold counts every character of the stripped sample, not Han
      characters: one traditional character followed by 29 Latin letters is enough. */
  lemma OneHanCharacterSuffices(simplify: string -> string)
    requires simplify("\U{9AD4}") != "\U{9AD4}"
    ensures IsTraditionalSubtitle("\U{9AD4}" + seq(29, _ => 'a'), simplify)
  {
    var latin: string := seq(29, _ => 'a');
    var sample := "\U{9AD4}" + latin;
    assert sample[0] == '\U{9AD4}' && sample[|sample| - 1] == 'a';
    StripOfTrimmed(sample);
    HanOnlyAppend("\U{9AD4}", latin);
    HanOnlyOfNonHan(latin);
    assert HanOnly(sample) == "\U{9AD4}";
  }
}
