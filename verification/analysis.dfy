/**
  `analyze_subtitle_streams` and the asset-level decision of `process_single_video`:
  read the probe's stream list, classify every subtitle stream on its own, and
  either skip the asset or pick one subtitle stream to convert.

  The probe run and the JSON decoder are oracles: `ToolRun` is the probe's exit
  code and standard output, `parse` is what decoding a text yields (the `streams`
  list, or `None` when decoding fails).
 */
module Analysis {
  import opened Text
  import opened Classifier

  /** One entry of the probe's `streams` list: its `codec_type` (`None` when the key is
      absent) and its `tags.language` (`""` when absent). */
  datatype Stream = Stream(codecType: Option<string>, language: string)

  /** A finished toolkit run: exit code and captured standard output. */
  datatype ToolRun = ToolRun(exitCode: int, stdout: string)

  /** The verdict on one subtitle stream. */
  datatype Verdict = Traditional | Simplified | Inconclusive

  /** The byte-order mark a probe's output may start with. */
  const Bom: char := '\U{FEFF}'

  const SimplifiedTags: set<string> := {"zh", "zho", "chi", "chs"}
  const TraditionalTags: set<string> := {"cht", "zh-tw", "zh-hk"}

  function DropBom(s: string): string {
    if s != [] && s[0] == Bom then s[1..] else s
  }

  /** The probe step: a failed run or blank output yields nothing; otherwise the
      output is decoded, and if that fails, decoded once more after stripping white
      space and one leading byte-order mark. */
  function ProbeStreams(probe: ToolRun, parse: string -> Option<seq<Stream>>): (r: Option<seq<Stream>>)
    ensures probe.exitCode != 0 || AllSpace(probe.stdout) ==> r == None
    ensures probe.exitCode == 0 && !AllSpace(probe.stdout) && parse(probe.stdout).Some?
            ==> r == parse(probe.stdout)
    ensures probe.exitCode == 0 && !AllSpace(probe.stdout) && parse(probe.stdout).None?
            ==> r == parse(DropBom(Strip(probe.stdout)))
    ensures r.Some? ==> r == parse(probe.stdout) || r == parse(DropBom(Strip(probe.stdout)))
  {
    if probe.exitCode != 0 then None
    else if probe.stdout == [] || Strip(probe.stdout) == [] then None
    else match parse(probe.stdout)
      case Some(streams) => Some(streams)
      case None => parse(DropBom(Strip(probe.stdout)))
  }

  /** A byte-order-marked output, with any white space around it, that the decoder
      rejects is decoded once more with the white space and the mark removed. */
  lemma BomRetry(lead: string, body: string, ws: string, parse: string -> Option<seq<Stream>>)
    requires AllSpace(lead) && AllSpace(ws)
    requires body == [] || !IsSpace(body[|body| - 1])
    requires parse(lead + [Bom] + body + ws) == None
    ensures ProbeStreams(ToolRun(0, lead + [Bom] + body + ws), parse) == parse(body)
  {
    var t := [Bom] + body;
    var out := lead + [Bom] + body + ws;
    assert t[|t| - 1] == if body == [] then Bom else body[|body| - 1];
    assert out == lead + t + ws;
    StripAround(lead, t, ws);
    assert Strip(out) == t;
    assert DropBom(t) == body by { assert t[1..] == body; }
    assert out != [];
  }

  predicate IsSubtitle(s: Stream) {
    s.codecType == Some("subtitle")
  }

  /** The subtitle streams of a probe, in probe order. */
  function SubtitleStreams(all: seq<Stream>): (subs: seq<Stream>)
    ensures |subs| <= |all|
    ensures forall k | 0 <= k < |subs| :: IsSubtitle(subs[k])
    ensures subs == [] <==> forall j | 0 <= j < |all| :: !IsSubtitle(all[j])
  {
    if all == [] then []
    else
      var rest := SubtitleStreams(all[1..]);
      assert forall j | 1 <= j < |all| :: all[j] == all[1..][j - 1];
      (if IsSubtitle(all[0]) then [all[0]] else []) + rest
  }

  /** Selection loses no subtitle stream and invents none. */
  lemma {:induction false} SubtitleStreamsExact(all: seq<Stream>)
    decreases |all|
    ensures forall x | x in SubtitleStreams(all) :: x in all
    ensures forall x | x in all && IsSubtitle(x) :: x in SubtitleStreams(all)
  {
    if all != [] {
      SubtitleStreamsExact(all[1..]);
      assert all == [all[0]] + all[1..];
    }
  }

  /** A probe of subtitle streams only is kept whole. */
  lemma {:induction false} SubtitleStreamsOfSubtitles(all: seq<Stream>)
    requires forall j | 0 <= j < |all| :: IsSubtitle(all[j])
    decreases |all|
    ensures SubtitleStreams(all) == all
  {
    if all != [] {
      assert forall j | 1 <= j < |all| :: all[j] == all[1..][j - 1];
      SubtitleStreamsOfSubtitles(all[1..]);
      assert all == [all[0]] + all[1..];
    }
  }

  /** Selection keeps probe order: the subtitle streams of two consecutive parts of a
      probe are those of the first part followed by those of the second. */
  lemma {:induction false} SubtitleStreamsAppend(a: seq<Stream>, b: seq<Stream>)
    ensures SubtitleStreams(a + b) == SubtitleStreams(a) + SubtitleStreams(b)
    decreases |a|
  {
    if a == [] {
      assert a + b == b;
    } else {
      assert (a + b)[0] == a[0];
      assert (a + b)[1..] == a[1..] + b;
      SubtitleStreamsAppend(a[1..], b);
    }
  }

  /** The verdict of the content check alone, as a reference: too short to judge,
      or traditional exactly when the sample holds a character the mapping changes. */
  function ContentVerdict(sample: string, simplify: string -> string): Verdict {
    if |Strip(sample)| < MinSampleLength then Inconclusive
    else if ContainsTraditional(sample, simplify) then Traditional
    else Simplified
  }

  /** The per-stream branch of `analyze_subtitle_streams`, applied to the lowercased tag.
      A traditional tag decides without sampling. A simplified tag first tries the
      simplified test and, when that fails, falls through to the same content checks
      as an untagged stream; since both tests look at the same sample, the tag then
      changes nothing. */
  function StreamVerdict(language: string, sample: string, simplify: string -> string): (v: Verdict)
    ensures Lower(language) in TraditionalTags ==> v == Traditional
    ensures Lower(language) !in TraditionalTags ==> v == ContentVerdict(sample, simplify)
  {
    var lang := Lower(language);
    var contentCheck :=
      if IsTraditionalSubtitle(sample, simplify) then Traditional
      else if HasSimplifiedSubtitle(sample, simplify) then Simplified
      else Inconclusive;
    assert contentCheck == ContentVerdict(sample, simplify);
    assert lang in SimplifiedTags ==> lang !in TraditionalTags;
    if lang in SimplifiedTags then
      if HasSimplifiedSubtitle(sample, simplify) then Simplified else contentCheck
    else if lang in TraditionalTags then Traditional
    else contentCheck
  }

  /** The verdicts on the subtitle streams, by position among the subtitle streams.
      Each is computed from that stream's own tag and sample alone; `samples(j)` is the
      oracle for the lines read back from the sample extraction of position `j` (empty
      when the extraction failed). */
  function Verdicts(subs: seq<Stream>, samples: nat -> seq<string>, simplify: string -> string): (vs: seq<Verdict>)
    ensures |vs| == |subs|
    ensures forall j | 0 <= j < |subs| ::
      Lower(subs[j].language) in TraditionalTags ==> vs[j] == Traditional
    ensures forall j | 0 <= j < |subs| ::
      Lower(subs[j].language) !in TraditionalTags ==> vs[j] == ContentVerdict(SampleText(samples(j)), simplify)
  {
    var vs := seq(|subs|, j requires 0 <= j < |subs| => StreamVerdict(subs[j].language, SampleText(samples(j)), simplify));
    assert forall j | 0 <= j < |subs| :: vs[j] == StreamVerdict(subs[j].language, SampleText(samples(j)), simplify);
    vs
  }

  /** A stream's verdict depends on nothing but its own tag and its own sample: two
      runs that agree on position `j` agree on its verdict, whatever the other streams. */
  lemma VerdictsAreLocal(subs1: seq<Stream>, samples1: nat -> seq<string>,
                         subs2: seq<Stream>, samples2: nat -> seq<string>,
                         simplify: string -> string, j: nat)
    requires j < |subs1| && j < |subs2|
    requires subs1[j].language == subs2[j].language && samples1(j) == samples2(j)
    ensures Verdicts(subs1, samples1, simplify)[j] == Verdicts(subs2, samples2, simplify)[j]
  {
  }

  /** The stream loop from position `from` on: whether some stream is simplified, and
      the positions of the traditional ones. */
  function ScanStreams(vs: seq<Verdict>, from: nat) : (r: (bool, seq<nat>))
    requires from <= |vs|
    decreases |vs| - from
    ensures |r.1| <= |vs| - from
  {
    if from == |vs| then (false, [])
    else
      var rest := ScanStreams(vs, from + 1);
      (vs[from] == Simplified || rest.0, (if vs[from] == Traditional then [from] else []) + rest.1)
  }

  /** The loop's flag says exactly whether some stream from `from` on is simplified. */
  lemma {:induction false} ScanFindsSimplified(vs: seq<Verdict>, from: nat)
    requires from <= |vs|
    decreases |vs| - from
    ensures ScanStreams(vs, from).0 <==> exists j | from <= j < |vs| :: vs[j] == Simplified
  {
    if from < |vs| {
      ScanFindsSimplified(vs, from + 1);
      if vs[from] != Simplified {
        assert forall j | from <= j < |vs| && vs[j] == Simplified :: from + 1 <= j;
      }
    }
  }

  /** Each position in `t` is a traditional stream's at or after `from`. */
  predicate OnlyTraditionalFrom(vs: seq<Verdict>, from: nat, t: seq<nat>) {
    forall k | 0 <= k < |t| :: from <= t[k] < |vs| && vs[t[k]] == Traditional
  }

  predicate Increasing(t: seq<nat>) {
    forall k, l | 0 <= k < l < |t| :: t[k] < t[l]
  }

  /** Every position the loop lists from `from` on is a traditional stream's. */
  lemma {:induction false} ScanListsOnlyTraditional(vs: seq<Verdict>, from: nat)
    requires from <= |vs|
    decreases |vs| - from
    ensures OnlyTraditionalFrom(vs, from, ScanStreams(vs, from).1)
  {
    if from < |vs| {
      ScanListsOnlyTraditional(vs, from + 1);
      var rest := ScanStreams(vs, from + 1).1;
      var t := ScanStreams(vs, from).1;
      if vs[from] == Traditional {
        assert t == [from] + rest;
        assert forall k | 1 <= k < |t| :: t[k] == rest[k - 1];
      } else {
        assert t == rest;
      }
    }
  }

  /** Every traditional stream from `from` on is listed. */
  lemma {:induction false} ScanListsEveryTraditional(vs: seq<Verdict>, from: nat)
    requires from <= |vs|
    decreases |vs| - from
    ensures forall j | from <= j < |vs| :: vs[j] == Traditional ==> j in ScanStreams(vs, from).1
  {
    if from < |vs| {
      ScanListsEveryTraditional(vs, from + 1);
      var rest := ScanStreams(vs, from + 1).1;
      assert forall j | j in rest :: j in ScanStreams(vs, from).1;
    }
  }

  /** The loop lists the positions in increasing order. */
  lemma {:induction false} ScanListsInOrder(vs: seq<Verdict>, from: nat)
    requires from <= |vs|
    decreases |vs| - from
    ensures Increasing(ScanStreams(vs, from).1)
  {
    if from < |vs| {
      ScanListsInOrder(vs, from + 1);
      ScanListsOnlyTraditional(vs, from + 1);
      var rest := ScanStreams(vs, from + 1).1;
      var t := ScanStreams(vs, from).1;
      if vs[from] == Traditional {
        assert t == [from] + rest;
        assert forall k | 1 <= k < |t| :: t[k] == rest[k - 1] && from < t[k];
      } else {
        assert t == rest;
      }
    }
  }

  /** The loop lists the lowest traditional position first. */
  lemma {:induction false} ScanListsLowestFirst(vs: seq<Verdict>, from: nat)
    requires from <= |vs|
    decreases |vs| - from
    ensures var t := ScanStreams(vs, from).1;
      t != [] ==> forall j | from <= j < t[0] && j < |vs| :: vs[j] != Traditional
  {
    if from < |vs| {
      ScanListsLowestFirst(vs, from + 1);
      if vs[from] != Traditional {
        assert ScanStreams(vs, from).1 == ScanStreams(vs, from + 1).1;
      }
    }
  }

  /** What `analyze_subtitle_streams` returns: the subtitle streams, whether one of them
      is simplified, and the positions of the traditional ones. Any probe failure
      reads as "no subtitle streams". */
  datatype StreamAnalysis = StreamAnalysis(subtitles: seq<Stream>, hasSimplified: bool, traditional: seq<nat>)

  function AnalyzeSubtitleStreams(probe: ToolRun, parse: string -> Option<seq<Stream>>,
                                  samples: nat -> seq<string>, simplify: string -> string): StreamAnalysis
  {
    match ProbeStreams(probe, parse)
    case None => StreamAnalysis([], false, [])
    case Some(all) =>
      var subs := SubtitleStreams(all);
      if subs == [] then StreamAnalysis([], false, [])
      else
        var scan := ScanStreams(Verdicts(subs, samples, simplify), 0);
        StreamAnalysis(subs, scan.0, scan.1)
  }

  datatype SkipReason = NoSubtitles | AlreadySimplified | NothingTraditional

  /** The asset-level decision: skip, or convert the subtitle stream at `position`. */
  datatype Decision = Skip(reason: SkipReason) | Convert(position: nat)

  function Decide(a: StreamAnalysis): Decision {
    if a.subtitles == [] then Skip(NoSubtitles)
    else if a.hasSimplified then Skip(AlreadySimplified)
    else if a.traditional == [] then Skip(NothingTraditional)
    else Convert(a.traditional[0])
  }

  /** The decision on an analysis whose flag and list come from the stream loop over
      the verdicts `vs`. */
  lemma DecidePolicy(a: StreamAnalysis, vs: seq<Verdict>)
    requires |a.subtitles| == |vs|
    requires vs == [] ==> !a.hasSimplified && a.traditional == []
    requires vs != [] ==> a.hasSimplified == ScanStreams(vs, 0).0 && a.traditional == ScanStreams(vs, 0).1
    ensures vs == [] ==> Decide(a) == Skip(NoSubtitles)
    ensures (exists j | 0 <= j < |vs| :: vs[j] == Simplified) ==> Decide(a) == Skip(AlreadySimplified)
    ensures Decide(a).Convert? <==>
      && (forall j | 0 <= j < |vs| :: vs[j] != Simplified)
      && (exists j | 0 <= j < |vs| :: vs[j] == Traditional)
    ensures Decide(a).Convert? ==>
      && Decide(a).position < |vs|
      && vs[Decide(a).position] == Traditional
      && forall j | 0 <= j < Decide(a).position :: vs[j] != Traditional
  {
    if vs != [] {
      ScanFindsSimplified(vs, 0);
      ScanListsOnlyTraditional(vs, 0);
      ScanListsEveryTraditional(vs, 0);
      ScanListsLowestFirst(vs, 0);
    }
  }

  /** The decision policy over the whole asset: it converts exactly when the probe
      yields subtitle streams, none of them is simplified and one is traditional, and
      then it picks the lowest traditional position. */
  function SelectStream(probe: ToolRun, parse: string -> Option<seq<Stream>>,
                        samples: nat -> seq<string>, simplify: string -> string): (d: Decision)
    ensures ProbeStreams(probe, parse).None? ==> d == Skip(NoSubtitles)
    ensures ProbeStreams(probe, parse).Some? ==>
      var vs := Verdicts(SubtitleStreams(ProbeStreams(probe, parse).value), samples, simplify);
      && (vs == [] ==> d == Skip(NoSubtitles))
      && ((exists j | 0 <= j < |vs| :: vs[j] == Simplified) ==> d == Skip(AlreadySimplified))
      && (d.Convert? <==>
            && (forall j | 0 <= j < |vs| :: vs[j] != Simplified)
            && (exists j | 0 <= j < |vs| :: vs[j] == Traditional))
      && (d.Convert? ==>
            && d.position < |vs|
            && vs[d.position] == Traditional
            && forall j | 0 <= j < d.position :: vs[j] != Traditional)
  {
    match ProbeStreams(probe, parse)
    case None => Skip(NoSubtitles)
    case Some(all) =>
      var subs := SubtitleStreams(all);
      var vs := Verdicts(subs, samples, simplify);
      var a := AnalyzeSubtitleStreams(probe, parse, samples, simplify);
      DecidePolicy(a, vs);
      Decide(a)
  }
}
