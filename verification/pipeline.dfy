/**
  `process_single_video`: one video through the whole pipeline. After the two
  existence checks it sweeps stale temporary files, decides on the asset, extracts
  and converts the chosen subtitle, places the output, remuxes, optionally replaces
  the original, and always removes its temporary files at the end.

  The filesystem is a map from path to content. Every external program, and every
  file operation whose failure changes the outcome, is an oracle in `Toolkit`: what
  the extraction left in its output file, whether the backup copy succeeds and
  whether a failed one leaves a file, whether the remove and the move succeed, the
  second probe's output, and the remux's exit code and leftovers. The removals whose
  failures the program catches and ignores (the sweep, the `finally` and the
  cleanup after a failed replacement) always succeed here.
 */
module Pipeline {
  import opened Text
  import opened Classifier
  import opened Analysis
  import opened Remux

  /** What a file holds: an original file the model does not look into, a subtitle
      file, a remux result (the video it was built from, the subtitle text, the
      stream maps and the language tag), or what a failed remux or a failed backup
      copy left behind. */
  datatype Content =
    | Media(id: nat)
    | Srt(text: string)
    | Muxed(source: Content, subtitle: string, maps: seq<MapArg>, language: string)
    | Partial

  type Fs = map<string, Content>

  /** The extraction run: its exit code, and the decoded text of its output file
      (`None` when it left no file). */
  datatype Extraction = Extraction(exitCode: int, written: Option<string>)

  datatype Toolkit = Toolkit(
    probe: ToolRun,
    parse: string -> Option<seq<Stream>>,
    samples: nat -> seq<string>,
    simplify: string -> string,
    extraction: Extraction,
    copyOk: bool,
    copyLeavesPartial: bool,
    reprobe: string,
    remuxExit: int,
    remuxLeavesPartial: bool,
    removeOk: bool,
    moveOk: bool)

  datatype Options = Options(replaceOriginal: bool, outputSuffix: string, backupOriginal: bool)

  /** The two per-run subtitle files (`temp_traditional_…` and `temp_simplified_…`). */
  datatype TempNames = TempNames(traditional: string, simplified: string)

  /** `time.time()` and `os.path.getmtime`, in whole seconds. */
  datatype Clock = Clock(now: int, mtime: string -> int)

  /** The externally visible actions of a run, in order. */
  datatype Step =
    | ExtractStream(position: nat)
    | BackupCopy(copy: string)
    | RunRemux(maps: seq<MapArg>, language: string, into: string, exitCode: int)
    | RemoveOriginal(ok: bool)
    | MoveOutput(ok: bool)

  /** Path `p` is present after exactly when before, with the same content. */
  predicate SameAt(before: Fs, after: Fs, p: string) {
    && (p in after <==> p in before)
    && (p in before ==> after[p] == before[p])
  }

  // ---------------------------------------------------------------------------
  // The sweep of stale temporary files

  const MaxTempAge := 3600

  /** A name `glob` sees in the working directory: no directory part, not hidden. */
  predicate InWorkingDir(p: string) {
    p != [] && p[0] != '.' && '/' !in p
  }

  /** `fnmatch` of `prefix*suffix`. */
  predicate Brackets(p: string, prefix: string, suffix: string) {
    |prefix| + |suffix| <= |p| && prefix <= p && p[|p| - |suffix|..] == suffix
  }

  /** The four patterns of the sweep. */
  predicate IsTempName(p: string) {
    || Brackets(p, "temp_traditional_", ".srt")
    || Brackets(p, "temp_simplified_", ".srt")
    || Brackets(p, "temp_sample_", ".srt")
    || HasInfix(p, "_temp_output.")
  }

  predicate IsStale(p: string, clock: Clock) {
    clock.mtime(p) < clock.now - MaxTempAge
  }

  predicate Swept(p: string, clock: Clock) {
    InWorkingDir(p) && IsTempName(p) && IsStale(p, clock)
  }

  /** `cleanup_orphaned_temp_files`: removes every stale file matching a pattern. */
  function SweepOrphans(fs: Fs, clock: Clock): (r: Fs)
    ensures r.Keys <= fs.Keys
    ensures forall p | p in r :: r[p] == fs[p]
    ensures forall p | p in fs :: p !in r <==> Swept(p, clock)
  {
    map p | p in fs && !Swept(p, clock) :: fs[p]
  }

  /** A second sweep at the same moment finds nothing left to remove. */
  lemma SweepIdempotent(fs: Fs, clock: Clock)
    ensures SweepOrphans(SweepOrphans(fs, clock), clock) == SweepOrphans(fs, clock)
  {
  }

  /** Files younger than an hour, hidden files and files elsewhere survive the sweep. */
  lemma SweepSparesFreshFiles(fs: Fs, clock: Clock, p: string)
    requires p in fs
    requires clock.mtime(p) >= clock.now - MaxTempAge || !InWorkingDir(p)
    ensures p in SweepOrphans(fs, clock) && SweepOrphans(fs, clock)[p] == fs[p]
  {
  }

  /** A stale leftover of the replace mode in the working directory is swept: the
      temporary output name of any video with an extension matches `*_temp_output.*`. */
  lemma {:induction false} StaleTempOutputSwept(fs: Fs, clock: Clock, video: string)
    requires SplitExt(video).1 != []
    requires TempOutputPath(video) in fs && InWorkingDir(TempOutputPath(video))
    requires IsStale(TempOutputPath(video), clock)
    ensures TempOutputPath(video) !in SweepOrphans(fs, clock)
  {
    var parts := SplitExt(video);
    var t := TempOutputPath(video);
    var k := |parts.0|;
    assert t == parts.0 + TempOutputMarker + parts.1;
    assert t[k..k + |TempOutputMarker|] == TempOutputMarker;
    assert t[k + |TempOutputMarker|] == parts.1[0] == '.';
    assert t[k..k + |TempOutputMarker| + 1] == TempOutputMarker + ".";
    InfixAt(t, k, TempOutputMarker + ".");
    assert TempOutputMarker + "." == "_temp_output.";
    assert Swept(t, clock);
  }

  /** A piece found at a position is an infix. */
  lemma {:induction false} InfixAt(s: string, k: nat, t: string)
    requires k + |t| <= |s| && s[k..k + |t|] == t
    ensures HasInfix(s, t)
    decreases k
  {
    if k == 0 {
      assert s[..|t|] == t;
    } else {
      assert s[1..][k - 1..k - 1 + |t|] == s[k..k + |t|];
      InfixAt(s[1..], k - 1, t);
    }
  }

  // ---------------------------------------------------------------------------
  // The phases of one run

  /** The extraction and the conversion of the chosen stream: the simplified text
      when both succeed, and the files they leave behind either way. */
  datatype Prepared = Prepared(subtitle: Option<string>, fs: Fs)

  function PrepareSubtitle(temps: TempNames, fs: Fs, tk: Toolkit): (r: Prepared)
    ensures r.subtitle.Some? <==>
      && tk.extraction.exitCode == 0
      && tk.extraction.written.Some?
      && !AllSpace(tk.extraction.written.value)
      && tk.simplify(tk.extraction.written.value) != []
    ensures r.subtitle.Some? ==> r.subtitle.value == tk.simplify(tk.extraction.written.value)
    ensures forall p | p != temps.traditional && p != temps.simplified ::
      (p in r.fs <==> p in fs) && (p in fs ==> r.fs[p] == fs[p])
  {
    var extracted := tk.extraction.written;
    var fs1 := if extracted.Some? then fs[temps.traditional := Srt(extracted.value)] else fs;
    if tk.extraction.exitCode != 0 || extracted.None? || extracted.value == [] then
      Prepared(None, fs1)
    else if Strip(extracted.value) == [] then
      // the conversion refuses blank input
      Prepared(None, fs1)
    else
      var converted := tk.simplify(extracted.value);
      var fs2 := fs1[temps.simplified := Srt(converted)];
      if converted == [] then Prepared(None, fs2) else Prepared(Some(converted), fs2)
  }

  /** The output placement: where the remux writes, and in the replace mode the
      backup copy taken first. `into` is `None` when the run stops before the
      temporary output name is bound. */
  datatype Placed = Placed(ok: bool, fs: Fs, steps: seq<Step>, into: Option<string>)

  function PlaceOutput(video: string, opts: Options, fs: Fs, tk: Toolkit): (r: Placed)
    requires video in fs
    ensures r.into.Some? ==> r.into.value == PlanOutput(video, opts.replaceOriginal, opts.outputSuffix).remuxInto
    ensures r.ok ==> r.into.Some?
    ensures !opts.replaceOriginal ==>
      && r.fs == fs && r.steps == []
      && (r.ok <==> SuffixedPath(video, opts.outputSuffix) !in fs)
    ensures opts.replaceOriginal ==>
      var backup := BackupPath(video);
      var copies := opts.backupOriginal && backup !in fs;
      && (r.ok <==> !copies || tk.copyOk)
      && (r.into.None? <==> !r.ok)
      && (copies && tk.copyOk ==> r.fs == fs[backup := fs[video]] && r.steps == [BackupCopy(backup)])
      && (copies && !tk.copyOk ==> r.fs == (if tk.copyLeavesPartial then fs[backup := Partial] else fs) && r.steps == [])
      && (!copies ==> r.fs == fs && r.steps == [])
  {
    if opts.replaceOriginal then
      var backup := BackupPath(video);
      if opts.backupOriginal && backup !in fs then
        if tk.copyOk then Placed(true, fs[backup := fs[video]], [BackupCopy(backup)], Some(TempOutputPath(video)))
        else Placed(false, if tk.copyLeavesPartial then fs[backup := Partial] else fs, [], None)
      else Placed(true, fs, [], Some(TempOutputPath(video)))
    else
      var out := SuffixedPath(video, opts.outputSuffix);
      Placed(out !in fs, fs, [], Some(out))
  }

  /** A failed backup copy that leaves a file behind fails the placement, and the file
      then stands in for the backup: placing again with that file present takes no
      copy and goes on to the temporary output, whatever the copy would do now. */
  lemma PartialBackupBlocksCopy(video: string, opts: Options, fs: Fs, tk: Toolkit, later: Toolkit)
    requires video in fs && opts.replaceOriginal && opts.backupOriginal && BackupPath(video) !in fs
    requires !tk.copyOk && tk.copyLeavesPartial
    ensures var first := PlaceOutput(video, opts, fs, tk);
      && !first.ok && BackupPath(video) in first.fs && first.fs[BackupPath(video)] == Partial
      && video in first.fs
      && var again := PlaceOutput(video, opts, first.fs, later);
         again.ok && again.steps == [] && again.fs[BackupPath(video)] == Partial
  {
    DerivedNamesDistinct(video, opts.outputSuffix);
  }

  /** The second probe and the remux into `into`. The probe's exit code is not
      looked at; an output that does not decode ends the run. */
  datatype Muxing = Muxing(ok: bool, fs: Fs, steps: seq<Step>)

  function Rebuild(video: string, into: string, subtitle: string, fs: Fs, tk: Toolkit): (r: Muxing)
    requires video in fs
    ensures tk.parse(tk.reprobe).None? ==> !r.ok && r.fs == fs && r.steps == []
    ensures tk.parse(tk.reprobe).Some? ==>
      var maps := RemuxMaps(tk.parse(tk.reprobe).value);
      && r.steps == [RunRemux(maps, SubtitleLanguage, into, tk.remuxExit)]
      && (r.ok <==> tk.remuxExit == 0)
      && (r.ok ==> r.fs == fs[into := Muxed(fs[video], subtitle, maps, SubtitleLanguage)])
      && (!r.ok ==> r.fs == if tk.remuxLeavesPartial then fs[into := Partial] else fs)
  {
    match tk.parse(tk.reprobe)
    case None => Muxing(false, fs, [])
    case Some(all) =>
      var maps := RemuxMaps(all);
      var step := RunRemux(maps, SubtitleLanguage, into, tk.remuxExit);
      if tk.remuxExit == 0 then Muxing(true, fs[into := Muxed(fs[video], subtitle, maps, SubtitleLanguage)], [step])
      else if tk.remuxLeavesPartial then Muxing(false, fs[into := Partial], [step])
      else Muxing(false, fs, [step])
  }

  /** The replace step: remove the original, then move the temporary output onto
      its name. On either failure the temporary output is removed and the run
      fails; the original is gone when only the move failed. */
  function Replace(video: string, tempOut: string, fs: Fs, tk: Toolkit): (r: Muxing)
    requires video in fs && tempOut in fs && tempOut != video
    ensures r.ok <==> tk.removeOk && tk.moveOk
    ensures tempOut !in r.fs
    ensures video in r.fs <==> !tk.removeOk || tk.moveOk
    ensures r.ok ==> r.fs[video] == fs[tempOut]
    ensures !tk.removeOk ==> r.fs == fs - {tempOut}
    ensures forall p | p != video && p != tempOut :: SameAt(fs, r.fs, p)
  {
    if !tk.removeOk then Muxing(false, fs - {tempOut}, [RemoveOriginal(false)])
    else
      var gone := fs - {video};
      if !tk.moveOk then Muxing(false, gone - {tempOut}, [RemoveOriginal(true), MoveOutput(false)])
      else Muxing(true, (gone - {tempOut})[video := fs[tempOut]], [RemoveOriginal(true), MoveOutput(true)])
  }

  /** The `finally` clause: both subtitle files, and in the replace mode the
      temporary output once its name is bound, are removed if present. */
  function Cleanup(fs: Fs, temps: TempNames, output: Option<string>): (r: Fs)
    ensures temps.traditional !in r && temps.simplified !in r
    ensures output.Some? ==> output.value !in r
    ensures forall p | p in r :: p in fs && r[p] == fs[p]
    ensures forall p | p in fs && p != temps.traditional && p != temps.simplified
                          && (output.None? || p != output.value) :: p in r
  {
    var doomed := {temps.traditional, temps.simplified} + (if output.Some? then {output.value} else {});
    fs - doomed
  }

  // ---------------------------------------------------------------------------
  // The whole run

  /** The `try` block up to its return: outcome, files, actions, and the output name
      once it is bound. */
  datatype Stage = Stage(ok: bool, fs: Fs, steps: seq<Step>, into: Option<string>)

  /** From the placement of the output on, with the simplified subtitle in hand. */
  function Produce(video: string, opts: Options, subtitle: string, fs: Fs, tk: Toolkit): (r: Stage)
    requires video in fs
  {
    var placed := PlaceOutput(video, opts, fs, tk);
    if !placed.ok then Stage(false, placed.fs, placed.steps, placed.into)
    else
      var into := placed.into.value;
      var mux := Rebuild(video, into, subtitle, placed.fs, tk);
      if !mux.ok || !opts.replaceOriginal then Stage(mux.ok, mux.fs, placed.steps + mux.steps, placed.into)
      else
        var rep := Replace(video, into, mux.fs, tk);
        Stage(rep.ok, rep.fs, placed.steps + mux.steps + rep.steps, placed.into)
  }

  /** The `try` block, given the asset-level decision. */
  function Attempt(video: string, opts: Options, temps: TempNames, fs: Fs, tk: Toolkit, d: Decision): (r: Stage)
    requires video in fs
  {
    match d
    case Skip(_) => Stage(false, fs, [], None)
    case Convert(position) =>
      var prep := PrepareSubtitle(temps, fs, tk);
      if prep.subtitle.None? then Stage(false, prep.fs, [ExtractStream(position)], None)
      else
        var out := Produce(video, opts, prep.subtitle.value, prep.fs, tk);
        Stage(out.ok, out.fs, [ExtractStream(position)] + out.steps, out.into)
  }

  /** What a run returns, the files afterwards, and the actions it took. */
  datatype Run = Run(ok: bool, fs: Fs, steps: seq<Step>)

  /** `process_single_video`. A missing video ends the run before anything happens;
      otherwise the temporary subtitle files never outlive it. A video the sweep
      removed reads as one whose probe fails. */
  function ProcessSingleVideo(video: string, opts: Options, temps: TempNames, clock: Clock,
                              fs: Fs, tk: Toolkit): (r: Run)
    ensures video !in fs ==> r == Run(false, fs, [])
    ensures video in fs ==> temps.traditional !in r.fs && temps.simplified !in r.fs
  {
    if video !in fs then Run(false, fs, [])
    else
      var swept := SweepOrphans(fs, clock);
      var d := SelectStream(tk.probe, tk.parse, tk.samples, tk.simplify);
      var stage := if video in swept then Attempt(video, opts, temps, swept, tk, d) else Stage(false, swept, [], None);
      Run(stage.ok, Cleanup(stage.fs, temps, if opts.replaceOriginal then stage.into else None), stage.steps)
  }

  // ---------------------------------------------------------------------------
  // Properties of a run

  /** The per-run subtitle names are none of the names the run derives from the video. */
  predicate FreshTemps(video: string, opts: Options, temps: TempNames) {
    var names := {video, BackupPath(video), TempOutputPath(video), SuffixedPath(video, opts.outputSuffix)};
    temps.traditional !in names && temps.simplified !in names
  }

  /** A skipped asset is left as it was: no action is taken, and only the sweep and
      the removal of the per-run subtitle names touch the files. */
  lemma SkipTouchesNothing(video: string, opts: Options, temps: TempNames, clock: Clock, fs: Fs, tk: Toolkit)
    requires video in fs
    requires SelectStream(tk.probe, tk.parse, tk.samples, tk.simplify).Skip?
    ensures var r := ProcessSingleVideo(video, opts, temps, clock, fs, tk);
      && !r.ok && r.steps == []
      && r.fs == SweepOrphans(fs, clock) - {temps.traditional, temps.simplified}
  {
  }

  /** The success conditions from the placement on. */
  predicate ProduceSucceeds(video: string, opts: Options, fs: Fs, tk: Toolkit) {
    && (opts.replaceOriginal ==> !(opts.backupOriginal && BackupPath(video) !in fs) || tk.copyOk)
    && (!opts.replaceOriginal ==> SuffixedPath(video, opts.outputSuffix) !in fs)
    && tk.parse(tk.reprobe).Some?
    && tk.remuxExit == 0
    && (opts.replaceOriginal ==> tk.removeOk && tk.moveOk)
  }

  lemma ProduceOk(video: string, opts: Options, subtitle: string, fs: Fs, tk: Toolkit)
    requires video in fs
    ensures Produce(video, opts, subtitle, fs, tk).ok <==> ProduceSucceeds(video, opts, fs, tk)
  {
    var placed := PlaceOutput(video, opts, fs, tk);
    if placed.ok {
      var mux := Rebuild(video, placed.into.value, subtitle, placed.fs, tk);
    }
  }

  /** What a successful placement-and-remux leaves at the target. */
  lemma ProduceOutput(video: string, opts: Options, subtitle: string, fs: Fs, tk: Toolkit)
    requires video in fs
    requires Produce(video, opts, subtitle, fs, tk).ok
    ensures var r := Produce(video, opts, subtitle, fs, tk);
      var plan := PlanOutput(video, opts.replaceOriginal, opts.outputSuffix);
      && tk.parse(tk.reprobe).Some?
      && r.into == Some(plan.remuxInto)
      && plan.target in r.fs
      && r.fs[plan.target] == Muxed(fs[video], subtitle, RemuxMaps(tk.parse(tk.reprobe).value), SubtitleLanguage)
  {
    var placed := PlaceOutput(video, opts, fs, tk);
    assert placed.fs[video] == fs[video];
    var mux := Rebuild(video, placed.into.value, subtitle, placed.fs, tk);
  }

  /** The success conditions of the whole run, on the files the sweep leaves. */
  predicate Succeeds(video: string, opts: Options, temps: TempNames, fs: Fs, tk: Toolkit) {
    && SelectStream(tk.probe, tk.parse, tk.samples, tk.simplify).Convert?
    && PrepareSubtitle(temps, fs, tk).subtitle.Some?
    && ProduceSucceeds(video, opts, fs, tk)
  }

  /** A run succeeds exactly when the asset is chosen for conversion, the extracted
      subtitle converts to non-empty text, the output can be placed (the backup copy,
      when one is taken, succeeds; in the suffix mode the output does not exist yet),
      the second probe decodes, the remux exits with 0, and in the replace mode both
      the remove and the move succeed; all judged on the files the sweep leaves. */
  lemma SuccessConditions(video: string, opts: Options, temps: TempNames, clock: Clock, fs: Fs, tk: Toolkit)
    requires video in fs && !Swept(video, clock)
    requires FreshTemps(video, opts, temps)
    ensures ProcessSingleVideo(video, opts, temps, clock, fs, tk).ok
            <==> Succeeds(video, opts, temps, SweepOrphans(fs, clock), tk)
  {
    var swept := SweepOrphans(fs, clock);
    assert video in swept;
    AttemptOk(video, opts, temps, swept, tk, SelectStream(tk.probe, tk.parse, tk.samples, tk.simplify));
  }

  /** The success conditions at the level of one attempt. */
  lemma AttemptOk(video: string, opts: Options, temps: TempNames, fs: Fs, tk: Toolkit, d: Decision)
    requires video in fs && FreshTemps(video, opts, temps)
    ensures Attempt(video, opts, temps, fs, tk, d).ok <==>
      d.Convert? && PrepareSubtitle(temps, fs, tk).subtitle.Some? && ProduceSucceeds(video, opts, fs, tk)
  {
    var prep := PrepareSubtitle(temps, fs, tk);
    PrepareKeepsVideoNames(video, opts, temps, fs, tk);
    if d.Convert? && prep.subtitle.Some? {
      ProduceOk(video, opts, prep.subtitle.value, prep.fs, tk);
    }
  }

  /** A successful run leaves at the target path (the video's own path in the replace
      mode, the suffixed name otherwise) a remux of the original video with the
      simplified text of the extracted subtitle, tagged `chi`, built from the maps of
      the second probe. */
  lemma SuccessOutput(video: string, opts: Options, temps: TempNames, clock: Clock, fs: Fs, tk: Toolkit)
    requires video in fs && !Swept(video, clock)
    requires FreshTemps(video, opts, temps)
    requires ProcessSingleVideo(video, opts, temps, clock, fs, tk).ok
    ensures var r := ProcessSingleVideo(video, opts, temps, clock, fs, tk);
      var target := PlanOutput(video, opts.replaceOriginal, opts.outputSuffix).target;
      && tk.extraction.written.Some? && tk.parse(tk.reprobe).Some?
      && target in r.fs
      && r.fs[target] == Muxed(fs[video], tk.simplify(tk.extraction.written.value),
                               RemuxMaps(tk.parse(tk.reprobe).value), SubtitleLanguage)
  {
    var swept := SweepOrphans(fs, clock);
    assert video in swept;
    var d := SelectStream(tk.probe, tk.parse, tk.samples, tk.simplify);
    var stage := Attempt(video, opts, temps, swept, tk, d);
    assert stage.ok;
    var prep := PrepareSubtitle(temps, swept, tk);
    assert prep.fs[video] == fs[video];
    var out := Produce(video, opts, prep.subtitle.value, prep.fs, tk);
    assert stage.fs == out.fs && stage.into == out.into;
    ProduceOutput(video, opts, prep.subtitle.value, prep.fs, tk);
    var plan := PlanOutput(video, opts.replaceOriginal, opts.outputSuffix);
    assert plan.target != temps.traditional && plan.target != temps.simplified;
  }

  /** The run reaches the replace step: replace mode, the output placed, the remux
      done with exit code 0. */
  predicate ReachesReplace(video: string, opts: Options, fs: Fs, tk: Toolkit) {
    && opts.replaceOriginal
    && (!(opts.backupOriginal && BackupPath(video) !in fs) || tk.copyOk)
    && tk.parse(tk.reprobe).Some?
    && tk.remuxExit == 0
  }

  /** From the placement on, only the video, its backup name and the remux output
      name can change; the video disappears only when the replace step removed it
      and then failed to move the output onto its name, and a failed run leaves an
      existing video as it found it. */
  lemma ProduceFrame(video: string, opts: Options, subtitle: string, fs: Fs, tk: Toolkit)
    requires video in fs
    ensures var r := Produce(video, opts, subtitle, fs, tk);
      var plan := PlanOutput(video, opts.replaceOriginal, opts.outputSuffix);
      && (forall p | p != video && p != BackupPath(video) && p != plan.remuxInto ::
            (p in r.fs <==> p in fs) && (p in fs ==> r.fs[p] == fs[p]))
      && (video !in r.fs <==> ReachesReplace(video, opts, fs, tk) && tk.removeOk && !tk.moveOk)
      && (video in r.fs && !r.ok ==> r.fs[video] == fs[video])
      && (!opts.replaceOriginal ==> video in r.fs && r.fs[video] == fs[video])
      && (r.into.Some? ==> r.into.value == plan.remuxInto)
  {
    var plan := PlanOutput(video, opts.replaceOriginal, opts.outputSuffix);
    DerivedNamesDistinct(video, opts.outputSuffix);
    var placed := PlaceOutput(video, opts, fs, tk);
    if placed.ok {
      var mux := Rebuild(video, placed.into.value, subtitle, placed.fs, tk);
      if mux.ok && opts.replaceOriginal {
        var rep := Replace(video, placed.into.value, mux.fs, tk);
      }
    }
  }

  /** The one path on which a run loses the original: it is converted, reaches the
      replace step, the remove succeeds and the move fails. */
  predicate LosesOriginal(video: string, opts: Options, temps: TempNames, fs: Fs, tk: Toolkit) {
    && SelectStream(tk.probe, tk.parse, tk.samples, tk.simplify).Convert?
    && PrepareSubtitle(temps, fs, tk).subtitle.Some?
    && ReachesReplace(video, opts, fs, tk)
    && tk.removeOk && !tk.moveOk
  }

  /** The subtitle preparation touches only the per-run names, so the replace step is
      reached on the prepared files exactly when it is on the files before. */
  lemma PrepareKeepsVideoNames(video: string, opts: Options, temps: TempNames, fs: Fs, tk: Toolkit)
    requires video in fs && FreshTemps(video, opts, temps)
    ensures var prep := PrepareSubtitle(temps, fs, tk);
      && video in prep.fs && prep.fs[video] == fs[video]
      && (BackupPath(video) in prep.fs <==> BackupPath(video) in fs)
      && (SuffixedPath(video, opts.outputSuffix) in prep.fs <==> SuffixedPath(video, opts.outputSuffix) in fs)
      && (SuffixedPath(video, opts.outputSuffix) in fs ==> prep.fs[SuffixedPath(video, opts.outputSuffix)] == fs[SuffixedPath(video, opts.outputSuffix)])
      && ReachesReplace(video, opts, prep.fs, tk) == ReachesReplace(video, opts, fs, tk)
  {
  }

  /** The original at the level of one attempt on the swept files. */
  lemma AttemptKeepsOriginal(video: string, opts: Options, temps: TempNames, fs: Fs, tk: Toolkit, d: Decision)
    requires video in fs && FreshTemps(video, opts, temps)
    ensures var s := Attempt(video, opts, temps, fs, tk, d);
      && (video !in s.fs <==>
            d.Convert? && PrepareSubtitle(temps, fs, tk).subtitle.Some?
            && ReachesReplace(video, opts, fs, tk) && tk.removeOk && !tk.moveOk)
      && (video in s.fs && !s.ok ==> s.fs[video] == fs[video])
      && (!opts.replaceOriginal ==> video in s.fs && s.fs[video] == fs[video])
      && (s.into.Some? ==> s.into.value == PlanOutput(video, opts.replaceOriginal, opts.outputSuffix).remuxInto)
  {
    if d.Convert? {
      var prep := PrepareSubtitle(temps, fs, tk);
      PrepareKeepsVideoNames(video, opts, temps, fs, tk);
      if prep.subtitle.Some? {
        var out := Produce(video, opts, prep.subtitle.value, prep.fs, tk);
        ProduceFrame(video, opts, prep.subtitle.value, prep.fs, tk);
        assert Attempt(video, opts, temps, fs, tk, d).fs == out.fs;
        assert Attempt(video, opts, temps, fs, tk, d).ok == out.ok;
        assert Attempt(video, opts, temps, fs, tk, d).into == out.into;
      }
    }
  }

  /** The `finally` clause spares the video: it removes only the per-run names and, in
      the replace mode, the temporary output name. */
  lemma CleanupSparesVideo(video: string, opts: Options, temps: TempNames, fs: Fs, into: Option<string>)
    requires FreshTemps(video, opts, temps)
    requires into.Some? ==> into.value == PlanOutput(video, opts.replaceOriginal, opts.outputSuffix).remuxInto
    ensures var r := Cleanup(fs, temps, if opts.replaceOriginal then into else None);
      (video in r <==> video in fs) && (video in r ==> r[video] == fs[video])
  {
    DerivedNamesDistinct(video, opts.outputSuffix);
  }

  /** The original is never lost, and never changed by a run that fails or runs in the
      suffix mode, except on the remove-then-failed-move path. */
  lemma OriginalSurvives(video: string, opts: Options, temps: TempNames, clock: Clock, fs: Fs, tk: Toolkit)
    requires video in fs && !Swept(video, clock)
    requires FreshTemps(video, opts, temps)
    ensures var r := ProcessSingleVideo(video, opts, temps, clock, fs, tk);
      && (video !in r.fs <==> LosesOriginal(video, opts, temps, SweepOrphans(fs, clock), tk))
      && (video in r.fs && !r.ok ==> r.fs[video] == fs[video])
      && (!opts.replaceOriginal ==> video in r.fs && r.fs[video] == fs[video])
  {
    var swept := SweepOrphans(fs, clock);
    assert video in swept && swept[video] == fs[video];
    var d := SelectStream(tk.probe, tk.parse, tk.samples, tk.simplify);
    var stage := Attempt(video, opts, temps, swept, tk, d);
    AttemptKeepsOriginal(video, opts, temps, swept, tk, d);
    CleanupSparesVideo(video, opts, temps, stage.fs, stage.into);
    var r := ProcessSingleVideo(video, opts, temps, clock, fs, tk);
    assert r.fs == Cleanup(stage.fs, temps, if opts.replaceOriginal then stage.into else None);
    assert r.ok == stage.ok;
  }

  /** On the remove-then-failed-move path the run fails and neither the original nor
      the remuxed output remains; only a backup, when one was asked for, is left. */
  lemma MoveFailureLosesBoth(video: string, opts: Options, temps: TempNames, clock: Clock, fs: Fs, tk: Toolkit)
    requires video in fs && !Swept(video, clock)
    requires FreshTemps(video, opts, temps)
    requires LosesOriginal(video, opts, temps, SweepOrphans(fs, clock), tk)
    ensures var r := ProcessSingleVideo(video, opts, temps, clock, fs, tk);
      && !r.ok
      && video !in r.fs
      && TempOutputPath(video) !in r.fs
      && (opts.backupOriginal ==> BackupPath(video) in r.fs)
      && (opts.backupOriginal && BackupPath(video) !in SweepOrphans(fs, clock) ==>
            r.fs[BackupPath(video)] == fs[video])
  {
    var swept := SweepOrphans(fs, clock);
    assert video in swept;
    var prep := PrepareSubtitle(temps, swept, tk);
    assert prep.fs[video] == fs[video];
    assert BackupPath(video) in prep.fs <==> BackupPath(video) in swept;
    DerivedNamesDistinct(video, opts.outputSuffix);
    var placed := PlaceOutput(video, opts, prep.fs, tk);
    var mux := Rebuild(video, placed.into.value, prep.subtitle.value, placed.fs, tk);
    var rep := Replace(video, placed.into.value, mux.fs, tk);
    assert SameAt(mux.fs, rep.fs, BackupPath(video));
    assert BackupPath(video) != temps.traditional && BackupPath(video) != temps.simplified;
  }

  /** A remux into the temporary output name that exited with 0. */
  predicate RemuxedIntoTemp(video: string, step: Step) {
    step.RunRemux? && step.exitCode == 0 && step.into == TempOutputPath(video)
  }

  /** A removal of the original comes right after a remux into the temporary output
      name that exited with 0, and in the replace mode only. */
  predicate RemoveFollowsRemuxIn(video: string, opts: Options, steps: seq<Step>) {
    && (forall k | 0 <= k < |steps| && steps[k].RemoveOriginal? :: opts.replaceOriginal && k != 0)
    && (forall i, k | 0 <= i < |steps| && 0 <= k < |steps| && k == i + 1 && steps[k].RemoveOriginal? ::
          RemuxedIntoTemp(video, steps[i]))
  }

  lemma ProduceSteps(video: string, opts: Options, subtitle: string, fs: Fs, tk: Toolkit)
    requires video in fs
    ensures RemoveFollowsRemuxIn(video, opts, Produce(video, opts, subtitle, fs, tk).steps)
  {
    var placed := PlaceOutput(video, opts, fs, tk);
    PlaceSteps(video, opts, fs, tk);
    if placed.ok {
      var into := placed.into.value;
      var mux := Rebuild(video, into, subtitle, placed.fs, tk);
      if mux.ok && opts.replaceOriginal {
        RemuxThenReplaceSteps(video, opts, into, subtitle, placed.fs, tk);
        var rep := Replace(video, into, mux.fs, tk);
        RemoveFollowsRemuxAppend(video, opts, placed.steps, mux.steps + rep.steps);
        assert Produce(video, opts, subtitle, fs, tk).steps == placed.steps + (mux.steps + rep.steps);
      } else {
        RebuildSteps(video, opts, into, subtitle, placed.fs, tk);
        RemoveFollowsRemuxAppend(video, opts, placed.steps, mux.steps);
      }
    }
  }

  /** A successful remux into the temporary output followed by the replace step. */
  lemma RemuxThenReplaceSteps(video: string, opts: Options, into: string, subtitle: string, fs: Fs, tk: Toolkit)
    requires video in fs && opts.replaceOriginal && into == TempOutputPath(video)
    requires Rebuild(video, into, subtitle, fs, tk).ok
    ensures var mux := Rebuild(video, into, subtitle, fs, tk);
      && video in mux.fs && into in mux.fs && into != video
      && var steps := mux.steps + Replace(video, into, mux.fs, tk).steps;
      && RemoveFollowsRemuxIn(video, opts, steps)
  {
    DerivedNamesDistinct(video, opts.outputSuffix);
    var mux := Rebuild(video, into, subtitle, fs, tk);
    ReplaceFollowsRemux(video, opts, mux.steps, Replace(video, into, mux.fs, tk).steps);
  }

  /** The placement takes no action but the backup copy. */
  lemma PlaceSteps(video: string, opts: Options, fs: Fs, tk: Toolkit)
    requires video in fs
    ensures var steps := PlaceOutput(video, opts, fs, tk).steps;
      && RemoveFollowsRemuxIn(video, opts, steps)
  {
  }

  /** The remux step alone removes nothing. */
  lemma RebuildSteps(video: string, opts: Options, into: string, subtitle: string, fs: Fs, tk: Toolkit)
    requires video in fs
    ensures var steps := Rebuild(video, into, subtitle, fs, tk).steps;
      && RemoveFollowsRemuxIn(video, opts, steps)
  {
  }

  /** The remux that exited with 0 into the temporary output, then the replace step. */
  lemma ReplaceFollowsRemux(video: string, opts: Options, mux: seq<Step>, rep: seq<Step>)
    requires opts.replaceOriginal
    requires |mux| == 1 && RemuxedIntoTemp(video, mux[0])
    requires rep == [RemoveOriginal(false)] || rep == [RemoveOriginal(true), MoveOutput(false)] || rep == [RemoveOriginal(true), MoveOutput(true)]
    ensures RemoveFollowsRemuxIn(video, opts, mux + rep)
  {
    var all := mux + rep;
    assert all[0] == mux[0] && all[1] == rep[0];
    assert |all| == 3 ==> all[2] == rep[1];
  }

  lemma RemoveFollowsRemuxAppend(video: string, opts: Options, a: seq<Step>, b: seq<Step>)
    requires RemoveFollowsRemuxIn(video, opts, a) && RemoveFollowsRemuxIn(video, opts, b)
    ensures RemoveFollowsRemuxIn(video, opts, a + b)
  {
    var all := a + b;
    forall k | 0 <= k < |all| && all[k].RemoveOriginal?
      ensures opts.replaceOriginal && k != 0
    {
      if k < |a| {
        assert all[k] == a[k];
      } else {
        assert all[k] == b[k - |a|];
      }
    }
    forall i, k | 0 <= i < |all| && 0 <= k < |all| && k == i + 1 && all[k].RemoveOriginal?
      ensures RemuxedIntoTemp(video, all[i])
    {
      if k < |a| {
        assert all[k] == a[k] && all[i] == a[i];
      } else {
        assert all[k] == b[k - |a|];
        assert all[i] == b[i - |a|];
      }
    }
  }

  /** The order of the actions: the original is removed only right after a remux into
      the temporary output name that exited with 0, and in the replace mode only. */
  lemma RemoveFollowsRemux(video: string, opts: Options, temps: TempNames, clock: Clock, fs: Fs, tk: Toolkit)
    ensures RemoveFollowsRemuxIn(video, opts, ProcessSingleVideo(video, opts, temps, clock, fs, tk).steps)
  {
    if video in fs {
      var swept := SweepOrphans(fs, clock);
      var d := SelectStream(tk.probe, tk.parse, tk.samples, tk.simplify);
      if video in swept {
        AttemptSteps(video, opts, temps, swept, tk, d);
        assert ProcessSingleVideo(video, opts, temps, clock, fs, tk).steps == Attempt(video, opts, temps, swept, tk, d).steps;
      }
    }
  }

  lemma AttemptSteps(video: string, opts: Options, temps: TempNames, fs: Fs, tk: Toolkit, d: Decision)
    requires video in fs
    ensures RemoveFollowsRemuxIn(video, opts, Attempt(video, opts, temps, fs, tk, d).steps)
  {
    if d.Convert? {
      var prep := PrepareSubtitle(temps, fs, tk);
      if prep.subtitle.Some? {
        var out := Produce(video, opts, prep.subtitle.value, prep.fs, tk);
        ProduceSteps(video, opts, prep.subtitle.value, prep.fs, tk);
        RemoveFollowsRemuxCons(video, opts, ExtractStream(d.position), out.steps);
      }
    }
  }

  lemma RemoveFollowsRemuxCons(video: string, opts: Options, first: Step, steps: seq<Step>)
    requires !first.RemoveOriginal?
    requires RemoveFollowsRemuxIn(video, opts, steps)
    ensures RemoveFollowsRemuxIn(video, opts, [first] + steps)
  {
    RemoveFollowsRemuxAppend(video, opts, [first], steps);
  }

  /** In the suffix mode an output that already exists stops the run before the
      remux: nothing is rebuilt and the existing file is left as it was. */
  lemma ExistingOutputKept(video: string, opts: Options, temps: TempNames, clock: Clock, fs: Fs, tk: Toolkit)
    requires video in fs && !Swept(video, clock)
    requires FreshTemps(video, opts, temps)
    requires !opts.replaceOriginal
    requires SuffixedPath(video, opts.outputSuffix) in SweepOrphans(fs, clock)
    ensures var r := ProcessSingleVideo(video, opts, temps, clock, fs, tk);
      var out := SuffixedPath(video, opts.outputSuffix);
      && !r.ok
      && (forall k | 0 <= k < |r.steps| :: !r.steps[k].RunRemux?)
      && out in r.fs && r.fs[out] == fs[out]
  {
    var swept := SweepOrphans(fs, clock);
    assert video in swept;
    var out := SuffixedPath(video, opts.outputSuffix);
    var d := SelectStream(tk.probe, tk.parse, tk.samples, tk.simplify);
    var stage := Attempt(video, opts, temps, swept, tk, d);
    if d.Convert? {
      var prep := PrepareSubtitle(temps, swept, tk);
      assert out in prep.fs && prep.fs[out] == fs[out];
      if prep.subtitle.Some? {
        var placed := PlaceOutput(video, opts, prep.fs, tk);
        assert !placed.ok && placed.steps == [];
        assert stage.steps == [ExtractStream(d.position)];
      }
    }
  }

  /** A failed remux in the suffix mode leaves its partial output at the suffixed
      name; in the replace mode the temporary output never outlives a run that got as
      far as naming it. */
  lemma FailedRemuxLeftovers(video: string, opts: Options, temps: TempNames, clock: Clock, fs: Fs, tk: Toolkit)
    requires video in fs && !Swept(video, clock)
    requires FreshTemps(video, opts, temps)
    requires SelectStream(tk.probe, tk.parse, tk.samples, tk.simplify).Convert?
    requires PrepareSubtitle(temps, SweepOrphans(fs, clock), tk).subtitle.Some?
    ensures var r := ProcessSingleVideo(video, opts, temps, clock, fs, tk);
      var out := SuffixedPath(video, opts.outputSuffix);
      && ((&& !opts.replaceOriginal && out !in SweepOrphans(fs, clock) && tk.parse(tk.reprobe).Some?
           && tk.remuxExit != 0 && tk.remuxLeavesPartial)
          ==> !r.ok && out in r.fs && r.fs[out] == Partial)
      && (opts.replaceOriginal && (!(opts.backupOriginal && BackupPath(video) !in SweepOrphans(fs, clock)) || tk.copyOk)
          ==> TempOutputPath(video) !in r.fs)
  {
    var swept := SweepOrphans(fs, clock);
    assert video in swept;
    var d := SelectStream(tk.probe, tk.parse, tk.samples, tk.simplify);
    var prep := PrepareSubtitle(temps, swept, tk);
    PrepareKeepsVideoNames(video, opts, temps, swept, tk);
    DerivedNamesDistinct(video, opts.outputSuffix);
    var out := Produce(video, opts, prep.subtitle.value, prep.fs, tk);
    var stage := Attempt(video, opts, temps, swept, tk, d);
    assert stage.fs == out.fs && stage.ok == out.ok && stage.into == out.into;
    var r := ProcessSingleVideo(video, opts, temps, clock, fs, tk);
    assert r.fs == Cleanup(stage.fs, temps, if opts.replaceOriginal then stage.into else None);
    var placed := PlaceOutput(video, opts, prep.fs, tk);
    if opts.replaceOriginal && (!(opts.backupOriginal && BackupPath(video) !in swept) || tk.copyOk) {
      assert placed.ok && placed.into == Some(TempOutputPath(video));
      assert out.into == Some(TempOutputPath(video));
    }
  }

  /** Every file other than the video, the temporary subtitle files and the names
      derived from the video is left exactly as it was, unless the sweep took it. */
  lemma NothingElseChanges(video: string, opts: Options, temps: TempNames, clock: Clock, fs: Fs, tk: Toolkit, p: string)
    requires p != video && p != temps.traditional && p != temps.simplified
    requires p != BackupPath(video) && p != TempOutputPath(video) && p != SuffixedPath(video, opts.outputSuffix)
    requires !Swept(p, clock)
    ensures var r := ProcessSingleVideo(video, opts, temps, clock, fs, tk);
      (p in r.fs <==> p in fs) && (p in fs ==> r.fs[p] == fs[p])
  {
    if video in fs {
      var swept := SweepOrphans(fs, clock);
      var d := SelectStream(tk.probe, tk.parse, tk.samples, tk.simplify);
      if video in swept && d.Convert? {
        var prep := PrepareSubtitle(temps, swept, tk);
        if prep.subtitle.Some? {
          ProduceFrame(video, opts, prep.subtitle.value, prep.fs, tk);
          var out := Produce(video, opts, prep.subtitle.value, prep.fs, tk);
          var stage := Attempt(video, opts, temps, swept, tk, d);
          assert stage.fs == out.fs;
        }
      }
    }
  }

  /** The sweep runs before anything else and does not spare the input: a stale video
      in the working directory whose name matches a temporary pattern (for example
      `clip_temp_output.mkv`) is deleted, and the run then fails as if it had no
      subtitle streams. */
  lemma SweptVideoIsLost(video: string, opts: Options, temps: TempNames, clock: Clock, fs: Fs, tk: Toolkit)
    requires video in fs && Swept(video, clock)
    ensures var r := ProcessSingleVideo(video, opts, temps, clock, fs, tk);
      !r.ok && r.steps == [] && video !in r.fs
  {
  }
}
