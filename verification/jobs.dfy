/**
  Single-file jobs of the server: the file-name checks of `/process`, the search of
  `find_video_file` over a listing of the video directory, the acceptance decision
  of `process_video`, and the worker `process_video_async` with the registry entries
  it writes.

  The directory is an abstract listing: the set of existing paths and the
  top-down walk, in the order the walk yields it. The file-size probe, the
  pipeline run and the e-mail delivery are oracles.
 */
module Jobs {
  import opened Text
  import opened Config
  import opened Registry

  /** The server's settings after start-up: the settings map (holding
      `max_file_size` in bytes), the allowed extensions, and the video directory. */
  datatype Server = Server(config: Settings, allowed: set<string>, videoDirectory: string, maxWorkers: nat)

  // ---------------------------------------------------------------------------
  // File-name checks

  /** `ext[1:]` for a configured extension. */
  function DropFirst(e: string): string {
    if e == [] then [] else e[1..]
  }

  /** `is_allowed_file`: a name without a dot passes (the search may add the
      extension); otherwise the lowercased text after its last dot must equal a
      configured extension without its first character. The configured extensions
      are not lowercased. */
  function IsAllowedFile(allowed: set<string>, name: string): (r: bool)
    ensures '.' !in name ==> r
    ensures '.' in name ==>
      (r <==> exists e, k | e in allowed && 0 <= k < |name| && name[k] == '.' && '.' !in name[k + 1..] ::
                Lower(name[k + 1..]) == DropFirst(e))
  {
    var k := LastIndexOf(name, '.');
    assert '.' in name ==> AfterLastDot(name) == name[k + 1..];
    '.' !in name || exists e | e in allowed :: Lower(AfterLastDot(name)) == DropFirst(e)
  }

  /** `..` occurs at position `k` of `s`. */
  predicate DoubleDotAt(s: string, k: int) {
    0 <= k && k + 1 < |s| && s[k] == '.' && s[k + 1] == '.'
  }

  /** `".." in s`, by position. */
  lemma {:induction false} HasDoubleDot(s: string)
    decreases |s|
    ensures HasInfix(s, "..") <==> exists k :: DoubleDotAt(s, k)
  {
    if |s| >= 2 && s[0] == '.' && s[1] == '.' {
      assert DoubleDotAt(s, 0);
    }
    if s != [] {
      HasDoubleDot(s[1..]);
      if exists k :: DoubleDotAt(s[1..], k) {
        var k :| DoubleDotAt(s[1..], k);
        assert DoubleDotAt(s, k + 1);
      }
      if exists k :: DoubleDotAt(s, k) {
        var k :| DoubleDotAt(s, k);
        if k > 0 {
          assert DoubleDotAt(s[1..], k - 1);
        } else {
          assert s[..2] == "..";
        }
      }
    }
  }

  /** The path check of `/process`: two dots in a row, `/` or `\` anywhere in the name. */
  function IsUnsafeName(name: string): (r: bool)
    ensures r <==> (exists k :: DoubleDotAt(name, k)) || '/' in name || '\\' in name
  {
    HasDoubleDot(name);
    HasInfix(name, "..") || '/' in name || '\\' in name
  }

  /** The last index of a character is determined by where the character occurs. */
  lemma LastIndexOfUnique(s: string, c: char, k: int)
    requires -1 <= k < |s|
    requires k >= 0 ==> s[k] == c
    requires forall j | k < j < |s| :: s[j] != c
    ensures LastIndexOf(s, c) == k
  {
  }

  /** The text after the last dot, located by the position of that dot. */
  lemma AfterLastDotAt(s: string, k: int)
    requires 0 <= k < |s| && s[k] == '.'
    requires forall j | k < j < |s| :: s[j] != '.'
    ensures AfterLastDot(s) == s[k + 1..]
  {
    LastIndexOfUnique(s, '.', k);
  }

  lemma LowerIdempotent(s: string)
    ensures Lower(Lower(s)) == Lower(s)
  {
    assert forall i | 0 <= i < |s| :: Lower(Lower(s))[i] == Lower(s)[i];
  }

  lemma LowerSuffix(s: string, k: nat)
    requires k <= |s|
    ensures Lower(s)[k..] == Lower(s[k..])
  {
    assert forall i | 0 <= i < |s| - k :: Lower(s)[k..][i] == Lower(s[k..])[i];
  }

  /** Lowercasing moves no dot. */
  lemma LastDotOfLower(s: string)
    ensures LastIndexOf(Lower(s), '.') == LastIndexOf(s, '.')
  {
    var t := Lower(s);
    var k := LastIndexOf(s, '.');
    forall j | k < j < |t| ensures t[j] != '.' {
      assert s[j] != '.';
    }
    LastIndexOfUnique(t, '.', k);
  }

  lemma AfterLastDotCommutesWithLower(s: string)
    ensures AfterLastDot(Lower(s)) == Lower(AfterLastDot(s))
  {
    var k := LastIndexOf(s, '.');
    LastDotOfLower(s);
    LowerSuffix(s, k + 1);
  }

  lemma AfterLastDotOfLower(s: string)
    ensures ('.' in Lower(s)) == ('.' in s)
    ensures Lower(AfterLastDot(Lower(s))) == Lower(AfterLastDot(s))
  {
    assert ('.' in Lower(s)) == ('.' in s) by {
      LastDotOfLower(s);
    }
    AfterLastDotCommutesWithLower(s);
    LowerIdempotent(AfterLastDot(s));
  }

  /** A name made of any stem, a dot and an extension without dots whose lowercase is
      a configured extension without its first character is allowed. */
  lemma AllowedByLastExtension(allowed: set<string>, e: string, stem: string, ext: string)
    requires e in allowed && '.' !in ext && Lower(ext) == DropFirst(e)
    ensures IsAllowedFile(allowed, stem + "." + ext)
  {
    var name := stem + "." + ext;
    assert name[|stem|] == '.' && name[|stem| + 1..] == ext;
  }

  /** The extension test ignores the case of the file name. */
  lemma AllowedIgnoresCase(allowed: set<string>, name: string)
    ensures IsAllowedFile(allowed, Lower(name)) == IsAllowedFile(allowed, name)
  {
    AfterLastDotOfLower(name);
  }

  const DefaultExtensions: set<string> := {".mkv", ".mp4", ".avi", ".mov"}

  /** The default extensions admit a name by its last extension, in any case. */
  lemma CapitalExtensionAllowed()
    ensures IsAllowedFile(DefaultExtensions, "Movie.MKV")
  {
    AfterLastDotAt("Movie.MKV", 5);
    var l := Lower("MKV");
    assert l[0] == 'm' && l[1] == 'k' && l[2] == 'v';
    assert l == DropFirst(".mkv");
  }

  /** Only the last extension counts. */
  lemma LastExtensionDecides()
    ensures !IsAllowedFile(DefaultExtensions, "clip.mkv.txt")
  {
    AfterLastDotAt("clip.mkv.txt", 8);
    var l := Lower("txt");
    assert l[0] == 't' && l[1] == 'x' && l[2] == 't';
    assert forall e | e in DefaultExtensions :: DropFirst(e)[0] != 't';
  }

  /** A configured extension is compared as written: one in capitals admits no name
      with that extension, whatever its case. */
  lemma CapitalConfiguredExtensionAdmitsNothing(name: string)
    requires '.' in name && Lower(AfterLastDot(name)) == "mkv"
    ensures !IsAllowedFile({".MKV"}, name)
  {
    assert DropFirst(".MKV") == "MKV";
  }

  // ---------------------------------------------------------------------------
  // find_video_file

  /** One step of the directory walk: a directory and the files directly in it. */
  datatype WalkEntry = WalkEntry(root: string, files: seq<string>)

  /** The video directory as the search sees it: the paths that exist (files and
      directories) and the walk. */
  datatype Tree = Tree(existing: set<string>, walk: seq<WalkEntry>)

  /** The position of the first element satisfying `p`, or the length when none does. */
  function FirstWhere<T>(xs: seq<T>, p: T -> bool): (k: nat)
    ensures k <= |xs|
    ensures k < |xs| ==> p(xs[k])
    ensures forall j | 0 <= j < k :: !p(xs[j])
  {
    if xs == [] then 0 else if p(xs[0]) then 0 else 1 + FirstWhere(xs[1..], p)
  }

  /** The loose match of the second search: same stem, and an extension that is a
      configured one when both are lowercased. */
  predicate LooseMatch(name: string, file: string, allowed: set<string>) {
    && SplitExt(file).0 == SplitExt(name).0
    && exists e | e in allowed :: Lower(SplitExt(file).1) == Lower(e)
  }

  predicate HasLooseMatch(e: WalkEntry, name: string, allowed: set<string>) {
    exists m | 0 <= m < |e.files| :: LooseMatch(name, e.files[m], allowed)
  }

  /** The first pass over the walk: the first directory holding a file of exactly
      this name. */
  function ExactSearch(walk: seq<WalkEntry>, name: string): (r: Option<string>)
    ensures r.None? <==> forall i | 0 <= i < |walk| :: name !in walk[i].files
    ensures r.Some? ==> exists i | 0 <= i < |walk| ::
      && name in walk[i].files
      && r.value == Join(walk[i].root, name)
      && forall j | 0 <= j < i :: name !in walk[j].files
  {
    var i := FirstWhere(walk, (e: WalkEntry) => name in e.files);
    if i < |walk| then Some(Join(walk[i].root, name)) else None
  }

  /** The first directory of the walk holding a loose match, or the walk's length. */
  function FirstLooseDirectory(walk: seq<WalkEntry>, name: string, allowed: set<string>): (i: nat)
    ensures i <= |walk|
    ensures i < |walk| ==> HasLooseMatch(walk[i], name, allowed)
    ensures forall j | 0 <= j < i :: !HasLooseMatch(walk[j], name, allowed)
  {
    FirstWhere(walk, (e: WalkEntry) => HasLooseMatch(e, name, allowed))
  }

  /** The first loosely matching file of one directory's listing. */
  function FirstLooseFile(files: seq<string>, name: string, allowed: set<string>): (k: nat)
    requires exists m | 0 <= m < |files| :: LooseMatch(name, files[m], allowed)
    ensures k < |files| && LooseMatch(name, files[k], allowed)
    ensures forall m | 0 <= m < k :: !LooseMatch(name, files[m], allowed)
  {
    FirstWhere(files, (f: string) => LooseMatch(name, f, allowed))
  }

  /** The second pass: the first file of the walk, directory by directory and in
      listing order within one, that matches loosely. */
  function LooseSearch(walk: seq<WalkEntry>, name: string, allowed: set<string>): (r: Option<string>)
    ensures r.None? <==> forall i | 0 <= i < |walk| :: !HasLooseMatch(walk[i], name, allowed)
    ensures r.Some? ==> exists i, k | 0 <= i < |walk| && 0 <= k < |walk[i].files| ::
      && LooseMatch(name, walk[i].files[k], allowed)
      && r.value == Join(walk[i].root, walk[i].files[k])
      && (forall j | 0 <= j < i :: !HasLooseMatch(walk[j], name, allowed))
      && (forall m | 0 <= m < k :: !LooseMatch(name, walk[i].files[m], allowed))
  {
    var i := FirstLooseDirectory(walk, name, allowed);
    if i < |walk| then
      var k := FirstLooseFile(walk[i].files, name, allowed);
      var r := Some(Join(walk[i].root, walk[i].files[k]));
      assert LooseMatch(name, walk[i].files[k], allowed) && r.value == Join(walk[i].root, walk[i].files[k]);
      r
    else None
  }

  /** `find_video_file`: the name directly under the video directory if that path
      exists; else the exact pass; else the loose pass; else nothing. */
  function FindVideoFile(dir: string, name: string, allowed: set<string>, tree: Tree): (r: Option<string>)
    ensures Join(dir, name) in tree.existing ==> r == Some(Join(dir, name))
    ensures Join(dir, name) !in tree.existing && (exists i | 0 <= i < |tree.walk| :: name in tree.walk[i].files) ==>
      r == ExactSearch(tree.walk, name)
    ensures Join(dir, name) !in tree.existing && (forall i | 0 <= i < |tree.walk| :: name !in tree.walk[i].files) ==>
      r == LooseSearch(tree.walk, name, allowed)
    ensures r.None? <==>
      && Join(dir, name) !in tree.existing
      && (forall i | 0 <= i < |tree.walk| :: name !in tree.walk[i].files)
      && (forall i | 0 <= i < |tree.walk| :: !HasLooseMatch(tree.walk[i], name, allowed))
  {
    var rootPath := Join(dir, name);
    if rootPath in tree.existing then Some(rootPath)
    else
      var exact := ExactSearch(tree.walk, name);
      if exact.Some? then exact else LooseSearch(tree.walk, name, allowed)
  }

  // ---------------------------------------------------------------------------
  // process_video

  datatype Refusal = MissingFilename | NotAString | UnsafeName | UnsupportedType

  /** The replies of `/process`: 400 with a reason, 404, 409, 200 with the job it
      hands to the pool, or 500 for a request body the handler trips over. */
  datatype Reply =
    | BadRequest(reason: Refusal)
    | NotFound
    | Conflict
    | Accepted(filename: string, overrides: Value)
    | ServerError

  /** The checks every name passes before the registry is consulted. */
  predicate Admissible(name: string, server: Server, tree: Tree) {
    && name != []
    && !IsUnsafeName(name)
    && IsAllowedFile(server.allowed, name)
    && FindVideoFile(server.videoDirectory, name, server.allowed, tree).Some?
  }

  predicate Running(reg: Registry, key: string) {
    key in reg && reg[key].status == Processing
  }

  /** `process_video` on the decoded request body. A body that is not a dict either
      lacks the key (400) or makes the handler raise (500). */
  function SubmitVideo(data: Value, reg: Registry, server: Server, tree: Tree): (r: Reply)
    ensures r.Accepted? <==>
      && data.Dict? && "filename" in data.entries && data.entries["filename"].Str?
      && Admissible(data.entries["filename"].s, server, tree)
      && !Running(reg, data.entries["filename"].s)
    ensures r.Conflict? <==>
      && data.Dict? && "filename" in data.entries && data.entries["filename"].Str?
      && Admissible(data.entries["filename"].s, server, tree)
      && Running(reg, data.entries["filename"].s)
    ensures r.Accepted? ==>
      && r.filename == data.entries["filename"].s
      && r.overrides == Get(data.entries, "config", Dict(map[]))
      && '/' !in r.filename && '\\' !in r.filename
  {
    if !Truthy(data) then BadRequest(MissingFilename)
    else match data
      case Dict(m) =>
        if "filename" !in m then BadRequest(MissingFilename)
        else
          var filename := m["filename"];
          var overrides := Get(m, "config", Dict(map[]));
          if !Truthy(filename) || !filename.Str? then BadRequest(NotAString)
          else
            var name := filename.s;
            if IsUnsafeName(name) then BadRequest(UnsafeName)
            else if !IsAllowedFile(server.allowed, name) then BadRequest(UnsupportedType)
            else if FindVideoFile(server.videoDirectory, name, server.allowed, tree).None? then NotFound
            else if Running(reg, name) then Conflict
            else Accepted(name, overrides)
      case List(xs) => if Str("filename") in xs then ServerError else BadRequest(MissingFilename)
      case Str(s) => if HasInfix(s, "filename") then ServerError else BadRequest(MissingFilename)
      case _ => ServerError
  }

  // ---------------------------------------------------------------------------
  // process_video_async

  /** What the pipeline call did: returned a boolean, or raised. */
  datatype Outcome = Returned(ok: bool) | Raised

  /** The three settings handed to the pipeline, as found in the merged settings. */
  datatype JobOptions = JobOptions(replaceOriginal: Value, outputSuffix: Value, backupOriginal: Value)

  function OptionsOf(config: Settings): JobOptions {
    JobOptions(
      Get(config, "replace_original", Bool(false)),
      Get(config, "output_suffix", Str("_simplified")),
      Get(config, "backup_original", Bool(true)))
  }

  const MaxFileSizeKey := "max_file_size"

  /** The registry writes of one worker run (in order), the options the pipeline was
      called with (`None` when it was not called), and whether a notification went
      out. */
  datatype WorkerRun = WorkerRun(writes: seq<Entry>, called: Option<JobOptions>, emailed: bool)

  /** The facts every worker run's writes satisfy: one or two writes, the last one
      final and written whole, a running entry first when there are two, and a final
      status that follows the pipeline's result. */
  predicate WellFormedRun(w: WorkerRun, process: JobOptions -> Outcome, delivered: bool, started: int, ended: int) {
    && 1 <= |w.writes| <= 2
    && (var last := w.writes[|w.writes| - 1];
        && last.status != Processing && last.startTime.None? && last.endTime == Some(ended) && last.counters.None?
        && (last.status == Completed <==> w.called.Some? && process(w.called.value) == Returned(true))
        && (last.status == Skipped <==> w.called.Some? && process(w.called.value) == Returned(false))
        && (w.emailed ==> last.status == Completed && delivered))
    && (|w.writes| == 2 ==> w.writes[0].status == Processing && w.writes[0].startTime == Some(started))
    && (w.called.Some? ==> |w.writes| == 2)
  }

  /** The size limit a run compares against: `max_file_size` of the merged settings,
      when it compares with integers. */
  function RunLimit(current: Settings): Option<int> {
    AsNumber(Get(current, MaxFileSizeKey, Null))
  }

  /** The worker once the file is found at `path`, with the merged settings `current`. */
  function RunFound(path: string, current: Settings, server: Server,
                    sizeOf: string -> Option<int>, process: JobOptions -> Outcome, delivered: bool,
                    started: int, ended: int): (w: WorkerRun)
    ensures WellFormedRun(w, process, delivered, started, ended)
    ensures w.called.Some? ==> w.called.value == OptionsOf(current)
    ensures w.called.Some? <==> sizeOf(path).Some? && RunLimit(current).Some? && sizeOf(path).value <= RunLimit(current).value
  {
    var running := Entry(Processing, Started(path), Some(started), None, None, None);
    var limit := RunLimit(current);
    match sizeOf(path)
    case None => WorkerRun([running, Finished(Error, Failed, ended)], None, false)
    case Some(size) =>
      if limit.None? then WorkerRun([running, Finished(Error, Failed, ended)], None, false)
      else if size > limit.value then
        var shown := AsNumber(Get(server.config, MaxFileSizeKey, Null));
        var note := if shown.Some? then TooLarge(size, shown.value) else Failed;
        WorkerRun([running, Finished(Error, note, ended)], None, false)
      else
        var opts := OptionsOf(current);
        match process(opts)
        case Raised => WorkerRun([running, Finished(Error, Failed, ended)], Some(opts), false)
        case Returned(ok) =>
          if ok then WorkerRun([running, Finished(Completed, Done, ended)], Some(opts),
                               EmailSent(current, CompletedStatus, DoneMessage, delivered))
          else WorkerRun([running, Finished(Skipped, NothingToDo, ended)], Some(opts), false)
  }

  /** A run reads three things of the merged settings: the pipeline options, the size
      limit and the SMTP block; settings that agree on them give the same run. */
  lemma RunFoundReadsOnly(path: string, c1: Settings, c2: Settings, server: Server,
                          sizeOf: string -> Option<int>, process: JobOptions -> Outcome, delivered: bool,
                          started: int, ended: int)
    requires OptionsOf(c1) == OptionsOf(c2)
    requires Get(c1, MaxFileSizeKey, Null) == Get(c2, MaxFileSizeKey, Null)
    requires Get(c1, SmtpKey, Dict(map[])) == Get(c2, SmtpKey, Dict(map[]))
    ensures RunFound(path, c1, server, sizeOf, process, delivered, started, ended)
         == RunFound(path, c2, server, sizeOf, process, delivered, started, ended)
  {
    assert EmailSent(c1, CompletedStatus, DoneMessage, delivered) == EmailSent(c2, CompletedStatus, DoneMessage, delivered);
  }

  /** `process_video_async`. `found` is what the worker's own `find_video_file` call
      returns (the directory may have changed since the request was checked; over a
      `Tree` it is `FindVideoFile`), `sizeOf` the file-size probe (`None` when it
      raises), `process` the pipeline, `delivered` the outcome of the SMTP session. */
  function RunWorker(name: string, overrides: Value, server: Server, found: Option<string>,
                     sizeOf: string -> Option<int>, process: JobOptions -> Outcome, delivered: bool,
                     started: int, ended: int): (w: WorkerRun)
    ensures WellFormedRun(w, process, delivered, started, ended)
    ensures MergeOverrides(server.config, overrides).None? ==> w == WorkerRun([Finished(Error, Failed, ended)], None, false)
    ensures MergeOverrides(server.config, overrides).Some? && found.None? ==>
      w == WorkerRun([Finished(Error, FileMissing(name), ended)], None, false)
    ensures w.called.Some? ==> w.called.value == OptionsOf(MergeOverrides(server.config, overrides).value)
  {
    match MergeOverrides(server.config, overrides)
    case None => WorkerRun([Finished(Error, Failed, ended)], None, false)
    case Some(current) =>
      match found
      case None => WorkerRun([Finished(Error, FileMissing(name), ended)], None, false)
      case Some(path) => RunFound(path, current, server, sizeOf, process, delivered, started, ended)
  }

  /** The registry after a worker run: its last write is what stays. */
  function AfterWorker(reg: Registry, name: string, w: WorkerRun): Registry
    requires w.writes != []
  {
    reg[name := w.writes[|w.writes| - 1]]
  }

  /** A finished single job reports no duration: its final entry is written whole,
      without the start time of the running entry it replaces. */
  lemma FinishedJobHasNoDuration(reg: Registry, name: string, overrides: Value, server: Server, found: Option<string>,
                                 sizeOf: string -> Option<int>, process: JobOptions -> Outcome, delivered: bool,
                                 started: int, ended: int, now: int)
    ensures var w := RunWorker(name, overrides, server, found, sizeOf, process, delivered, started, ended);
      var reply := GetStatus(AfterWorker(reg, name, w), name, now);
      reply.Report? && reply.entry.status != Processing && reply.duration.None?
  {
  }

  /** Once a job's entry is no longer running (as every worker run leaves it), the
      same name is accepted again. */
  lemma FinishedJobCanBeResubmitted(data: Value, reg: Registry, server: Server, tree: Tree, last: Entry)
    requires data.Dict? && "filename" in data.entries && data.entries["filename"].Str?
    requires Admissible(data.entries["filename"].s, server, tree)
    requires last.status != Processing
    ensures SubmitVideo(data, reg[data.entries["filename"].s := last], server, tree).Accepted?
  {
    var name := data.entries["filename"].s;
    assert !Running(reg[name := last], name);
  }

  lemma {:induction false} NoDotNoDoubleDot(s: string)
    requires '.' !in s
    ensures !HasInfix(s, "..")
  {
    if |s| > 0 {
      assert forall c | c in s[1..] :: c in s;
      NoDotNoDoubleDot(s[1..]);
      assert s[0] != '.';
    }
  }

  /** The registry keeps single jobs and the batch in one map, and `batch_convert`
      is a name the request checks let through when a file of that stem exists. */
  lemma BatchKeyIsAJobName(data: Value, reg: Registry, server: Server, tree: Tree)
    requires data.Dict? && "filename" in data.entries && data.entries["filename"] == Str(BatchKey)
    requires FindVideoFile(server.videoDirectory, BatchKey, server.allowed, tree).Some?
    requires !Running(reg, BatchKey)
    ensures SubmitVideo(data, reg, server, tree).Accepted?
  {
    BatchKeyPassesNameChecks(server.allowed);
  }

  lemma BatchKeyPassesNameChecks(allowed: set<string>)
    ensures !IsUnsafeName(BatchKey) && IsAllowedFile(allowed, BatchKey)
  {
    assert '.' !in BatchKey && '/' !in BatchKey && '\\' !in BatchKey;
    NoDotNoDoubleDot(BatchKey);
  }

  /** A job under that name replaces the batch's entry, counters and all. */
  lemma JobReplacesBatchEntry(reg: Registry, server: Server, found: Option<string>, overrides: Value,
                              sizeOf: string -> Option<int>, process: JobOptions -> Outcome, delivered: bool,
                              started: int, ended: int, now: int)
    ensures var w := RunWorker(BatchKey, overrides, server, found, sizeOf, process, delivered, started, ended);
      var report := GetBatchStatus(AfterWorker(reg, BatchKey, w), now);
      report.BatchReport? && report.entry.counters.None? && report.progress == 0.0
  {
  }

  /** While a job for a name is running, every request for that name is refused. */
  lemma RunningJobRefusesDuplicates(data: Value, reg: Registry, server: Server, tree: Tree)
    requires data.Dict? && "filename" in data.entries && data.entries["filename"].Str?
    requires Running(reg, data.entries["filename"].s)
    ensures !SubmitVideo(data, reg, server, tree).Accepted?
  {
  }

  /** The size limit a job compares against is `max_file_size` of the merged settings:
      an override of `max_file_size_mb` changes nothing about the run. */
  lemma SizeLimitOverrideIgnored(name: string, over: Settings, v: Value, server: Server, found: Option<string>,
                                 sizeOf: string -> Option<int>, process: JobOptions -> Outcome, delivered: bool,
                                 started: int, ended: int)
    requires "max_file_size_mb" !in over
    ensures RunWorker(name, Dict(over["max_file_size_mb" := v]), server, found, sizeOf, process, delivered, started, ended)
         == RunWorker(name, Dict(over), server, found, sizeOf, process, delivered, started, ended)
  {
    MergeExtraKey(server.config, over, "max_file_size_mb", v);
    var without := MergeOverrides(server.config, Dict(over));
    if without.Some? {
      var c2 := without.value;
      var c1 := c2["max_file_size_mb" := v];
      if found.Some? {
        RunFoundReadsOnly(found.value, c1, c2, server, sizeOf, process, delivered, started, ended);
      }
    }
  }

  /** An override of `max_file_size` itself does take effect: a limit of 0 turns away
      any non-empty file before the pipeline runs. */
  lemma SizeLimitOverrideApplies(name: string, over: Settings, server: Server, found: Option<string>,
                                 sizeOf: string -> Option<int>, process: JobOptions -> Outcome, delivered: bool,
                                 started: int, ended: int)
    requires SmtpKey !in over
    requires found.Some? && sizeOf(found.value) == Some(1)
    ensures var w := RunWorker(name, Dict(over[MaxFileSizeKey := Int(0)]), server, found, sizeOf, process, delivered, started, ended);
      w.called.None? && w.writes[|w.writes| - 1].status == Error
  {
    var over2 := over[MaxFileSizeKey := Int(0)];
    assert SmtpKey !in over2;
    var c := server.config + over2;
    assert MergeOverrides(server.config, Dict(over2)) == Some(c);
    assert RunLimit(c) == Some(0);
    assert RunWorker(name, Dict(over2), server, found, sizeOf, process, delivered, started, ended)
        == RunFound(found.value, c, server, sizeOf, process, delivered, started, ended);
  }
}
