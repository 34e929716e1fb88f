/**
  The batch conversion of the server: the file list of `get_eligible_video_files`,
  the request check of `batch_convert`, and the worker
  `process_batch_convert_async` with its counters and the registry entries it
  writes.
 */
module Batch {
  import opened Text
  import opened Config
  import opened Registry
  import opened Jobs

  // ---------------------------------------------------------------------------
  // get_eligible_video_files

  /** A file met on the walk: its bare name and its full path. */
  datatype Candidate = Candidate(filename: string, fullPath: string)

  /** An eligible file and the size it was admitted with. */
  datatype Eligible = Eligible(filename: string, fullPath: string, size: int)

  function InDirectory(root: string, files: seq<string>): (c: seq<Candidate>)
    ensures |c| == |files|
    ensures forall k | 0 <= k < |c| :: c[k] == Candidate(files[k], Join(root, files[k]))
  {
    seq(|files|, k requires 0 <= k < |files| => Candidate(files[k], Join(root, files[k])))
  }

  /** `c` is file `f` of some directory of the walk, under that directory's path. */
  predicate FromWalk(walk: seq<WalkEntry>, c: Candidate) {
    exists i, f | 0 <= i < |walk| && f in walk[i].files :: c == Candidate(f, Join(walk[i].root, f))
  }

  /** Every file of the walk, directory by directory, in listing order. */
  function Candidates(walk: seq<WalkEntry>): (c: seq<Candidate>)
    ensures forall i, f | 0 <= i < |walk| && f in walk[i].files :: Candidate(f, Join(walk[i].root, f)) in c
    ensures forall x | x in c :: FromWalk(walk, x)
  {
    if walk == [] then []
    else
      var here := InDirectory(walk[0].root, walk[0].files);
      var rest := Candidates(walk[1..]);
      assert forall i | 1 <= i < |walk| :: walk[i] == walk[1..][i - 1];
      assert forall f | f in walk[0].files :: Candidate(f, Join(walk[0].root, f)) in here;
      here + rest
  }

  /** The walk is listed directory by directory: the files of two consecutive parts
      of a walk are those of the first part followed by those of the second. */
  lemma {:induction false} CandidatesAppend(a: seq<WalkEntry>, b: seq<WalkEntry>)
    ensures Candidates(a + b) == Candidates(a) + Candidates(b)
    decreases |a|
  {
    if a == [] {
      assert a + b == b;
    } else {
      assert (a + b)[0] == a[0];
      assert (a + b)[1..] == a[1..] + b;
      CandidatesAppend(a[1..], b);
    }
  }

  /** A file enters the batch when its name passes the extension test and its size
      is known and within the limit; a failing size probe, and a limit that does not
      compare with integers, leave it out. */
  predicate Admits(allowed: set<string>, limit: Option<int>, sizeOf: string -> Option<int>, c: Candidate) {
    && IsAllowedFile(allowed, c.filename)
    && sizeOf(c.fullPath).Some?
    && limit.Some?
    && sizeOf(c.fullPath).value <= limit.value
  }

  function Admit(sizeOf: string -> Option<int>, c: Candidate): Eligible
    requires sizeOf(c.fullPath).Some?
  {
    Eligible(c.filename, c.fullPath, sizeOf(c.fullPath).value)
  }

  /** What the filter checked of a file it kept. */
  predicate Admitted(allowed: set<string>, limit: Option<int>, sizeOf: string -> Option<int>, e: Eligible) {
    && IsAllowedFile(allowed, e.filename)
    && sizeOf(e.fullPath) == Some(e.size)
    && limit.Some? && e.size <= limit.value
  }

  /** The files of `cands` the batch admits, in order. */
  function Filter(cands: seq<Candidate>, allowed: set<string>, limit: Option<int>, sizeOf: string -> Option<int>): (r: seq<Eligible>)
    ensures |r| <= |cands|
    ensures forall e | e in r :: Admitted(allowed, limit, sizeOf, e)
    ensures forall e | e in r :: Candidate(e.filename, e.fullPath) in cands
    ensures forall c | c in cands && Admits(allowed, limit, sizeOf, c) :: Admit(sizeOf, c) in r
  {
    if cands == [] then []
    else
      var rest := Filter(cands[1..], allowed, limit, sizeOf);
      assert forall c | c in cands[1..] :: c in cands;
      assert forall c | c in cands && c != cands[0] :: c in cands[1..];
      if Admits(allowed, limit, sizeOf, cands[0]) then [Admit(sizeOf, cands[0])] + rest else rest
  }

  /** The filter keeps the order of the walk: it works file by file. */
  lemma {:induction false} FilterAppend(a: seq<Candidate>, b: seq<Candidate>, allowed: set<string>, limit: Option<int>, sizeOf: string -> Option<int>)
    ensures Filter(a + b, allowed, limit, sizeOf) == Filter(a, allowed, limit, sizeOf) + Filter(b, allowed, limit, sizeOf)
  {
    if a == [] {
      assert a + b == b;
    } else {
      assert (a + b)[0] == a[0];
      assert (a + b)[1..] == a[1..] + b;
      FilterAppend(a[1..], b, allowed, limit, sizeOf);
    }
  }

  /** The limit of the batch: the server's `max_file_size`, never a request's override. */
  function SizeLimit(server: Server): Option<int> {
    AsNumber(Get(server.config, MaxFileSizeKey, Null))
  }

  /** `get_eligible_video_files`. */
  function EligibleFiles(server: Server, tree: Tree, sizeOf: string -> Option<int>): (r: seq<Eligible>)
    ensures forall e | e in r ::
      && IsAllowedFile(server.allowed, e.filename)
      && sizeOf(e.fullPath) == Some(e.size)
      && SizeLimit(server).Some? && e.size <= SizeLimit(server).value
    ensures forall i, f | 0 <= i < |tree.walk| && f in tree.walk[i].files ::
      Admits(server.allowed, SizeLimit(server), sizeOf, Candidate(f, Join(tree.walk[i].root, f))) ==>
      Admit(sizeOf, Candidate(f, Join(tree.walk[i].root, f))) in r
    ensures SizeLimit(server).None? ==> r == []
    ensures forall e | e in r :: FromWalk(tree.walk, Candidate(e.filename, e.fullPath))
  {
    var cands := Candidates(tree.walk);
    var r := Filter(cands, server.allowed, SizeLimit(server), sizeOf);
    assert r != [] ==> r[0] in r;
    r
  }

  /** The eligible files keep the order of the walk: those of two consecutive parts of
      a walk are those of the first part followed by those of the second. */
  lemma EligibleFilesAppend(server: Server, existing: set<string>, a: seq<WalkEntry>, b: seq<WalkEntry>,
                            sizeOf: string -> Option<int>)
    ensures EligibleFiles(server, Tree(existing, a + b), sizeOf)
         == EligibleFiles(server, Tree(existing, a), sizeOf) + EligibleFiles(server, Tree(existing, b), sizeOf)
  {
    CandidatesAppend(a, b);
    FilterAppend(Candidates(a), Candidates(b), server.allowed, SizeLimit(server), sizeOf);
  }

  /** A file without a dot in its name enters the batch like any video. */
  lemma ExtensionlessFileIsEligible(server: Server, tree: Tree, sizeOf: string -> Option<int>, i: nat, f: string)
    requires i < |tree.walk| && f in tree.walk[i].files && '.' !in f
    requires SizeLimit(server).Some?
    requires sizeOf(Join(tree.walk[i].root, f)) == Some(0) && SizeLimit(server).value >= 0
    ensures Eligible(f, Join(tree.walk[i].root, f), 0) in EligibleFiles(server, tree, sizeOf)
  {
    var c := Candidate(f, Join(tree.walk[i].root, f));
    assert Admits(server.allowed, SizeLimit(server), sizeOf, c);
    assert Admit(sizeOf, c) == Eligible(f, Join(tree.walk[i].root, f), 0);
  }

  // ---------------------------------------------------------------------------
  // The per-file step of the batch loop

  /** `processed_count`, `skipped_count`, `error_count`. */
  datatype Tally = Tally(processed: nat, skipped: nat, errors: nat)

  function Counted(t: Tally): nat {
    t.processed + t.skipped + t.errors
  }

  /** The loop's state: the registry, the counters, and the files a notification went
      out for, in order. */
  datatype Progressing = Progressing(reg: Registry, tally: Tally, notified: seq<string>)

  predicate BatchRunning(reg: Registry) {
    BatchKey in reg && reg[BatchKey].status == Processing
  }

  /** The batch entry before file `i` (from 0) of `n`: current file and message. */
  function Mark(reg: Registry, i: nat, n: nat, name: string): (r: Registry)
    requires BatchKey in reg
    ensures r.Keys == reg.Keys
    ensures forall k | k in reg && k != BatchKey :: r[k] == reg[k]
    ensures r[BatchKey].status == reg[BatchKey].status && r[BatchKey].counters == reg[BatchKey].counters
    ensures r[BatchKey].startTime == reg[BatchKey].startTime && r[BatchKey].endTime == reg[BatchKey].endTime
  {
    reg[BatchKey := reg[BatchKey].(currentFile := Some(name), note := BatchAt(i + 1, n, name))]
  }

  /** The e-mail pre-check of the loop, `smtp_settings.get('enable_email_notification')`,
      read as the server's gate reads it: an SMTP block that is not a dict counts as
      disabled. */
  predicate NotifyEnabled(current: Settings) {
    var smtp := Get(current, SmtpKey, Dict(map[]));
    smtp.Dict? && Truthy(Get(smtp.entries, EnableKey, Bool(false)))
  }

  /** The entry a finished file gets, by the pipeline's outcome. */
  function FileEntry(outcome: Outcome, at: int): (e: Entry)
    ensures e.status == Completed <==> outcome == Returned(true)
    ensures e.status == Skipped <==> outcome == Returned(false)
    ensures e.status == Error <==> outcome.Raised?
  {
    match outcome
    case Raised => Finished(Error, Failed, at)
    case Returned(ok) => if ok then Finished(Completed, Done, at) else Finished(Skipped, NothingToDo, at)
  }

  /** The counter a finished file raises: processed for a conversion, skipped for a
      returned false, errors for an exception; the other two are kept. */
  function Bump(t: Tally, outcome: Outcome): (r: Tally)
    ensures Counted(r) == Counted(t) + 1
    ensures outcome == Returned(true) ==> r == t.(processed := t.processed + 1)
    ensures outcome == Returned(false) ==> r == t.(skipped := t.skipped + 1)
    ensures outcome == Raised ==> r == t.(errors := t.errors + 1)
  {
    match outcome
    case Raised => t.(errors := t.errors + 1)
    case Returned(ok) => if ok then t.(processed := t.processed + 1) else t.(skipped := t.skipped + 1)
  }

  /** One iteration of the loop, with the e-mail pre-check reading a non-dict SMTP
      block as disabled: every file is counted exactly once. A file whose name has a
      running entry is skipped untouched; otherwise its entry records the pipeline's
      outcome. */
  function FileStep(st: Progressing, f: Eligible, i: nat, n: nat, current: Settings,
                    outcome: Outcome, delivered: bool, at: int): (r: Progressing)
    requires BatchRunning(st.reg)
    ensures Counted(r.tally) == Counted(st.tally) + 1
    ensures BatchRunning(r.reg)
    ensures r.reg[BatchKey] == st.reg[BatchKey].(currentFile := Some(f.filename), note := BatchAt(i + 1, n, f.filename))
    ensures forall k | k != BatchKey && k != f.filename :: Keeps(st.reg, r.reg, k)
    ensures Running(st.reg, f.filename) ==> r.tally == st.tally.(skipped := st.tally.skipped + 1) && r.reg == Mark(st.reg, i, n, f.filename)
    ensures !Running(st.reg, f.filename) ==> f.filename in r.reg && r.reg[f.filename] == FileEntry(outcome, at)
    ensures !Running(st.reg, f.filename) ==> r.tally == Bump(st.tally, outcome)
    ensures r.notified == st.notified || (r.notified == st.notified + [f.filename] && outcome == Returned(true) && delivered && NotifyEnabled(current))
  {
    var marked := Mark(st.reg, i, n, f.filename);
    if Running(marked, f.filename) then
      Progressing(marked, st.tally.(skipped := st.tally.skipped + 1), st.notified)
    else
      var mail := outcome == Returned(true) && NotifyEnabled(current) && EmailSent(current, CompletedStatus, DoneMessage, delivered);
      Progressing(marked[f.filename := FileEntry(outcome, at)], Bump(st.tally, outcome),
                  if mail then st.notified + [f.filename] else st.notified)
  }

  /** The iteration as the loop is written: the e-mail pre-check runs inside the
      file's `try` after the counter and the entry are updated, and raises when the
      SMTP block is present but not a dict; the handler then counts the file again,
      as an error, and overwrites its entry. */
  function FileStepAsWritten(st: Progressing, f: Eligible, i: nat, n: nat, current: Settings,
                             outcome: Outcome, delivered: bool, at: int): (r: Progressing)
    requires BatchRunning(st.reg)
    ensures Counted(st.tally) + 1 <= Counted(r.tally) <= Counted(st.tally) + 2
    ensures BatchRunning(r.reg)
    ensures r.reg[BatchKey] == st.reg[BatchKey].(currentFile := Some(f.filename), note := BatchAt(i + 1, n, f.filename))
  {
    var marked := Mark(st.reg, i, n, f.filename);
    if Running(marked, f.filename) then
      Progressing(marked, st.tally.(skipped := st.tally.skipped + 1), st.notified)
    else
      var counted := Bump(st.tally, outcome);
      var written := marked[f.filename := FileEntry(outcome, at)];
      if outcome.Returned? && !Get(current, SmtpKey, Dict(map[])).Dict? then
        Progressing(written[f.filename := Finished(Error, Failed, at)], counted.(errors := counted.errors + 1), st.notified)
      else
        var mail := outcome == Returned(true) && NotifyEnabled(current) && EmailSent(current, CompletedStatus, DoneMessage, delivered);
        Progressing(written, counted, if mail then st.notified + [f.filename] else st.notified)
  }

  /** Where the two differ: with an SMTP block that is not a dict, every file the
      pipeline returns for is counted twice and ends up recorded as an error. */
  lemma AsWrittenCountsTwice(st: Progressing, f: Eligible, i: nat, n: nat, current: Settings,
                             ok: bool, delivered: bool, at: int)
    requires BatchRunning(st.reg) && !Running(st.reg, f.filename)
    requires !Get(current, SmtpKey, Dict(map[])).Dict?
    ensures var r := FileStepAsWritten(st, f, i, n, current, Returned(ok), delivered, at);
      && Counted(r.tally) == Counted(st.tally) + 2
      && r.reg[f.filename].status == Error
    ensures FileStep(st, f, i, n, current, Returned(ok), delivered, at).reg[f.filename].status != Error
  {
    assert f.filename != BatchKey;
  }

  /** The two steps agree whenever the SMTP block is a dict or absent. */
  lemma StepsAgreeOnDictSmtp(st: Progressing, f: Eligible, i: nat, n: nat, current: Settings,
                             outcome: Outcome, delivered: bool, at: int)
    requires BatchRunning(st.reg)
    requires Get(current, SmtpKey, Dict(map[])).Dict?
    ensures FileStepAsWritten(st, f, i, n, current, outcome, delivered, at) == FileStep(st, f, i, n, current, outcome, delivered, at)
  {
  }


  // ---------------------------------------------------------------------------
  // process_batch_convert_async

  /** A notification for `name` is accounted for by file `f`: same name, and the
      pipeline reported a conversion and the message was delivered. */
  predicate NotifiedFor(f: Eligible, name: string, process: string -> Outcome, delivered: string -> bool) {
    f.filename == name && process(f.fullPath) == Returned(true) && delivered(f.filename)
  }

  /** The entry under `k`, or its absence, is the same in both registries. */
  predicate Keeps(before: Registry, after: Registry, k: string) {
    && (k in after <==> k in before)
    && (k in after ==> after[k] == before[k])
  }

  /** No file from `i` up to `stop` is named `k`. */
  predicate NotAmong(files: seq<Eligible>, i: nat, stop: nat, k: string)
    requires i <= stop <= |files|
  {
    forall j | i <= j < stop :: files[j].filename != k
  }

  /** Files `i` up to `stop` of the batch, one step each. */
  function BatchLoop(st: Progressing, files: seq<Eligible>, i: nat, stop: nat, current: Settings,
                     process: string -> Outcome, delivered: string -> bool, at: int): (r: Progressing)
    requires i <= stop <= |files|
    requires BatchRunning(st.reg)
    decreases stop - i
    ensures Counted(r.tally) == Counted(st.tally) + (stop - i)
    ensures BatchRunning(r.reg)
    ensures r.reg[BatchKey].counters == st.reg[BatchKey].counters
    ensures r.reg[BatchKey].startTime == st.reg[BatchKey].startTime && r.reg[BatchKey].endTime == st.reg[BatchKey].endTime
    ensures forall k | k != BatchKey && NotAmong(files, i, stop, k) :: Keeps(st.reg, r.reg, k)
  {
    if i == stop then st
    else
      var f := files[i];
      var next := FileStep(st, f, i, |files|, current, process(f.fullPath), delivered(f.filename), at);
      assert forall k | NotAmong(files, i, stop, k) :: NotAmong(files, i + 1, stop, k) && k != f.filename;
      BatchLoop(next, files, i + 1, stop, current, process, delivered, at)
  }

  /** How many files from `i` up to `stop` the pipeline ends with `o`. */
  function OutcomeCount(files: seq<Eligible>, i: nat, stop: nat, process: string -> Outcome, o: Outcome): nat
    requires i <= stop <= |files|
    decreases stop - i
  {
    if i == stop then 0
    else (if process(files[i].fullPath) == o then 1 else 0) + OutcomeCount(files, i + 1, stop, process, o)
  }

  /** No file from `i` up to `stop` is named like the batch or has a running entry. */
  predicate NoneRunning(reg: Registry, files: seq<Eligible>, i: nat, stop: nat)
    requires i <= stop <= |files|
  {
    forall j | i <= j < stop :: files[j].filename != BatchKey && !Running(reg, files[j].filename)
  }

  /** When no file of the stretch has a running entry, each counter rises by the
      number of files with its outcome: processed by the conversions, skipped by the
      returned falses, errors by the exceptions. */
  lemma {:induction false} LoopCountsOutcomes(st: Progressing, files: seq<Eligible>, i: nat, stop: nat, current: Settings,
                                              process: string -> Outcome, delivered: string -> bool, at: int)
    requires i <= stop <= |files|
    requires BatchRunning(st.reg)
    requires NoneRunning(st.reg, files, i, stop)
    decreases stop - i
    ensures var r := BatchLoop(st, files, i, stop, current, process, delivered, at);
      && r.tally.processed == st.tally.processed + OutcomeCount(files, i, stop, process, Returned(true))
      && r.tally.skipped == st.tally.skipped + OutcomeCount(files, i, stop, process, Returned(false))
      && r.tally.errors == st.tally.errors + OutcomeCount(files, i, stop, process, Raised)
  {
    if i < stop {
      var f := files[i];
      var next := FileStep(st, f, i, |files|, current, process(f.fullPath), delivered(f.filename), at);
      assert next.tally == Bump(st.tally, process(f.fullPath));
      forall j | i + 1 <= j < stop
        ensures files[j].filename != BatchKey && !Running(next.reg, files[j].filename)
      {
        var k := files[j].filename;
        if k != f.filename {
          assert Keeps(st.reg, next.reg, k);
        }
      }
      LoopCountsOutcomes(next, files, i + 1, stop, current, process, delivered, at);
    }
  }

  /** Some file from `i` up to `stop` is named `name`, was converted, and had its
      message delivered. */
  predicate NotifiedWithin(files: seq<Eligible>, i: nat, stop: nat, name: string,
                           process: string -> Outcome, delivered: string -> bool)
    requires i <= stop <= |files|
  {
    exists j | i <= j < stop :: NotifiedFor(files[j], name, process, delivered)
  }

  /** `after` extends `before`, and every name it adds is accounted for by a file from
      `i` up to `stop`. */
  predicate Accounted(files: seq<Eligible>, i: nat, stop: nat, before: seq<string>, after: seq<string>,
                      process: string -> Outcome, delivered: string -> bool)
    requires i <= stop <= |files|
  {
    && |before| <= |after| && after[..|before|] == before
    && forall m | |before| <= m < |after| :: NotifiedWithin(files, i, stop, after[m], process, delivered)
  }

  /** The loop only appends to the notified files, and every name it appends belongs
      to a file of this stretch that was converted and whose message was delivered. */
  lemma {:induction false} NotifiedAccountedFor(st: Progressing, files: seq<Eligible>, i: nat, stop: nat, current: Settings,
                                                process: string -> Outcome, delivered: string -> bool, at: int)
    requires i <= stop <= |files|
    requires BatchRunning(st.reg)
    decreases stop - i
    ensures Accounted(files, i, stop, st.notified, BatchLoop(st, files, i, stop, current, process, delivered, at).notified, process, delivered)
  {
    if i == stop {
      assert st.notified[..|st.notified|] == st.notified;
    } else {
      var f := files[i];
      var next := FileStep(st, f, i, |files|, current, process(f.fullPath), delivered(f.filename), at);
      NotifiedAccountedFor(next, files, i + 1, stop, current, process, delivered, at);
      var r := BatchLoop(next, files, i + 1, stop, current, process, delivered, at);
      NotifiedExtends(files, i, stop, st.notified, next.notified, r.notified, process, delivered);
      assert r == BatchLoop(st, files, i, stop, current, process, delivered, at);
    }
  }

  /** One step of the induction above, on the notified lists alone: `before` is
      extended to `middle` by file `i`, and `middle` to `after` by the rest. */
  lemma NotifiedExtends(files: seq<Eligible>, i: nat, stop: nat, before: seq<string>, middle: seq<string>, after: seq<string>,
                        process: string -> Outcome, delivered: string -> bool)
    requires i < stop <= |files|
    requires middle == before
          || (middle == before + [files[i].filename] && process(files[i].fullPath) == Returned(true) && delivered(files[i].filename))
    requires Accounted(files, i + 1, stop, middle, after, process, delivered)
    ensures Accounted(files, i, stop, before, after, process, delivered)
  {
    assert after[..|before|] == after[..|middle|][..|before|];
    forall m | |before| <= m < |after|
      ensures NotifiedWithin(files, i, stop, after[m], process, delivered)
    {
      if m < |middle| {
        assert after[m] == middle[m] == files[i].filename;
        assert NotifiedFor(files[i], after[m], process, delivered);
      } else {
        assert NotifiedWithin(files, i + 1, stop, after[m], process, delivered);
      }
    }
  }

  /** The batch entry after the loop: `dict.update` of status, counters, end time and
      message onto the running entry, which keeps its start time and current file. */
  function FinalEntry(running: Entry, n: nat, t: Tally, at: int): (e: Entry)
    ensures e.status == Completed && e.startTime == running.startTime && e.endTime == Some(at)
    ensures e.counters == Some(Counters(n, t.processed, t.skipped, t.errors))
  {
    running.(status := Completed, counters := Some(Counters(n, t.processed, t.skipped, t.errors)),
             endTime := Some(at), note := BatchDone(t.processed, t.skipped, t.errors))
  }

  /** The registry and the notified files after a batch run. */
  datatype BatchRun = BatchRun(reg: Registry, notified: seq<string>)

  function StartEntry(n: nat, started: int): Entry {
    Entry(Processing, BatchStarted(n), Some(started), None, Some(Counters(n, 0, 0, 0)), Some(""))
  }

  function EmptyBatchEntry(at: int): Entry {
    Entry(Completed, NoEligibleFiles, None, Some(at), Some(Counters(0, 0, 0, 0)), None)
  }

  /** The batch proper, once the settings are merged and the list is not empty:
      the running entry, the loop, and the final update of the entry. */
  function RunFiles(reg: Registry, current: Settings, files: seq<Eligible>,
                    process: string -> Outcome, delivered: string -> bool,
                    started: int, ended: int): (r: BatchRun)
    requires files != []
    ensures BatchKey in r.reg
    ensures var e := r.reg[BatchKey];
      && e.status == Completed && e.startTime == Some(started) && e.endTime == Some(ended)
      && e.counters.Some? && e.counters.value.total == |files|
      && e.counters.value.processed + e.counters.value.skipped + e.counters.value.errors == |files|
    ensures forall k | k != BatchKey && NotAmong(files, 0, |files|, k) :: Keeps(reg, r.reg, k)
  {
    var n := |files|;
    var start := Progressing(reg[BatchKey := StartEntry(n, started)], Tally(0, 0, 0), []);
    var done := BatchLoop(start, files, 0, n, current, process, delivered, ended);
    assert Counted(done.tally) == n;
    BatchRun(done.reg[BatchKey := FinalEntry(done.reg[BatchKey], n, done.tally, ended)], done.notified)
  }

  /** `process_batch_convert_async`, given the list its own call of
      `get_eligible_video_files` returns. `process` and `delivered` are the pipeline
      and the SMTP session per file; `started` and `ended` the clock at the start and
      at the end (per-file entries carry `ended` too). */
  function RunBatch(reg: Registry, overrides: Value, config: Settings, files: seq<Eligible>,
                    process: string -> Outcome, delivered: string -> bool,
                    started: int, ended: int): (r: BatchRun)
    ensures MergeOverrides(config, overrides).None? ==>
      r == BatchRun(reg[BatchKey := Finished(Error, Failed, ended)], [])
    ensures MergeOverrides(config, overrides).Some? && files == [] ==>
      r == BatchRun(reg[BatchKey := EmptyBatchEntry(ended)], [])
    ensures BatchKey in r.reg && r.reg[BatchKey].status != Processing && r.reg[BatchKey].endTime == Some(ended)
    ensures MergeOverrides(config, overrides).Some? && files != [] ==>
      var e := r.reg[BatchKey];
      && e.status == Completed && e.startTime == Some(started)
      && e.counters.Some? && e.counters.value.total == |files|
      && e.counters.value.processed + e.counters.value.skipped + e.counters.value.errors == |files|
    ensures forall k | k != BatchKey && NotAmong(files, 0, |files|, k) :: Keeps(reg, r.reg, k)
  {
    match MergeOverrides(config, overrides)
    case None => BatchRun(reg[BatchKey := Finished(Error, Failed, ended)], [])
    case Some(current) =>
      if files == [] then BatchRun(reg[BatchKey := EmptyBatchEntry(ended)], [])
      else RunFiles(reg, current, files, process, delivered, started, ended)
  }

  // ---------------------------------------------------------------------------
  // The batch as written, with the step that may count a file twice

  /** Files `i` up to `stop` of the batch, one step each, as the loop is written. */
  function BatchLoopAsWritten(st: Progressing, files: seq<Eligible>, i: nat, stop: nat, current: Settings,
                              process: string -> Outcome, delivered: string -> bool, at: int): (r: Progressing)
    requires i <= stop <= |files|
    requires BatchRunning(st.reg)
    decreases stop - i
    ensures Counted(st.tally) + (stop - i) <= Counted(r.tally) <= Counted(st.tally) + 2 * (stop - i)
    ensures BatchRunning(r.reg)
    ensures r.reg[BatchKey].counters == st.reg[BatchKey].counters
    ensures r.reg[BatchKey].startTime == st.reg[BatchKey].startTime && r.reg[BatchKey].endTime == st.reg[BatchKey].endTime
  {
    if i == stop then st
    else
      var f := files[i];
      var next := FileStepAsWritten(st, f, i, |files|, current, process(f.fullPath), delivered(f.filename), at);
      BatchLoopAsWritten(next, files, i + 1, stop, current, process, delivered, at)
  }

  /** With an SMTP block that is a dict or absent, the loop as written is the loop. */
  lemma {:induction false} LoopsAgreeOnDictSmtp(st: Progressing, files: seq<Eligible>, i: nat, stop: nat, current: Settings,
                                                process: string -> Outcome, delivered: string -> bool, at: int)
    requires i <= stop <= |files|
    requires BatchRunning(st.reg)
    requires Get(current, SmtpKey, Dict(map[])).Dict?
    decreases stop - i
    ensures BatchLoopAsWritten(st, files, i, stop, current, process, delivered, at)
         == BatchLoop(st, files, i, stop, current, process, delivered, at)
  {
    if i < stop {
      var f := files[i];
      var next := FileStep(st, f, i, |files|, current, process(f.fullPath), delivered(f.filename), at);
      var nextAsWritten := FileStepAsWritten(st, f, i, |files|, current, process(f.fullPath), delivered(f.filename), at);
      StepsAgreeOnDictSmtp(st, f, i, |files|, current, process(f.fullPath), delivered(f.filename), at);
      assert nextAsWritten == next;
      LoopsAgreeOnDictSmtp(next, files, i + 1, stop, current, process, delivered, at);
      assert BatchLoopAsWritten(st, files, i, stop, current, process, delivered, at)
          == BatchLoopAsWritten(nextAsWritten, files, i + 1, stop, current, process, delivered, at);
      assert BatchLoop(st, files, i, stop, current, process, delivered, at)
          == BatchLoop(next, files, i + 1, stop, current, process, delivered, at);
    }
  }

  /** `RunFiles` with the loop as written. */
  function RunFilesAsWritten(reg: Registry, current: Settings, files: seq<Eligible>,
                             process: string -> Outcome, delivered: string -> bool,
                             started: int, ended: int): (r: BatchRun)
    requires files != []
    ensures BatchKey in r.reg
    ensures var e := r.reg[BatchKey];
      && e.status == Completed && e.startTime == Some(started) && e.endTime == Some(ended)
      && e.counters.Some? && e.counters.value.total == |files|
      && |files| <= e.counters.value.processed + e.counters.value.skipped + e.counters.value.errors <= 2 * |files|
  {
    var n := |files|;
    var start := Progressing(reg[BatchKey := StartEntry(n, started)], Tally(0, 0, 0), []);
    var done := BatchLoopAsWritten(start, files, 0, n, current, process, delivered, ended);
    BatchRun(done.reg[BatchKey := FinalEntry(done.reg[BatchKey], n, done.tally, ended)], done.notified)
  }

  /** `process_batch_convert_async` as written: `RunBatch` with the loop as written.
      Its counters account for at least every file, and for more when some file is
      counted twice. */
  function RunBatchAsWritten(reg: Registry, overrides: Value, config: Settings, files: seq<Eligible>,
                             process: string -> Outcome, delivered: string -> bool,
                             started: int, ended: int): (r: BatchRun)
    ensures MergeOverrides(config, overrides).None? ==>
      r == BatchRun(reg[BatchKey := Finished(Error, Failed, ended)], [])
    ensures MergeOverrides(config, overrides).Some? && files == [] ==>
      r == BatchRun(reg[BatchKey := EmptyBatchEntry(ended)], [])
    ensures BatchKey in r.reg && r.reg[BatchKey].status != Processing && r.reg[BatchKey].endTime == Some(ended)
    ensures MergeOverrides(config, overrides).Some? && files != [] ==>
      var e := r.reg[BatchKey];
      && e.status == Completed && e.startTime == Some(started)
      && e.counters.Some? && e.counters.value.total == |files|
      && |files| <= e.counters.value.processed + e.counters.value.skipped + e.counters.value.errors <= 2 * |files|
  {
    match MergeOverrides(config, overrides)
    case None => BatchRun(reg[BatchKey := Finished(Error, Failed, ended)], [])
    case Some(current) =>
      if files == [] then BatchRun(reg[BatchKey := EmptyBatchEntry(ended)], [])
      else RunFilesAsWritten(reg, current, files, process, delivered, started, ended)
  }

  /** With an SMTP block in the server's settings that is a dict, or none at all, the
      batch as written is the batch. */
  lemma RunsAgreeOnDictSmtp(reg: Registry, overrides: Value, config: Settings, files: seq<Eligible>,
                            process: string -> Outcome, delivered: string -> bool,
                            started: int, ended: int)
    requires Get(config, SmtpKey, Dict(map[])).Dict?
    ensures RunBatchAsWritten(reg, overrides, config, files, process, delivered, started, ended)
         == RunBatch(reg, overrides, config, files, process, delivered, started, ended)
  {
    match MergeOverrides(config, overrides)
    case None =>
    case Some(current) =>
      if files != [] {
        assert Get(current, SmtpKey, Dict(map[])).Dict?;
        var start := Progressing(reg[BatchKey := StartEntry(|files|, started)], Tally(0, 0, 0), []);
        LoopsAgreeOnDictSmtp(start, files, 0, |files|, current, process, delivered, ended);
      }
  }

  /** A single-file batch with `smtp_settings` null in the server's settings and a
      successful pipeline run ends with a progress of 200 percent. */
  lemma AsWrittenProgressOverflows(reg: Registry, f: Eligible, process: string -> Outcome, delivered: string -> bool,
                                   started: int, ended: int, now: int)
    requires f.filename != BatchKey && f.filename !in reg
    requires process(f.fullPath) == Returned(true)
    ensures var config: Settings := map[SmtpKey := Null];
      var r := RunBatchAsWritten(reg, Null, config, [f], process, delivered, started, ended);
      GetBatchStatus(r.reg, now).progress == 200.0
  {
    var config: Settings := map[SmtpKey := Null];
    var start := Progressing(reg[BatchKey := StartEntry(1, started)], Tally(0, 0, 0), []);
    var step := FileStepAsWritten(start, f, 0, 1, config, Returned(true), delivered(f.filename), ended);
    assert !Running(start.reg, f.filename);
    assert step.tally == Tally(1, 0, 1);
    var done := BatchLoopAsWritten(start, [f], 0, 1, config, process, delivered, ended);
    assert done == BatchLoopAsWritten(step, [f], 1, 1, config, process, delivered, ended) == step;
    var r := RunFilesAsWritten(reg, config, [f], process, delivered, started, ended);
    assert RunBatchAsWritten(reg, Null, config, [f], process, delivered, started, ended) == r;
    var e := r.reg[BatchKey];
    assert e.counters == Some(Counters(1, 1, 0, 1));
    assert Progress(e) == 200.0;
  }

  /** When no file of the batch has a running entry, the final counters count the
      files by their outcome: `processed_files` the conversions, `skipped_files` the
      returned falses, `error_files` the exceptions. */
  lemma BatchCountsOutcomes(reg: Registry, current: Settings, files: seq<Eligible>,
                            process: string -> Outcome, delivered: string -> bool,
                            started: int, ended: int)
    requires files != []
    requires NoneRunning(reg, files, 0, |files|)
    ensures RunFiles(reg, current, files, process, delivered, started, ended).reg[BatchKey].counters
         == Some(Counters(|files|,
                          OutcomeCount(files, 0, |files|, process, Returned(true)),
                          OutcomeCount(files, 0, |files|, process, Returned(false)),
                          OutcomeCount(files, 0, |files|, process, Raised)))
  {
    var start := Progressing(reg[BatchKey := StartEntry(|files|, started)], Tally(0, 0, 0), []);
    assert NoneRunning(start.reg, files, 0, |files|);
    LoopCountsOutcomes(start, files, 0, |files|, current, process, delivered, ended);
  }

  /** A batch that reaches its end reports 100 percent and the time from start to
      end. */
  lemma FinishedBatchReport(reg: Registry, overrides: Value, config: Settings, files: seq<Eligible>,
                            process: string -> Outcome, delivered: string -> bool,
                            started: int, ended: int, now: int)
    requires MergeOverrides(config, overrides).Some? && files != []
    ensures var r := RunBatch(reg, overrides, config, files, process, delivered, started, ended);
      var report := GetBatchStatus(r.reg, now);
      report.BatchReport? && report.progress == 100.0 && report.duration == Some(ended - started)
  {
    var r := RunBatch(reg, overrides, config, files, process, delivered, started, ended);
    var e := r.reg[BatchKey];
    ProgressComplete(e);
  }

  /** A batch that fails on its settings or finds nothing reports 0 percent and no
      duration: its entry is written without a start time. */
  lemma UnstartedBatchReport(reg: Registry, overrides: Value, config: Settings, files: seq<Eligible>,
                             process: string -> Outcome, delivered: string -> bool,
                             started: int, ended: int, now: int)
    requires MergeOverrides(config, overrides).None? || files == []
    ensures var r := RunBatch(reg, overrides, config, files, process, delivered, started, ended);
      var report := GetBatchStatus(r.reg, now);
      report.BatchReport? && report.progress == 0.0 && report.duration.None?
  {
  }

  /** While the loop runs, every further batch request is refused as busy (or fails on
      its body). */
  lemma BatchBusyWhileRunning(data: Value, reg: Registry, listed: seq<Eligible>, files: seq<Eligible>, k: nat, current: Settings,
                              process: string -> Outcome, delivered: string -> bool, started: int, at: int)
    requires k <= |files|
    ensures var start := Progressing(reg[BatchKey := StartEntry(|files|, started)], Tally(0, 0, 0), []);
      var mid := BatchLoop(start, files, 0, k, current, process, delivered, at);
      SubmitBatch(data, mid.reg, listed).BatchBusy? || SubmitBatch(data, mid.reg, listed).BatchServerError?
  {
    var start := Progressing(reg[BatchKey := StartEntry(|files|, started)], Tally(0, 0, 0), []);
    var mid := BatchLoop(start, files, 0, k, current, process, delivered, at);
    assert Running(mid.reg, BatchKey);
  }

  /** A file named like the batch key is always skipped: the batch's own running entry
      sits under that name. */
  lemma FileNamedLikeBatchKeySkipped(st: Progressing, f: Eligible, i: nat, n: nat, current: Settings,
                                     outcome: Outcome, delivered: bool, at: int)
    requires BatchRunning(st.reg) && f.filename == BatchKey
    ensures var r := FileStep(st, f, i, n, current, outcome, delivered, at);
      r.tally == st.tally.(skipped := st.tally.skipped + 1) && r.notified == st.notified
  {
  }

  // ---------------------------------------------------------------------------
  // batch_convert

  datatype BatchSubmission =
    | BatchBusy
    | NothingEligible
    | BatchAccepted(total: nat, overrides: Value)
    | BatchServerError

  /** `batch_convert`, given the list its own call of `get_eligible_video_files`
      returns: a missing or empty body counts as `{}`; a body that is not a dict fails
      with 500; a running batch gives 409; an empty file list answers at once with a
      total of 0 and starts nothing. */
  function SubmitBatch(data: Value, reg: Registry, files: seq<Eligible>): (r: BatchSubmission)
    ensures r.BatchAccepted? <==> (!Truthy(data) || data.Dict?) && !Running(reg, BatchKey) && files != []
    ensures r.BatchBusy? <==> (!Truthy(data) || data.Dict?) && Running(reg, BatchKey)
    ensures r.BatchServerError? <==> Truthy(data) && !data.Dict?
    ensures r.BatchAccepted? ==> r.total == |files| && r.total > 0
    ensures r.BatchAccepted? && data.Dict? ==> r.overrides == Get(data.entries, "config", Dict(map[]))
  {
    var body := if Truthy(data) then data else Dict(map[]);
    if !body.Dict? then BatchServerError
    else
      var overrides := Get(body.entries, "config", Dict(map[]));
      if Running(reg, BatchKey) then BatchBusy
      else if files == [] then NothingEligible
      else BatchAccepted(|files|, overrides)
  }

  /** The total a request is accepted with is the total the batch then runs over, as
      long as both see the same file list. */
  lemma AcceptedTotalIsBatchTotal(data: Value, reg: Registry, config: Settings, files: seq<Eligible>,
                                  process: string -> Outcome, delivered: string -> bool,
                                  started: int, ended: int)
    requires SubmitBatch(data, reg, files).BatchAccepted?
    requires MergeOverrides(config, SubmitBatch(data, reg, files).overrides).Some?
    ensures var s := SubmitBatch(data, reg, files);
      var r := RunBatch(reg, s.overrides, config, files, process, delivered, started, ended);
      var c := r.reg[BatchKey].counters.value;
      c.total == s.total && c.processed + c.skipped + c.errors == s.total
  {
  }
}
