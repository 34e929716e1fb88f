/**
  The job registry of the server (`processing_status`): one entry per job key, the
  file name of a single job or `batch_convert`, and the read-only views over it
  (`get_status`, `get_all_status`, `get_queue_info`, `get_batch_status`).
 */
module Registry {
  import opened Text

  datatype Status = Processing | Completed | Skipped | Error

  /** The human-readable `message` of an entry, by kind. */
  datatype Note =
    | FileMissing(filename: string)
    | Started(path: string)
    | TooLarge(size: int, limit: int)
    | Done
    | NothingToDo
    | Failed
    | NoEligibleFiles
    | BatchStarted(count: nat)
    | BatchAt(position: nat, count: nat, filename: string)
    | BatchDone(processed: nat, skipped: nat, errors: nat)

  /** `total_files`, `processed_files`, `skipped_files`, `error_files` of a batch entry. */
  datatype Counters = Counters(total: nat, processed: nat, skipped: nat, errors: nat)

  /** One entry; optional fields are keys the entry may lack. Times are whole seconds. */
  datatype Entry = Entry(
    status: Status,
    note: Note,
    startTime: Option<int>,
    endTime: Option<int>,
    counters: Option<Counters>,
    currentFile: Option<string>)

  type Registry = map<string, Entry>

  const BatchKey := "batch_convert"

  /** A finished entry written as a whole: status, message and end time only, so it
      reports neither a duration nor any progress. */
  function Finished(status: Status, note: Note, at: int): (e: Entry)
    ensures e.status == status && e.note == note && e.endTime == Some(at)
    ensures forall now :: Duration(e, now).None?
    ensures Progress(e) == 0.0
  {
    Entry(status, note, None, Some(at), None, None)
  }

  // ---------------------------------------------------------------------------
  // get_status and get_batch_status

  /** The `duration` an entry reports: from its start to its end, or to `now` while
      it has no end; absent without a start time. */
  function Duration(e: Entry, now: int): (d: Option<int>)
    ensures d.Some? <==> e.startTime.Some?
  {
    match e.startTime
    case None => None
    case Some(start) => Some((if e.endTime.Some? then e.endTime.value else now) - start)
  }

  /** A finished entry reports the same duration whenever it is asked; a running one
      reports one that grows with the time of asking. */
  lemma DurationStableOnceFinished(e: Entry, now1: int, now2: int)
    requires e.startTime.Some?
    ensures e.endTime.Some? ==> Duration(e, now1) == Duration(e, now2)
    ensures e.endTime.None? && now1 <= now2 ==> Duration(e, now1).value <= Duration(e, now2).value
  {
  }

  datatype StatusReply = NoSuchJob | Report(entry: Entry, duration: Option<int>)

  /** `get_status`: 404 for an unknown key, otherwise the entry and its duration. */
  function GetStatus(reg: Registry, key: string, now: int): (r: StatusReply)
    ensures r.NoSuchJob? <==> key !in reg
    ensures r.Report? ==> r.entry == reg[key]
    ensures r.Report? ==> (r.duration.Some? <==> reg[key].startTime.Some?)
    ensures r.Report? && reg[key].startTime.Some? && reg[key].endTime.Some? ==>
      r.duration == Some(reg[key].endTime.value - reg[key].startTime.value)
    ensures r.Report? && reg[key].startTime.Some? && reg[key].endTime.None? ==>
      r.duration == Some(now - reg[key].startTime.value)
  {
    if key !in reg then NoSuchJob else Report(reg[key], Duration(reg[key], now))
  }

  /** `progress_percentage`: the share of the batch's files counted so far, 0 when the
      entry has no positive total. */
  function Progress(e: Entry): (p: real)
    ensures e.counters.None? || e.counters.value.total == 0 ==> p == 0.0
    ensures e.counters.Some? && e.counters.value.total > 0 ==>
      p * (e.counters.value.total as real) ==
      100.0 * ((e.counters.value.processed + e.counters.value.skipped + e.counters.value.errors) as real)
  {
    match e.counters
    case None => 0.0
    case Some(c) =>
      if c.total > 0 then ((c.processed + c.skipped + c.errors) as real) / (c.total as real) * 100.0
      else 0.0
  }

  /** The progress stays within 0..100 exactly while the counters do not count more
      files than the total. */
  lemma ProgressBounded(e: Entry)
    requires e.counters.Some? && e.counters.value.total > 0
    ensures var c := e.counters.value;
      0.0 <= Progress(e) && (Progress(e) <= 100.0 <==> c.processed + c.skipped + c.errors <= c.total)
  {
    var c := e.counters.value;
    var n := (c.processed + c.skipped + c.errors) as real;
    var t := c.total as real;
    assert Progress(e) * t == 100.0 * n;
    if Progress(e) <= 100.0 {
      assert Progress(e) * t <= 100.0 * t;
    } else {
      assert Progress(e) * t > 100.0 * t;
    }
  }

  /** Counters that account for every file give exactly 100 percent. */
  lemma ProgressComplete(e: Entry)
    requires e.counters.Some? && e.counters.value.total > 0
    requires e.counters.value.processed + e.counters.value.skipped + e.counters.value.errors == e.counters.value.total
    ensures Progress(e) == 100.0
  {
    var c := e.counters.value;
    var t := c.total as real;
    assert (c.processed + c.skipped + c.errors) as real == t;
    assert t / t == 1.0;
  }

  datatype BatchReply = NoBatch | BatchReport(entry: Entry, duration: Option<int>, progress: real)

  /** `get_batch_status`: 404 without a batch entry, otherwise the entry, its duration
      and its progress. */
  function GetBatchStatus(reg: Registry, now: int): (r: BatchReply)
    ensures r.NoBatch? <==> BatchKey !in reg
    ensures r.BatchReport? ==> r.entry == reg[BatchKey]
    ensures r.BatchReport? ==> (r.duration.Some? <==> reg[BatchKey].startTime.Some?)
    ensures r.BatchReport? && reg[BatchKey].startTime.Some? && reg[BatchKey].endTime.Some? ==>
      r.duration == Some(reg[BatchKey].endTime.value - reg[BatchKey].startTime.value)
    ensures r.BatchReport? && reg[BatchKey].startTime.Some? && reg[BatchKey].endTime.None? ==>
      r.duration == Some(now - reg[BatchKey].startTime.value)
    ensures r.BatchReport? ==> r.progress >= 0.0
    ensures r.BatchReport? && (reg[BatchKey].counters.None? || reg[BatchKey].counters.value.total == 0) ==>
      r.progress == 0.0
    ensures r.BatchReport? && reg[BatchKey].counters.Some? ==>
      var c := reg[BatchKey].counters.value;
      c.processed + c.skipped + c.errors <= c.total ==> r.progress <= 100.0
  {
    if BatchKey !in reg then NoBatch
    else
      var e := reg[BatchKey];
      assert Progress(e) >= 0.0 && (e.counters.Some? ==>
        var c := e.counters.value;
        c.processed + c.skipped + c.errors <= c.total ==> Progress(e) <= 100.0) by {
        if e.counters.Some? && e.counters.value.total > 0 {
          ProgressBounded(e);
        }
      }
      BatchReport(e, Duration(e, now), Progress(e))
  }

  // ---------------------------------------------------------------------------
  // get_all_status and get_queue_info

  function KeysWith(reg: Registry, s: Status): set<string> {
    set k | k in reg && reg[k].status == s
  }

  function CountOf(reg: Registry, s: Status): nat {
    |KeysWith(reg, s)|
  }

  /** Every key has exactly one status, so the four counts add up to the number of
      entries. */
  lemma CountsPartition(reg: Registry)
    ensures CountOf(reg, Processing) + CountOf(reg, Completed) + CountOf(reg, Skipped) + CountOf(reg, Error) == |reg|
  {
    var p, c, s, e := KeysWith(reg, Processing), KeysWith(reg, Completed), KeysWith(reg, Skipped), KeysWith(reg, Error);
    assert p * c == {};
    assert |p + c| == |p| + |c|;
    assert (p + c) * s == {};
    assert |p + c + s| == |p + c| + |s|;
    assert (p + c + s) * e == {};
    assert |p + c + s + e| == |p + c + s| + |e|;
    forall k | k in reg.Keys ensures k in p + c + s + e {
      match reg[k].status
      case Processing => assert k in p;
      case Completed => assert k in c;
      case Skipped => assert k in s;
      case Error => assert k in e;
    }
    assert p + c + s + e == reg.Keys;
  }

  lemma CountPositive(reg: Registry, s: Status, k: string)
    requires k in reg && reg[k].status == s
    ensures CountOf(reg, s) >= 1
  {
    assert k in KeysWith(reg, s);
  }

  /** The `status_counts` map: one key per status that occurs, with its count. */
  function StatusCounts(reg: Registry): (m: map<Status, nat>)
    ensures forall s :: s in m <==> exists k | k in reg :: reg[k].status == s
    ensures forall s | s in m :: m[s] == CountOf(reg, s) && m[s] >= 1
  {
    assert forall s: Status | (exists k | k in reg :: reg[k].status == s) :: CountOf(reg, s) >= 1 by {
      forall s: Status | exists k | k in reg :: reg[k].status == s ensures CountOf(reg, s) >= 1 {
        var k :| k in reg && reg[k].status == s;
        CountPositive(reg, s, k);
      }
    }
    map s: Status | (exists k | k in reg :: reg[k].status == s) :: CountOf(reg, s)
  }

  datatype AllStatus = AllStatus(totalFiles: nat, counts: map<Status, nat>, maxWorkers: nat, files: Registry)

  /** `get_all_status`: the counts add up to `total_files`. */
  function GetAllStatus(reg: Registry, maxWorkers: nat): (r: AllStatus)
    ensures r.totalFiles == |reg| && r.files == reg && r.maxWorkers == maxWorkers
    ensures r.counts == StatusCounts(reg)
    ensures (if Processing in r.counts then r.counts[Processing] else 0)
          + (if Completed in r.counts then r.counts[Completed] else 0)
          + (if Skipped in r.counts then r.counts[Skipped] else 0)
          + (if Error in r.counts then r.counts[Error] else 0) == r.totalFiles
  {
    CountsPartition(reg);
    var r := AllStatus(|reg|, StatusCounts(reg), maxWorkers, reg);
    forall s | s !in r.counts ensures CountOf(reg, s) == 0 {
      assert KeysWith(reg, s) == {};
    }
    r
  }

  datatype QueueInfo = QueueInfo(maxWorkers: nat, currentlyProcessing: nat, pending: int, availableSlots: int)

  /** `get_queue_info`: every entry not processing counts as pending, whatever its
      status, and the free slots are not clamped at zero. */
  function GetQueueInfo(reg: Registry, maxWorkers: nat): (q: QueueInfo)
    ensures q.currentlyProcessing + q.pending == |reg|
    ensures q.pending == CountOf(reg, Completed) + CountOf(reg, Skipped) + CountOf(reg, Error)
    ensures q.availableSlots == maxWorkers - q.currentlyProcessing
    ensures q.currentlyProcessing == |set k | k in reg && reg[k].status == Processing|
  {
    CountsPartition(reg);
    var processing := CountOf(reg, Processing);
    QueueInfo(maxWorkers, processing, |reg| - processing, maxWorkers - processing)
  }
}
