/**
 * The write-ahead log manager: opening a directory, logging before applying, batches and checkpoints.
 */
module Wal {
  import opened Core
  import opened Contents
  import opened Semantics
  import opened Collections
  import opened Managers
  import opened Frames
  import opened LogReader
  import opened Recovery
  import opened CrashSafety

  // --- Replaying the log on opening --------------------------------------------------------------------------------

  /** Entries that could not be applied, with their errors. */
  datatype RecoveryReport = RecoveryReport(replayed: nat, skipped: seq<(nat, Error)>)

  datatype Replayed = Replayed(nextLsn: nat, walEntries: nat, sinceCheckpoint: nat, report: RecoveryReport)

  /** How far replaying has got. */
  ghost predicate Replaying(before: Manager, now: Manager, entries: seq<WalEntry>, lsn: nat, r: Replayed) {
    && now == ReplayAll(before, OpsOf(Newer(entries, lsn)))
    && r.nextLsn == LastLsn(Newer(entries, lsn), lsn) + 1
    && r.walEntries == |entries| && r.sinceCheckpoint == |Newer(entries, lsn)|
    && r.report == ReportOf(before, Newer(entries, lsn))
  }

  /** Which entries replay without error, and the number and error of each that does not. */
  function ReportOf(mgr: Manager, entries: seq<WalEntry>): RecoveryReport {
    if entries == [] then RecoveryReport(0, [])
    else
      var front, last := entries[..|entries| - 1], entries[|entries| - 1];
      Noted(ReportOf(mgr, front), last.lsn, Replay(ReplayAll(mgr, OpsOf(front)), last.op).1)
  }

  function Noted(report: RecoveryReport, lsn: nat, outcome: Result<()>): RecoveryReport {
    if outcome.Ok? then report.(replayed := report.replayed + 1)
    else report.(skipped := report.skipped + [(lsn, outcome.error)])
  }

  /** Entry `i` failed with `error` when it was replayed after the ones before it. */
  ghost predicate FailedAt(mgr: Manager, entries: seq<WalEntry>, i: nat, error: Error) {
    i < |entries| && Replay(ReplayAll(mgr, OpsOf(entries[..i])), entries[i].op).1 == Err(error)
  }

  /** The report lists each failed entry once, in log order, by number and error, and counts the others. */
  lemma {:induction false} ReportIsComplete(mgr: Manager, entries: seq<WalEntry>) returns (failed: seq<nat>)
    ensures ReportOf(mgr, entries).replayed + |failed| == |entries| && |ReportOf(mgr, entries).skipped| == |failed|
    ensures forall i, j | 0 <= i < j < |failed| :: failed[i] < failed[j]
    ensures forall i | 0 <= i < |failed| :: failed[i] < |entries|
    ensures forall i | 0 <= i < |failed| ::
              var (lsn, error) := ReportOf(mgr, entries).skipped[i];
              lsn == entries[failed[i]].lsn && FailedAt(mgr, entries, failed[i], error)
    ensures forall i: nat, error | FailedAt(mgr, entries, i, error) :: i in failed
  {
    hide Replay, ReplayAll, OpsOf;
    failed := [];
    if entries != [] {
      var n: nat := |entries| - 1;
      var front := entries[..n];
      failed := ReportIsComplete(mgr, front);
      forall i: nat, error | i < n ensures FailedAt(mgr, entries, i, error) <==> FailedAt(mgr, front, i, error) {
        assert front[..i] == entries[..i];
      }
      var outcome := Replay(ReplayAll(mgr, OpsOf(front)), entries[n].op).1;
      if outcome.Err? {
        assert FailedAt(mgr, entries, n, outcome.error);
        failed := failed + [n];
      }
    }
  }

  lemma ReplayedSoFar(before: Manager, now: Manager, entries: seq<WalEntry>, lsn: nat, r: Replayed)
    requires Replaying(before, now, entries, lsn, r)
    ensures now == ReplayAll(before, OpsOf(Newer(entries, lsn)))
  {
  }

  lemma ReplayOlder(before: Manager, now: Manager, entries: seq<WalEntry>, lsn: nat, r: Replayed, e: WalEntry)
    requires Replaying(before, now, entries, lsn, r) && e.lsn <= lsn
    ensures Replaying(before, now, entries + [e], lsn, r.(walEntries := r.walEntries + 1))
  {
    assert (entries + [e])[..|entries|] == entries;
  }

  lemma ReplayNewer(before: Manager, now: Manager, entries: seq<WalEntry>, lsn: nat, r: Replayed, e: WalEntry)
    requires Replaying(before, now, entries, lsn, r) && e.lsn > lsn
    ensures Replaying(before, Replay(now, e.op).0, entries + [e], lsn,
              Replayed(e.lsn + 1, r.walEntries + 1, r.sinceCheckpoint + 1, Noted(r.report, e.lsn, Replay(now, e.op).1)))
  {
    hide Replay, Noted, ReplayAll, ReportOf, Newer, OpsOf;
    NewerPush(entries, lsn, e);
    ReportPush(before, Newer(entries, lsn), e);
  }

  lemma NewerPush(entries: seq<WalEntry>, lsn: nat, e: WalEntry)
    requires e.lsn > lsn
    ensures Newer(entries + [e], lsn) == Newer(entries, lsn) + [e]
  {
    assert (entries + [e])[..|entries|] == entries;
  }

  lemma ReportPush(mgr: Manager, entries: seq<WalEntry>, e: WalEntry)
    ensures ReportOf(mgr, entries + [e])
         == Noted(ReportOf(mgr, entries), e.lsn, Replay(ReplayAll(mgr, OpsOf(entries)), e.op).1)
    ensures ReplayAll(mgr, OpsOf(entries + [e])) == Replay(ReplayAll(mgr, OpsOf(entries)), e.op).0
  {
    hide Replay, Noted;
    assert (entries + [e])[..|entries|] == entries;
    assert OpsOf(entries + [e])[..|entries|] == OpsOf(entries);
  }

  /** One entry: skipped if the snapshot has it, otherwise applied, with a failure noted in the report. */
  method ReplayEntry(mgr: CollectionManager, entry: WalEntry, snapshotLsn: nat, done: Replayed, ghost before: Manager,
                     ghost seen: seq<WalEntry>)
    returns (r: Replayed)
    requires Replaying(before, mgr.collections, seen, snapshotLsn, done)
    modifies mgr
    ensures Replaying(before, mgr.collections, seen + [entry], snapshotLsn, r)
  {
    hide Replay, Replaying;
    if entry.lsn <= snapshotLsn {
      ReplayOlder(before, mgr.collections, seen, snapshotLsn, done, entry);
      return done.(walEntries := done.walEntries + 1);
    }
    ghost var now := mgr.collections;
    var step := mgr.ApplyOp(entry.op);
    ReplayNewer(before, now, seen, snapshotLsn, done, entry);
    var report := done.report;
    match step {
      case Ok(_) => report := report.(replayed := report.replayed + 1);
      case Err(error) => report := report.(skipped := report.skipped + [(entry.lsn, error)]);
    }
    return Replayed(entry.lsn + 1, done.walEntries + 1, done.sinceCheckpoint + 1, report);
  }

  /** `replay_wal`: entries that fail to apply are reported and skipped; structural errors are fatal. */
  method ReplayWal(c: Codec, log: Bytes, mgr: CollectionManager, snapshotLsn: nat) returns (r: Decoded<Replayed>)
    modifies mgr
    ensures mgr.collections == ReplayAll(old(mgr.collections), OpsOf(Newer(Scan(c, log).entries, snapshotLsn)))
    ensures if Scan(c, log).error.Some? then r == Bad(Scan(c, log).error.value)
            else r.Good? && Replaying(old(mgr.collections), mgr.collections, Scan(c, log).entries, snapshotLsn, r.value)
  {
    hide Scan, Replay, ReplayAll, OpsOf, Newer, SkipOld, Replaying;
    var reader := new WalReader(c, log, None);
    var done := Replayed(snapshotLsn + 1, 0, 0, RecoveryReport(0, []));
    ghost var seen: seq<WalEntry> := [];
    ReplayNothing(mgr.collections, snapshotLsn);
    assert [] + reader.Pending().entries == reader.Pending().entries;
    while true
      invariant fresh(reader) && fresh(reader.iter) && reader.codec == c && reader.afterLsn == None
      invariant seen + reader.Pending().entries == Scan(c, log).entries && reader.Pending().error == Scan(c, log).error
      invariant Replaying(old(mgr.collections), mgr.collections, seen, snapshotLsn, done)
      decreases |reader.Pending().entries|
    {
      ghost var due := reader.Pending();
      SkipNothing(due.entries);
      var item := reader.Next();
      match item {
        case None =>
          assert seen + [] == seen;
          ReplayedSoFar(old(mgr.collections), mgr.collections, seen, snapshotLsn, done);
          return Good(done);
        case Some(Bad(error)) =>
          assert seen + [] == seen;
          ReplayedSoFar(old(mgr.collections), mgr.collections, seen, snapshotLsn, done);
          return Bad(error);
        case Some(Good(entry)) =>
          assert seen + due.entries == (seen + [entry]) + due.entries[1..];
          done := ReplayEntry(mgr, entry, snapshotLsn, done, old(mgr.collections), seen);
          seen := seen + [entry];
      }
    }
  }

  lemma ReplayNothing(mgr: Manager, lsn: nat)
    ensures Replaying(mgr, mgr, [], lsn, Replayed(lsn + 1, 0, 0, RecoveryReport(0, [])))
  {
  }

  lemma SkipNothing(entries: seq<WalEntry>)
    ensures SkipOld(entries, None) == entries
  {
  }

  // --- Reading what a snapshot lacks -------------------------------------------------------------------------------

  /** Skipping leading old entries loses nothing above the baseline. */
  lemma {:induction false} NewerSkip(entries: seq<WalEntry>, lsn: nat)
    ensures Newer(SkipOld(entries, Some(lsn)), lsn) == Newer(entries, lsn)
  {
    if entries != [] && entries[0].lsn <= lsn {
      NewerSkip(entries[1..], lsn);
      NewerFirst(entries, lsn);
    }
  }

  lemma NewerFirst(entries: seq<WalEntry>, lsn: nat)
    requires entries != []
    ensures Newer(entries, lsn) == (if entries[0].lsn > lsn then [entries[0]] else []) + Newer(entries[1..], lsn)
  {
    NewerConcat([entries[0]], entries[1..], lsn);
    assert [entries[0]] + entries[1..] == entries;
    assert [entries[0]][..0] == [];
  }

  /** One item of a reader opened above a baseline, and what is then still above it. */
  lemma NewerStep(entries: seq<WalEntry>, lsn: nat)
    ensures var left := SkipOld(entries, Some(lsn));
            if left == [] then Newer(entries, lsn) == []
            else Newer(entries, lsn) == [left[0]] + Newer(left[1..], lsn) && |left| <= |entries|
  {
    var left := SkipOld(entries, Some(lsn));
    NewerSkip(entries, lsn);
    SkipsLeadingOld(entries, Some(lsn));
    if left != [] { NewerFirst(left, lsn); }
  }

  /** Run a reader to its end: it yields exactly the entries above its baseline, in order, or the log's error. */
  method Drain(c: Codec, log: Bytes, lsn: nat) returns (r: Decoded<seq<WalEntry>>)
    ensures r == if Scan(c, log).error.Some? then Bad(Scan(c, log).error.value)
                 else Good(Newer(Scan(c, log).entries, lsn))
  {
    hide Scan, Newer, SkipOld;
    var reader := new WalReader(c, log, Some(lsn));
    var seen: seq<WalEntry> := [];
    while true
      invariant fresh(reader) && fresh(reader.iter) && reader.codec == c && reader.afterLsn == Some(lsn)
      invariant seen + Newer(reader.Pending().entries, lsn) == Newer(Scan(c, log).entries, lsn)
      invariant reader.Pending().error == Scan(c, log).error
      decreases |reader.Pending().entries|
    {
      NewerStep(reader.Pending().entries, lsn);
      var item := reader.Next();
      match item {
        case None =>
          assert seen + [] == seen;
          return Good(seen);
        case Some(Bad(error)) => return Bad(error);
        case Some(Good(entry)) => seen := seen + [entry];
      }
    }
  }

  // --- The manager ---------------------------------------------------------------------------------------------------

  /** Thresholds of zero disable a trigger. */
  datatype WalConfig = WalConfig(checkpointEveryEntries: nat, checkpointEveryBytes: nat, compression: Compression)

  /** The frame a client's operation is logged in. */
  function RecordFor(c: Codec, compression: Compression, lsn: nat, op: WalOp): Record {
    var e := WalEntry(CURRENT_WAL_VERSION, lsn, op);
    Record(e, EncodePayload(c, compression, c.serialize(e)))
  }

  /** What an operation costs in the log: the header, a flag, and the smaller of its two forms. */
  lemma RecordCost(c: Codec, compression: Compression, lsn: nat, op: WalOp)
    ensures var plain := c.serialize(WalEntry(2, lsn, op));
            |Frame(c, RecordFor(c, compression, lsn, op).payload)|
            == 13 + match compression
                    case NoCompression => |plain|
                    case Zstd(level) => Min(|c.compress(plain, level)|, |plain|)
  {
    EncodedSize(c, compression, c.serialize(WalEntry(CURRENT_WAL_VERSION, lsn, op)));
  }

  function RecordsFor(c: Codec, compression: Compression, lsn: nat, ops: seq<WalOp>): (r: seq<Record>)
    ensures |r| == |ops|
    ensures forall i | 0 <= i < |r| :: r[i] == RecordFor(c, compression, lsn + i, ops[i])
  {
    if ops == [] then []
    else
      var n := |ops| - 1;
      RecordsFor(c, compression, lsn, ops[..n]) + [RecordFor(c, compression, lsn + n, ops[n])]
  }

  /** Encodable, with payloads the frame's length field can hold. */
  ghost predicate Loggable(c: Codec, compression: Compression, lsn: nat, ops: seq<WalOp>) {
    forall i | 0 <= i < |ops| ::
      var e := WalEntry(CURRENT_WAL_VERSION, lsn + i, ops[i]);
      c.encodable(e) && |EncodePayload(c, compression, c.serialize(e))| < U32_RANGE
  }

  /** What is logged reads back, numbered from `lsn`. */
  lemma LoggedRecords(c: Codec, compression: Compression, lsn: nat, ops: seq<WalOp>)
    requires c.Lawful() && Loggable(c, compression, lsn, ops)
    ensures RecordsOk(c, RecordsFor(c, compression, lsn, ops))
    ensures Numbered(RecordsFor(c, compression, lsn, ops), ops, lsn)
  {
    var records := RecordsFor(c, compression, lsn, ops);
    forall i | 0 <= i < |records| ensures RecordOk(c, records[i]) {
      FlaggedRoundTrip(c, compression, WalEntry(CURRENT_WAL_VERSION, lsn + i, ops[i]));
    }
  }

  /** A directory a clean shutdown or an earlier crash at a frame boundary leaves: whole frames, rising numbers. */
  ghost predicate WellFormed(c: Codec, snapshot: Option<Snapshot>, log: Bytes, records: seq<Record>) {
    && Dimensioned(BaseOf(snapshot).collections)
    && log == LogOf(c, records) && RecordsOk(c, records)
    && forall i, j | 0 <= i < j < |records| :: records[i].entry.lsn < records[j].entry.lsn
  }

  /** Either enabled threshold is reached. */
  predicate CheckpointDue(config: WalConfig, walEntries: nat, bytesWritten: nat) {
    || (config.checkpointEveryEntries > 0 && walEntries >= config.checkpointEveryEntries)
    || (config.checkpointEveryBytes > 0 && bytesWritten >= config.checkpointEveryBytes)
  }

  class WalManager {
    const codec: Codec
    const config: WalConfig
    const disk: Disk
    const inner: CollectionManager
    var nextLsn: nat
    var walEntries: nat
    var bytesWritten: nat
    var entriesWritten: nat
    var entriesSinceCheckpoint: nat
    var snapshotLsn: nat
    var durableLsn: nat

    /** What opening recovered, the operations attempted since, and the frames in the log. */
    ghost var start: Opened
    ghost var history: seq<WalOp>
    ghost var records: seq<Record>

    /** With `collections` in memory, nothing logged is lost and every state a crash could have left is safe. */
    ghost predicate Logged(collections: Manager)
      reads this, disk
    {
      && codec.Lawful() && Dimensioned(start.collections) && start.nextLsn > 0
      && collections == LiveAll(start.collections, history) && nextLsn == start.nextLsn + |history|
      && disk.returned <= |history| && durableLsn == BaseOf(disk.snapshot).lastLsn
      && InSync(codec, disk.snapshot, disk.log, records, collections, nextLsn)
      && AllSafe(codec, start, history, disk.crashes)
    }

    ghost predicate Durable()
      reads this, disk, inner
    {
      Logged(inner.collections)
    }

    constructor (codec: Codec, config: WalConfig, disk: Disk, inner: CollectionManager, snapshotLsn: nat,
                 replayed: Replayed,
                 ghost start: Opened, ghost records: seq<Record>)
      ensures this.codec == codec && this.config == config && this.disk == disk && this.inner == inner
      ensures nextLsn == replayed.nextLsn && walEntries == replayed.walEntries
      ensures entriesSinceCheckpoint == replayed.sinceCheckpoint && entriesWritten == 0 && bytesWritten == |disk.log|
      ensures this.snapshotLsn == durableLsn == snapshotLsn
      ensures this.start == start && history == [] && this.records == records
    {
      this.codec, this.config, this.disk, this.inner := codec, config, disk, inner;
      nextLsn, walEntries, bytesWritten := replayed.nextLsn, replayed.walEntries, |disk.log|;
      entriesWritten, entriesSinceCheckpoint := 0, replayed.sinceCheckpoint;
      this.snapshotLsn, durableLsn := snapshotLsn, snapshotLsn;
      this.start, history, this.records := start, [], records;
    }

    /**
     * Open a directory: the snapshot, then the newer log entries. A structurally corrupt log is an error.
     * On whole frames with rising numbers everything from here on is crash safe.
     */
    static method Open(disk: Disk, codec: Codec, config: WalConfig) returns (r: Decoded<WalManager>,
                       report: RecoveryReport)
      modifies disk`returned, disk`crashes
      ensures match Recover(codec, disk.snapshot, disk.log)
              case None => r.Bad?
              case Some(found) =>
                && r.Good? && fresh(r.value) && fresh(r.value.inner) && r.value.disk == disk
                && r.value.codec == codec && r.value.config == config
                && r.value.inner.collections == found.collections && r.value.nextLsn == found.nextLsn
                && r.value.start == found && r.value.history == [] && disk.returned == 0
                && (var base, entries := BaseOf(disk.snapshot), Scan(codec, disk.log).entries;
                    var newer := Newer(entries, base.lastLsn);
                    && report == ReportOf(base.collections, newer)
                    && r.value.walEntries == |entries| && r.value.entriesSinceCheckpoint == |newer|
                    && r.value.snapshotLsn == r.value.durableLsn == base.lastLsn
                    && r.value.entriesWritten == 0 && r.value.bytesWritten == |disk.log|)
      ensures Scan(codec, disk.log).error.Some? ==> r == Bad(Scan(codec, disk.log).error.value)
      ensures r.Good? && Dimensioned(BaseOf(disk.snapshot).collections) ==>
                Dimensioned(r.value.inner.collections) && r.value.nextLsn > 0
      ensures r.Good? && codec.Lawful() && (exists records :: WellFormed(codec, disk.snapshot, disk.log, records)) ==>
                r.value.Durable()
    {
      hide Scan, Newer, OpsOf, ReplayAll, WellFormed, InSync, LastLsn;
      var base := BaseOf(disk.snapshot);
      var inner := new CollectionManager(base.collections);
      var replayed := ReplayWal(codec, disk.log, inner, base.lastLsn);
      report := RecoveryReport(0, []);
      if replayed.Bad? {
        return Bad(replayed.error), report;
      }
      report := replayed.value.report;
      if Dimensioned(base.collections) {
        ReplayAllIsLiveAll(base.collections, OpsOf(Newer(Scan(codec, disk.log).entries, base.lastLsn)));
      }
      ghost var found := Opened(inner.collections, replayed.value.nextLsn);
      ghost var records: seq<Record> := [];
      if rs :| WellFormed(codec, disk.snapshot, disk.log, rs) {
        records := rs;
      }
      disk.Watch();
      var wal := new WalManager(codec, config, disk, inner, base.lastLsn, replayed.value, found, records);
      if codec.Lawful() && WellFormed(codec, disk.snapshot, disk.log, records) {
        OpenedInSync(codec, disk.snapshot, disk.log, records, found);
      }
      r := Good(wal);
    }

    /** `append_batch`: all frames, one flush and sync. The log now holds the operations under the next numbers. */
    method Append(ops: seq<WalOp>)
      modifies this`nextLsn, this`bytesWritten, this`history, this`records, disk
      ensures nextLsn == old(nextLsn) + |ops| && history == old(history) + ops && disk.returned == old(disk.returned)
      ensures disk.snapshot == old(disk.snapshot)
      ensures disk.log == old(disk.log) + LogOf(codec, RecordsFor(codec, config.compression, old(nextLsn), ops))
      ensures bytesWritten == old(bytesWritten) + |disk.log| - |old(disk.log)|
      ensures && Loggable(codec, config.compression, old(nextLsn), ops)
              && old(Logged(LiveAll(start.collections, history))) ==>
                Logged(LiveAll(start.collections, history))
    {
      hide Loggable, AllSafe, InSync, Codec.Lawful, LiveAll, LogOf, Dimensioned, Prefixes, RecordsFor, RecordsOk,
        Numbered;
      var frames := RecordsFor(codec, config.compression, nextLsn, ops);
      var bytes := FrameAll(codec, frames);
      if Loggable(codec, config.compression, nextLsn, ops) && Logged(LiveAll(start.collections, history)) {
        LoggedRecords(codec, config.compression, nextLsn, ops);
        AppendIsSafe(codec, start, history, disk.snapshot, disk.log, records, frames, ops, disk.returned, disk.crashes);
      }
      disk.Append(bytes);
      bytesWritten, nextLsn := bytesWritten + |bytes|, nextLsn + |ops|;
      history, records := history + ops, records + frames;
    }

    /**
     * `log_and_apply`: append, then apply, then checkpoint if one is due. An operation that fails to apply
     * stays in the log and triggers no checkpoint.
     */
    method LogAndApply(op: WalOp) returns (r: Result<()>)
      modifies this, disk, inner
      ensures (inner.collections, r) == Live(old(inner.collections), op)
      ensures nextLsn == old(nextLsn) + 1 && history == old(history) + [op] && start == old(start)
      ensures disk.returned == old(disk.returned) + 1 && entriesWritten == old(entriesWritten) + 1
      ensures var logged := LogOf(codec, RecordsFor(codec, config.compression, old(nextLsn), [op]));
              if r.Ok? && CheckpointDue(config, old(walEntries) + 1, old(bytesWritten) + |logged|) then
                && disk.log == [] && disk.snapshot == Some(Snapshot(inner.collections, old(nextLsn)))
                && walEntries == entriesSinceCheckpoint == bytesWritten == 0
                && snapshotLsn == durableLsn == old(nextLsn)
              else
                && disk.log == old(disk.log) + logged && disk.snapshot == old(disk.snapshot)
                && walEntries == old(walEntries) + 1 && entriesSinceCheckpoint == old(entriesSinceCheckpoint) + 1
                && bytesWritten == old(bytesWritten) + |logged|
                && snapshotLsn == old(snapshotLsn) && durableLsn == old(durableLsn)
      ensures r.Ok? ==> && (config.checkpointEveryEntries > 0 ==> walEntries < config.checkpointEveryEntries)
                        && (config.checkpointEveryBytes > 0 ==> bytesWritten < config.checkpointEveryBytes)
      ensures && (config.checkpointEveryEntries == 0 || old(walEntries) + 1 < config.checkpointEveryEntries)
              && (config.checkpointEveryBytes == 0 || old(bytesWritten)
                  + |LogOf(codec, RecordsFor(codec, config.compression, old(nextLsn), [op]))|
                  < config.checkpointEveryBytes)
              ==> disk.snapshot == old(disk.snapshot)
      ensures old(Durable()) && Loggable(codec, config.compression, old(nextLsn), [op]) ==> Durable()
    {
      hide Loggable, AllSafe, InSync, Codec.Lawful, Live, LiveAll, LogOf, Dimensioned, RecordsFor, Recover,
        CanRun, Took, OthersSame;
      Append([op]);
      walEntries, entriesWritten := walEntries + 1, entriesWritten + 1;
      entriesSinceCheckpoint := entriesSinceCheckpoint + 1;
      r := inner.Perform(op);
      LivePush(start.collections, old(history), op);
      if r.Ok? {
        MaybeCheckpoint();
      }
      Return(1);
    }

    /** The calls for the last `n` operations return. */
    ghost method Return(n: nat)
      modifies disk`returned, disk`crashes
      ensures disk.returned == old(disk.returned) + n
      ensures old(Durable()) && old(disk.returned) + n <= |history| ==> Durable()
    {
      hide InSync, Codec.Lawful, LiveAll, Dimensioned, CrashSafe;
      if Durable() && disk.returned + n <= |history| {
        PresentIsSafe(codec, start, history, disk.snapshot, disk.log, records, disk.returned + n);
      }
      disk.Acknowledge(n);
    }

    method MaybeCheckpoint()
      modifies this`walEntries, this`bytesWritten, this`entriesSinceCheckpoint, this`snapshotLsn, this`durableLsn,
        this`records, disk
      ensures disk.returned == old(disk.returned)
      ensures if CheckpointDue(config, old(walEntries), old(bytesWritten)) then
                && disk.log == []
                && disk.snapshot == Some(Snapshot(inner.collections, if nextLsn > 0 then nextLsn - 1 else 0))
                && walEntries == entriesSinceCheckpoint == bytesWritten == 0
                && snapshotLsn == durableLsn == disk.snapshot.value.lastLsn
              else unchanged(this) && unchanged(disk)
      ensures old(Durable()) ==> Durable()
    {
      hide AllSafe, InSync, Codec.Lawful, LiveAll, LogOf, Dimensioned, Recover;
      if CheckpointDue(config, walEntries, bytesWritten) {
        Checkpoint();
      }
    }

    /**
     * Snapshot to a temporary file, rename it into place, truncate the log. Afterwards opening yields
     * exactly the present state, whatever the log held before, a torn tail included.
     */
    method Checkpoint()
      modifies this`walEntries, this`bytesWritten, this`entriesSinceCheckpoint, this`snapshotLsn, this`durableLsn,
        this`records, disk
      ensures disk.log == [] && disk.returned == old(disk.returned)
      ensures disk.snapshot == Some(Snapshot(inner.collections, if nextLsn > 0 then nextLsn - 1 else 0))
      ensures nextLsn > 0 ==> Recover(codec, disk.snapshot, disk.log) == Some(Opened(inner.collections, nextLsn))
      ensures snapshotLsn == durableLsn == disk.snapshot.value.lastLsn
      ensures walEntries == entriesSinceCheckpoint == bytesWritten == 0
      ensures old(Durable()) ==> Durable()
    {
      hide InSync, Codec.Lawful, LiveAll, LogOf, Dimensioned, Recover, CrashSafe;
      var lastLsn := if nextLsn > 0 then nextLsn - 1 else 0;
      if nextLsn > 0 {
        EmptyLogRecovers(codec, inner.collections, nextLsn);
      }
      if Durable() {
        CheckpointIsSafe(codec, start, history, disk.snapshot, disk.log, records, disk.returned);
      }
      disk.RenameSnapshot(Snapshot(inner.collections, lastLsn));
      durableLsn, snapshotLsn, entriesSinceCheckpoint := lastLsn, lastLsn, 0;
      disk.Truncate();
      bytesWritten, walEntries, records := 0, 0, [];
    }

    /** After a checkpoint crash safety can be counted from the present, whatever the log held before. */
    ghost method Restart()
      requires codec.Lawful() && Dimensioned(inner.collections) && nextLsn > 0
      requires disk.log == [] && disk.snapshot == Some(Snapshot(inner.collections, nextLsn - 1))
      requires durableLsn == nextLsn - 1
      modifies this`start, this`history, this`records, disk`returned, disk`crashes
      ensures Durable() && start == Opened(inner.collections, nextLsn) && history == [] && disk.returned == 0
    {
      hide Scan, LiveAll, Dimensioned, Recover, Codec.Lawful;
      start, history, records := Opened(inner.collections, nextLsn), [], [];
      disk.Watch();
      FromHere(codec, inner.collections, nextLsn);
    }

    /**
     * `pending_entries`, read to the end: the log's entries above the durable baseline. Replayed on the
     * snapshot they give the present state.
     */
    method PendingEntries() returns (r: Decoded<seq<WalEntry>>)
      ensures r == if Scan(codec, disk.log).error.Some? then Bad(Scan(codec, disk.log).error.value)
                   else Good(Newer(Scan(codec, disk.log).entries, durableLsn))
      ensures Durable() ==> r.Good? && ReplayAll(BaseOf(disk.snapshot).collections, OpsOf(r.value)) == inner.collections
    {
      hide AllSafe, Codec.Lawful, LiveAll, LogOf, Dimensioned, Scan, ReplayAll, OpsOf, Newer;
      r := Drain(codec, disk.log, durableLsn);
      if Durable() {
        ScanWhole(codec, records);
      }
    }

    /**
     * Log and apply a batch with one flush. It is checked before anything is logged; each row gets its own
     * number, and the result is that of inserting row by row. The statistics counters are not touched.
     */
    method InsertBatch(name: string, rows: seq<FullRow>) returns (r: Result<nat>)
      modifies this`nextLsn, this`bytesWritten, this`history, this`records, disk, inner
      ensures var mgr := old(inner.collections);
              r == if name !in mgr then Err(CollectionNotFound(name))
                   else if FirstMismatch(IndexRows(rows), mgr[name].dim).Some? then
                     Err(DimMismatch(mgr[name].dim, |rows[FirstMismatch(IndexRows(rows), mgr[name].dim).value].1|))
                   else if rows != [] && old(nextLsn) + |rows| > U64_MAX then Err(InvalidArgument)
                   else Ok(|rows|)
      ensures r.Err? ==> && inner.collections == old(inner.collections)
                         && nextLsn == old(nextLsn) && history == old(history)
                         && disk.log == old(disk.log) && disk.crashes == old(disk.crashes)
      ensures r.Ok? ==> && inner.collections == LiveAll(old(inner.collections), InsertOps(name, rows))
                        && history == old(history) + InsertOps(name, rows) && nextLsn == old(nextLsn) + |rows|
                        && disk.returned == old(disk.returned) + |rows| && disk.snapshot == old(disk.snapshot)
                        && disk.log == old(disk.log)
                           + LogOf(codec, RecordsFor(codec, config.compression, old(nextLsn), InsertOps(name, rows)))
      ensures old(Durable()) && (r.Ok? ==> Loggable(codec, config.compression, old(nextLsn), InsertOps(name, rows)))
              ==> Durable()
    {
      hide Loggable, AllSafe, InSync, Codec.Lawful, LiveAll, LogOf, Dimensioned, RecordsFor, IndexRows, InsertOps;
      if name !in inner.collections {
        return Err(CollectionNotFound(name));
      }
      var dim := inner.collections[name].dim;
      if rows == [] {
        EmptyBatch(inner.collections, name, dim);
        NothingLogged(codec, config.compression, nextLsn, disk.log);
        return Ok(0);
      }
      var bad := FirstMismatch(IndexRows(rows), dim);
      if bad.Some? {
        return Err(DimMismatch(dim, |rows[bad.value].1|));
      }
      if nextLsn + |rows| > U64_MAX {
        return Err(InvalidArgument);
      }
      Append(InsertOps(name, rows));
      inner.InsertBatch(name, rows);
      LiveAllConcat(start.collections, old(history), InsertOps(name, rows));
      Return(|rows|);
      return Ok(|rows|);
    }
  }

  /** All frames of a batch, in order. */
  method FrameAll(c: Codec, records: seq<Record>) returns (bytes: Bytes)
    ensures bytes == LogOf(c, records)
  {
    hide Frame;
    bytes := [];
    for i := 0 to |records|
      invariant bytes == LogOf(c, records[..i])
    {
      LogConcat(c, records[..i], [records[i]]);
      assert records[..i] + [records[i]] == records[..i + 1];
      OneFrame(c, records[i]);
      bytes := bytes + Frame(c, records[i].payload);
    }
    assert records[..|records|] == records;
  }

  lemma OneFrame(c: Codec, r: Record)
    ensures LogOf(c, [r]) == Frame(c, r.payload)
  {
    assert [r][1..] == [];
    assert Frame(c, r.payload) + [] == Frame(c, r.payload);
  }

  lemma {:induction false} LiveAllConcat(mgr: Manager, a: seq<WalOp>, b: seq<WalOp>)
    ensures LiveAll(mgr, a + b) == LiveAll(LiveAll(mgr, a), b)
  {
    hide Live;
    if b == [] {
      assert a + b == a;
    } else {
      LiveAllConcat(mgr, a, b[..|b| - 1]);
      assert (a + b)[..|a + b| - 1] == a + b[..|b| - 1];
    }
  }

  lemma EmptyBatch(mgr: Manager, name: string, dim: nat)
    ensures FirstMismatch(IndexRows([]), dim).None? && InsertOps(name, []) == [] && LiveAll(mgr, []) == mgr
  {
  }

  lemma NothingLogged(c: Codec, compression: Compression, lsn: nat, log: Bytes)
    ensures log + LogOf(c, RecordsFor(c, compression, lsn, [])) == log
  {
  }

  /** A snapshot of the present and an empty log are in step with the present and safe to crash in. */
  lemma FromHere(c: Codec, collections: Manager, nextLsn: nat)
    requires nextLsn > 0
    ensures var taken := Some(Snapshot(collections, nextLsn - 1));
            var start := Opened(collections, nextLsn);
            && LiveAll(collections, []) == collections && InSync(c, taken, [], [], collections, nextLsn)
            && CrashSafe(c, start, [], Crash(taken, [], 0))
  {
    hide Scan, Recover, CrashSafe;
    NoLog(c);
    EmptyLogRecovers(c, collections, nextLsn);
    PresentIsSafe(c, Opened(collections, nextLsn), [], Some(Snapshot(collections, nextLsn - 1)), [], [], 0);
  }

  /** A checkpoint repairs a log with a torn tail: crash safety holds again from there. */
  method CheckpointRepairs(wal: WalManager)
    requires wal.codec.Lawful() && Dimensioned(wal.inner.collections) && wal.nextLsn > 0
    modifies wal, wal.disk
    ensures wal.Durable() && wal.history == [] && wal.start == Opened(wal.inner.collections, wal.nextLsn)
    ensures wal.nextLsn == old(wal.nextLsn) && wal.inner.collections == old(wal.inner.collections)
  {
    hide Scan, Recover, LiveAll, Dimensioned, Codec.Lawful, WalManager.Durable;
    wal.Checkpoint();
    wal.Restart();
  }

  lemma SafeOne(c: Codec, start: Opened, ops: seq<WalOp>, crashes: iset<Crash>, crash: Crash)
    requires AllSafe(c, start, ops, crashes) && crash in crashes
    ensures CrashSafe(c, start, ops, crash)
  {
  }

  /**
   * One open after a crash: from any state a crash could have left, opening succeeds and recovers a prefix
   * of the attempted operations that contains every one whose call had returned, with a next sequence
   * number above every one in the surviving log.
   */
  method ReopenAfterCrash(wal: WalManager, crash: Crash)
    returns (ok: bool, collections: Manager, nextLsn: nat, ghost k: nat)
    requires wal.Durable() && crash in wal.disk.crashes
    ensures ok && crash.returned <= k <= |wal.history|
    ensures collections == LiveAll(wal.start.collections, wal.history[..k])
    ensures nextLsn == wal.start.nextLsn + k && LsnsBelow(wal.codec, crash.log, nextLsn)
  {
    hide InSync, Codec.Lawful, LiveAll, Dimensioned, Recover, LsnsBelow, WellFormed, Scan, Newer, ReportOf, AllSafe;
    SafeOne(wal.codec, wal.start, wal.history, wal.disk.crashes, crash);
    k :| crash.returned <= k <= |wal.history| && OpensTo(wal.codec, wal.start, wal.history, crash, k);
    var disk := new Disk(crash.snapshot, crash.log);
    var r, report := WalManager.Open(disk, wal.codec, wal.config);
    ok, collections, nextLsn := r.Good?, map[], 0;
    if r.Good? {
      collections, nextLsn := r.value.inner.collections, r.value.nextLsn;
    }
  }

  lemma EmptyLogRecovers(c: Codec, collections: Manager, nextLsn: nat)
    requires nextLsn > 0
    ensures Recover(c, Some(Snapshot(collections, nextLsn - 1)), []) == Some(Opened(collections, nextLsn))
  {
    hide Scan;
    NoLog(c);
    RecoverSnapshot(c, collections, nextLsn, []);
  }

  /** The state in step with the log is itself safe to crash in. */
  lemma PresentIsSafe(c: Codec, start: Opened, ops: seq<WalOp>, snapshot: Option<Snapshot>, log: Bytes,
                      records: seq<Record>, returned: nat)
    requires returned <= |ops|
    requires InSync(c, snapshot, log, records, LiveAll(start.collections, ops), start.nextLsn + |ops|)
    ensures CrashSafe(c, start, ops, Crash(snapshot, log, returned))
  {
    hide Recover, LiveAll, Scan, LogOf, RecordsOk;
    ScanWhole(c, records);
    assert ops[..|ops|] == ops;
    assert OpensTo(c, start, ops, Crash(snapshot, log, returned), |ops|);
  }

  /** Opening a well-formed directory leaves memory in step with the log. */
  lemma OpenedInSync(c: Codec, snapshot: Option<Snapshot>, log: Bytes, records: seq<Record>, found: Opened)
    requires WellFormed(c, snapshot, log, records) && Recover(c, snapshot, log) == Some(found)
    ensures InSync(c, snapshot, log, records, found.collections, found.nextLsn)
    ensures Dimensioned(found.collections) && CrashSafe(c, found, [], Crash(snapshot, log, 0))
  {
    hide Scan, LogOf, RecordsOk, ReplayAll, OpsOf, Newer, Dimensioned;
    ScanWhole(c, records);
    var base, entries := BaseOf(snapshot), EntriesOf(records);
    ReplayAllIsLiveAll(base.collections, OpsOf(Newer(entries, base.lastLsn)));
    NewestIsLast(entries, base.lastLsn);
    PresentIsSafe(c, found, [], snapshot, log, records, 0);
  }

  /** With rising numbers, the last entry above the baseline has the highest number of all. */
  lemma NewestIsLast(entries: seq<WalEntry>, lsn: nat)
    requires forall i, j | 0 <= i < j < |entries| :: entries[i].lsn < entries[j].lsn
    ensures forall i | 0 <= i < |entries| :: entries[i].lsn <= LastLsn(Newer(entries, lsn), lsn)
  {
    if entries != [] {
      var front, last := entries[..|entries| - 1], entries[|entries| - 1];
      if last.lsn <= lsn { NewerNone(entries, lsn); }
    }
  }
}
