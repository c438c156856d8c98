/**
 * A disk that remembers every state a crash could have left, and why appending frames and taking
 * checkpoints keeps each of those states recoverable.
 */
module CrashSafety {
  import opened Core
  import opened Semantics
  import opened Frames
  import opened LogReader
  import opened Recovery

  // --- The disk --------------------------------------------------------------------------------------------------

  /** What a crash leaves, with the number of operations whose calls had returned by then. */
  datatype Crash = Crash(snapshot: Option<Snapshot>, log: Bytes, returned: nat)

  /** The data directory. Writing a temporary snapshot file does not show here; renaming it does, atomically. */
  class Disk {
    var snapshot: Option<Snapshot>
    var log: Bytes

    ghost var returned: nat
    ghost var crashes: iset<Crash>

    constructor (snapshot: Option<Snapshot>, log: Bytes)
      ensures this.snapshot == snapshot && this.log == log
    {
      this.snapshot, this.log := snapshot, log;
    }

    /** Forget the past: the current state is the only one a crash has had a chance to leave. */
    ghost method Watch()
      modifies this`returned, this`crashes
      ensures returned == 0 && crashes == iset{Crash(snapshot, log, 0)}
    {
      returned, crashes := 0, iset{Crash(snapshot, log, 0)};
    }

    /** Append, flush and sync: a crash in between leaves any byte prefix of what is being appended. */
    method Append(bytes: Bytes)
      modifies this`log, this`crashes
      ensures log == old(log) + bytes
      ensures crashes == old(crashes) + Prefixes(snapshot, old(log), bytes, returned)
      ensures forall i | 0 <= i <= |bytes| :: Crash(snapshot, old(log) + bytes[..i], returned) in crashes
    {
      log, crashes := log + bytes, crashes + Prefixes(snapshot, log, bytes, returned);
    }

    /** Rename the finished temporary snapshot over the old one. */
    method RenameSnapshot(s: Snapshot)
      modifies this`snapshot, this`crashes
      ensures snapshot == Some(s)
      ensures crashes == old(crashes) + iset{Crash(Some(s), log, returned)}
    {
      snapshot, crashes := Some(s), crashes + iset{Crash(Some(s), log, returned)};
    }

    method Truncate()
      modifies this`log, this`crashes
      ensures log == []
      ensures crashes == old(crashes) + iset{Crash(snapshot, [], returned)}
    {
      log, crashes := [], crashes + iset{Crash(snapshot, [], returned)};
    }

    /** The calls for `n` more operations have returned to the client. */
    ghost method Acknowledge(n: nat)
      modifies this`returned, this`crashes
      ensures returned == old(returned) + n
      ensures crashes == old(crashes) + iset{Crash(snapshot, log, returned)}
    {
      returned := returned + n;
      crashes := crashes + iset{Crash(snapshot, log, returned)};
    }
  }

  ghost function Prefixes(snapshot: Option<Snapshot>, log: Bytes, bytes: Bytes, returned: nat): iset<Crash> {
    iset i | 0 <= i <= |bytes| :: Crash(snapshot, log + bytes[..i], returned)
  }

  // --- Crash safety, on values --------------------------------------------------------------------------------------

  /** Every sequence number in the log is below `nextLsn`. */
  ghost predicate LsnsBelow(c: Codec, log: Bytes, nextLsn: nat) {
    forall i | 0 <= i < |Scan(c, log).entries| :: Scan(c, log).entries[i].lsn < nextLsn
  }

  /** Opening after the crash yields `start` followed by the first `k` operations. */
  ghost predicate OpensTo(c: Codec, start: Opened, ops: seq<WalOp>, crash: Crash, k: nat)
    requires k <= |ops|
  {
    && Recover(c, crash.snapshot, crash.log) == Some(Opened(LiveAll(start.collections, ops[..k]), start.nextLsn + k))
    && LsnsBelow(c, crash.log, start.nextLsn + k)
  }

  /** It yields a prefix of the attempted operations that contains all that had returned. */
  ghost predicate CrashSafe(c: Codec, start: Opened, ops: seq<WalOp>, crash: Crash) {
    exists k | crash.returned <= k <= |ops| :: OpensTo(c, start, ops, crash, k)
  }

  ghost predicate AllSafe(c: Codec, start: Opened, ops: seq<WalOp>, crashes: iset<Crash>) {
    forall crash | crash in crashes :: CrashSafe(c, start, ops, crash)
  }

  /** The log in memory's view: whole frames, numbers below the next, and opening now would lose nothing. */
  ghost predicate InSync(c: Codec, snapshot: Option<Snapshot>, log: Bytes, records: seq<Record>,
                         collections: Manager, nextLsn: nat) {
    && log == LogOf(c, records) && RecordsOk(c, records)
    && (forall i | 0 <= i < |records| :: records[i].entry.lsn < nextLsn)
    && Recover(c, snapshot, log) == Some(Opened(collections, nextLsn))
  }

  lemma SafeWithMore(c: Codec, start: Opened, ops: seq<WalOp>, more: seq<WalOp>, crashes: iset<Crash>)
    requires AllSafe(c, start, ops, crashes)
    ensures AllSafe(c, start, ops + more, crashes)
  {
    hide Recover, LsnsBelow;
    forall crash | crash in crashes ensures CrashSafe(c, start, ops + more, crash) {
      assert CrashSafe(c, start, ops, crash);
      var k :| crash.returned <= k <= |ops| && OpensTo(c, start, ops, crash, k);
      assert (ops + more)[..k] == ops[..k];
      assert OpensTo(c, start, ops + more, crash, k);
    }
  }

  /** Opening a log with part of an append yields the state after the first `k` of the appended operations. */
  lemma RecoversAppended(c: Codec, start: Opened, ops: seq<WalOp>, snapshot: Option<Snapshot>, records: seq<Record>,
                         more: seq<Record>, added: seq<WalOp>, n: nat)
    requires Dimensioned(start.collections) && RecordsOk(c, records)
    requires Recover(c, snapshot, LogOf(c, records))
         == Some(Opened(LiveAll(start.collections, ops), start.nextLsn + |ops|))
    requires RecordsOk(c, more) && Numbered(more, added, start.nextLsn + |ops|) && n <= |LogOf(c, more)|
    ensures var k := |ops| + Whole(c, more, n);
            && k <= |ops + added|
            && Recover(c, snapshot, LogOf(c, records) + LogOf(c, more)[..n])
            == Some(Opened(LiveAll(start.collections, (ops + added)[..k]), start.nextLsn + k))
  {
    hide Recover, LogOf, Scan, Whole, RecordsOk, LiveAll, ReplayAll, Dimensioned;
    var k := Whole(c, more, n);
    var s := Opened(LiveAll(start.collections, ops), start.nextLsn + |ops|);
    RecoverPrefix(c, snapshot, records, s, more, added, n);
    ReplayAllIsLiveAll(start.collections, ops);
    ReplayAllIsLiveAll(start.collections, ops + added[..k]);
    ReplayAllConcat(start.collections, ops, added[..k]);
    assert (ops + added)[..|ops| + k] == ops + added[..k];
  }

  lemma AppendedLsns(c: Codec, records: seq<Record>, more: seq<Record>, added: seq<WalOp>, nextLsn: nat, n: nat)
    requires RecordsOk(c, records) && RecordsOk(c, more) && Numbered(more, added, nextLsn) && n <= |LogOf(c, more)|
    requires forall i | 0 <= i < |records| :: records[i].entry.lsn < nextLsn
    ensures LsnsBelow(c, LogOf(c, records) + LogOf(c, more)[..n], nextLsn + Whole(c, more, n))
  {
    hide LogOf, Scan, Whole;
    ScanThrough(c, records, LogOf(c, more)[..n]);
    ScanPrefix(c, more, n);
  }

  lemma OpensAppended(c: Codec, start: Opened, ops: seq<WalOp>, snapshot: Option<Snapshot>, log: Bytes,
                      records: seq<Record>,
                      more: seq<Record>, added: seq<WalOp>, returned: nat, n: nat)
    requires Dimensioned(start.collections)
    requires InSync(c, snapshot, log, records, LiveAll(start.collections, ops), start.nextLsn + |ops|)
    requires RecordsOk(c, more) && Numbered(more, added, start.nextLsn + |ops|) && n <= |LogOf(c, more)|
    ensures |ops| + Whole(c, more, n) <= |ops + added|
    ensures OpensTo(c, start, ops + added, Crash(snapshot, log + LogOf(c, more)[..n], returned),
                    |ops| + Whole(c, more, n))
  {
    hide Recover, LogOf, Whole, RecordsOk, LsnsBelow, LiveAll, Numbered;
    RecoversAppended(c, start, ops, snapshot, records, more, added, n);
    AppendedLsns(c, records, more, added, start.nextLsn + |ops|, n);
  }

  /** Appending keeps every crash state safe, including those in the middle of the append. */
  lemma AppendIsSafe(c: Codec, start: Opened, ops: seq<WalOp>, snapshot: Option<Snapshot>, log: Bytes,
                     records: seq<Record>,
                     more: seq<Record>, added: seq<WalOp>, returned: nat, crashes: iset<Crash>)
    requires Dimensioned(start.collections) && returned <= |ops| && AllSafe(c, start, ops, crashes)
    requires InSync(c, snapshot, log, records, LiveAll(start.collections, ops), start.nextLsn + |ops|)
    requires RecordsOk(c, more) && Numbered(more, added, start.nextLsn + |ops|)
    ensures AllSafe(c, start, ops + added, crashes + Prefixes(snapshot, log, LogOf(c, more), returned))
    ensures InSync(c, snapshot, log + LogOf(c, more), records + more, LiveAll(start.collections, ops + added),
                   start.nextLsn + |ops + added|)
  {
    hide Recover, LogOf, OpensTo, LsnsBelow;
    SafeWithMore(c, start, ops, added, crashes);
    forall crash | crash in Prefixes(snapshot, log, LogOf(c, more), returned)
      ensures CrashSafe(c, start, ops + added, crash)
    {
      var n :| 0 <= n <= |LogOf(c, more)| && crash == Crash(snapshot, log + LogOf(c, more)[..n], returned);
      OpensAppended(c, start, ops, snapshot, log, records, more, added, returned, n);
    }
    AppendInSync(c, start, ops, snapshot, log, records, more, added);
  }

  lemma RecordsConcat(c: Codec, records: seq<Record>, more: seq<Record>, added: seq<WalOp>, nextLsn: nat)
    requires RecordsOk(c, records) && RecordsOk(c, more) && Numbered(more, added, nextLsn)
    requires forall i | 0 <= i < |records| :: records[i].entry.lsn < nextLsn
    ensures RecordsOk(c, records + more) && |more| == |added|
    ensures forall i | 0 <= i < |records + more| :: (records + more)[i].entry.lsn < nextLsn + |added|
  {
    hide RecordOk;
  }

  lemma AppendInSync(c: Codec, start: Opened, ops: seq<WalOp>, snapshot: Option<Snapshot>, log: Bytes,
                     records: seq<Record>,
                     more: seq<Record>, added: seq<WalOp>)
    requires Dimensioned(start.collections)
    requires InSync(c, snapshot, log, records, LiveAll(start.collections, ops), start.nextLsn + |ops|)
    requires RecordsOk(c, more) && Numbered(more, added, start.nextLsn + |ops|)
    ensures InSync(c, snapshot, log + LogOf(c, more), records + more, LiveAll(start.collections, ops + added),
                   start.nextLsn + |ops + added|)
  {
    hide Recover, LogOf, LsnsBelow, Whole, LiveAll, RecordsOk, Dimensioned, Numbered;
    OpensAppended(c, start, ops, snapshot, log, records, more, added, 0, |LogOf(c, more)|);
    WholeAll(c, more);
    LogConcat(c, records, more);
    RecordsConcat(c, records, more, added, start.nextLsn + |ops|);
    assert LogOf(c, more)[..|LogOf(c, more)|] == LogOf(c, more);
    assert (ops + added)[..|ops + added|] == ops + added;
  }

  /** With a snapshot of the present, what is left of the log does not matter. */
  lemma SnapshotIsSafe(c: Codec, start: Opened, ops: seq<WalOp>, records: seq<Record>, returned: nat)
    requires returned <= |ops| && start.nextLsn > 0 && RecordsOk(c, records)
    requires forall i | 0 <= i < |records| :: records[i].entry.lsn < start.nextLsn + |ops|
    ensures var now, next := LiveAll(start.collections, ops), start.nextLsn + |ops|;
            && CrashSafe(c, start, ops, Crash(Some(Snapshot(now, next - 1)), LogOf(c, records), returned))
            && Recover(c, Some(Snapshot(now, next - 1)), LogOf(c, records)) == Some(Opened(now, next))
  {
    hide Recover, LiveAll, Scan, LogOf, RecordsOk;
    var now, next := LiveAll(start.collections, ops), start.nextLsn + |ops|;
    RecoverSnapshot(c, now, next, records);
    ScanWhole(c, records);
    assert ops[..|ops|] == ops;
    assert OpensTo(c, start, ops, Crash(Some(Snapshot(now, next - 1)), LogOf(c, records), returned), |ops|);
  }

  /** Both states a checkpoint passes through open to everything logged so far. */
  lemma CheckpointIsSafe(c: Codec, start: Opened, ops: seq<WalOp>, snapshot: Option<Snapshot>, log: Bytes,
                         records: seq<Record>, returned: nat)
    requires returned <= |ops| && start.nextLsn > 0
    requires InSync(c, snapshot, log, records, LiveAll(start.collections, ops), start.nextLsn + |ops|)
    ensures var now, next := LiveAll(start.collections, ops), start.nextLsn + |ops|;
            var taken := Some(Snapshot(now, next - 1));
            && CrashSafe(c, start, ops, Crash(taken, log, returned))
            && CrashSafe(c, start, ops, Crash(taken, [], returned))
            && InSync(c, taken, [], [], now, next)
  {
    hide Recover, LiveAll, CrashSafe, LogOf, RecordOk;
    NoLog(c);
    SnapshotIsSafe(c, start, ops, records, returned);
    SnapshotIsSafe(c, start, ops, [], returned);
  }
}
