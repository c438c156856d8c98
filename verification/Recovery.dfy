/**
 * What opening a directory recovers, on values: a snapshot and the log entries newer than it. The
 * lemmas say what appending, checkpointing and a crash at any byte do to that.
 */
module Recovery {
  import opened Core
  import opened Semantics
  import opened Frames
  import opened LogReader

  datatype Snapshot = Snapshot(collections: Manager, lastLsn: nat)

  function BaseOf(snapshot: Option<Snapshot>): Snapshot {
    if snapshot.None? then Snapshot(map[], 0) else snapshot.value
  }

  /** The entries above a baseline, in log order. */
  function Newer(entries: seq<WalEntry>, lsn: nat): seq<WalEntry> {
    if entries == [] then []
    else
      var front, last := Newer(entries[..|entries| - 1], lsn), entries[|entries| - 1];
      if last.lsn > lsn then front + [last] else front
  }

  function OpsOf(entries: seq<WalEntry>): (ops: seq<WalOp>)
    ensures |ops| == |entries|
  {
    if entries == [] then [] else OpsOf(entries[..|entries| - 1]) + [entries[|entries| - 1].op]
  }

  function LastLsn(entries: seq<WalEntry>, baseline: nat): nat {
    if entries == [] then baseline else entries[|entries| - 1].lsn
  }

  /** The state and the next sequence number after opening. */
  datatype Opened = Opened(collections: Manager, nextLsn: nat)

  /** What opening a directory yields; nothing if the log is structurally corrupt. */
  function Recover(c: Codec, snapshot: Option<Snapshot>, log: Bytes): Option<Opened> {
    var base, due := BaseOf(snapshot), Scan(c, log);
    if due.error.Some? then None
    else
      var newer := Newer(due.entries, base.lastLsn);
      Some(Opened(ReplayAll(base.collections, OpsOf(newer)), LastLsn(newer, base.lastLsn) + 1))
  }

  lemma {:induction false} NewerConcat(a: seq<WalEntry>, b: seq<WalEntry>, lsn: nat)
    ensures Newer(a + b, lsn) == Newer(a, lsn) + Newer(b, lsn)
  {
    if b == [] {
      assert a + b == a;
    } else {
      NewerConcat(a, b[..|b| - 1], lsn);
      assert (a + b)[..|a + b| - 1] == a + b[..|b| - 1];
    }
  }

  lemma {:induction false} OpsConcat(a: seq<WalEntry>, b: seq<WalEntry>)
    ensures OpsOf(a + b) == OpsOf(a) + OpsOf(b)
  {
    if b == [] {
      assert a + b == a;
    } else {
      OpsConcat(a, b[..|b| - 1]);
      assert (a + b)[..|a + b| - 1] == a + b[..|b| - 1];
    }
  }

  /** Gating keeps everything above the baseline and nothing at or below it. */
  lemma {:induction false} NewerAll(entries: seq<WalEntry>, lsn: nat)
    requires forall i | 0 <= i < |entries| :: entries[i].lsn > lsn
    ensures Newer(entries, lsn) == entries
  {
    if entries != [] { NewerAll(entries[..|entries| - 1], lsn); }
  }

  lemma {:induction false} NewerNone(entries: seq<WalEntry>, lsn: nat)
    requires forall i | 0 <= i < |entries| :: entries[i].lsn <= lsn
    ensures Newer(entries, lsn) == []
  {
    if entries != [] { NewerNone(entries[..|entries| - 1], lsn); }
  }

  lemma {:induction false} NewerIsAbove(entries: seq<WalEntry>, lsn: nat)
    ensures LastLsn(Newer(entries, lsn), lsn) >= lsn
  {
    if entries != [] { NewerIsAbove(entries[..|entries| - 1], lsn); }
  }

  // --- Appending ----------------------------------------------------------------------------------------------

  /** The records hold `ops` under consecutive sequence numbers from `lsn`. */
  ghost predicate Numbered(records: seq<Record>, ops: seq<WalOp>, lsn: nat) {
    && |records| == |ops|
    && forall i | 0 <= i < |records| :: records[i].entry.lsn == lsn + i && records[i].entry.op == ops[i]
  }

  ghost predicate Carries(entries: seq<WalEntry>, ops: seq<WalOp>) {
    |entries| == |ops| && forall i | 0 <= i < |ops| :: entries[i].op == ops[i]
  }

  lemma {:induction false} CarriedOps(entries: seq<WalEntry>, ops: seq<WalOp>)
    requires Carries(entries, ops)
    ensures OpsOf(entries) == ops
  {
    if ops != [] {
      var n := |ops| - 1;
      CarriedOps(entries[..n], ops[..n]);
      assert ops == ops[..n] + [ops[n]];
    }
  }

  lemma NumberedEntries(records: seq<Record>, ops: seq<WalOp>, lsn: nat, k: nat)
    requires Numbered(records, ops, lsn) && k <= |records|
    ensures OpsOf(EntriesOf(records)[..k]) == ops[..k]
  {
    hide EntriesOf, OpsOf;
    assert Carries(EntriesOf(records)[..k], ops[..k]);
    CarriedOps(EntriesOf(records)[..k], ops[..k]);
  }

  /** Reading further entries above everything recovered replays them on top. */
  lemma RecoverMore(c: Codec, snapshot: Option<Snapshot>, log: Bytes, more: Bytes, s: Opened, extra: seq<WalEntry>,
                    k: nat)
    requires Recover(c, snapshot, log) == Some(s)
    requires Scan(c, more) == Reading(Scan(c, log).entries + extra, None)
    requires |extra| == k && forall i | 0 <= i < k :: extra[i].lsn == s.nextLsn + i
    ensures Recover(c, snapshot, more) == Some(Opened(ReplayAll(s.collections, OpsOf(extra)), s.nextLsn + k))
  {
    hide Scan, Newer, OpsOf, ReplayAll;
    var base, before := BaseOf(snapshot), Scan(c, log).entries;
    NewerIsAbove(before, base.lastLsn);
    NewerConcat(before, extra, base.lastLsn);
    NewerAll(extra, base.lastLsn);
    OpsConcat(Newer(before, base.lastLsn), extra);
    ReplayAllConcat(base.collections, OpsOf(Newer(before, base.lastLsn)), OpsOf(extra));
  }

  /** A crash anywhere while new frames are appended recovers the old state and the operations written whole. */
  lemma RecoverPrefix(c: Codec, snapshot: Option<Snapshot>, records: seq<Record>, s: Opened, more: seq<Record>,
                      ops: seq<WalOp>, n: nat)
    requires RecordsOk(c, records) && RecordsOk(c, more) && n <= |LogOf(c, more)|
    requires Recover(c, snapshot, LogOf(c, records)) == Some(s) && Numbered(more, ops, s.nextLsn)
    ensures Recover(c, snapshot, LogOf(c, records) + LogOf(c, more)[..n])
         == Some(Opened(ReplayAll(s.collections, ops[..Whole(c, more, n)]), s.nextLsn + Whole(c, more, n)))
  {
    hide Scan, LogOf, Recover, ReplayAll, Whole;
    var k, tail := Whole(c, more, n), LogOf(c, more)[..n];
    ScanThrough(c, records, tail);
    ScanPrefix(c, more, n);
    ScanWhole(c, records);
    NumberedEntries(more, ops, s.nextLsn, k);
    RecoverMore(c, snapshot, LogOf(c, records), LogOf(c, records) + tail, s, EntriesOf(more)[..k], k);
  }

  lemma ScanWhole(c: Codec, records: seq<Record>)
    requires RecordsOk(c, records)
    ensures Scan(c, LogOf(c, records)) == Reading(EntriesOf(records), None)
  {
    hide LogOf;
    ScanThrough(c, records, []);
    assert LogOf(c, records) + [] == LogOf(c, records);
    ScanStep(c, []);
    assert EntriesOf(records) + [] == EntriesOf(records);
  }

  lemma {:induction false} WholeAll(c: Codec, records: seq<Record>)
    ensures Whole(c, records, |LogOf(c, records)|) == |records|
  {
    if records != [] { WholeAll(c, records[1..]); }
  }

  /** Without a snapshot every operation of the log is replayed, and numbering goes on after its last. */
  lemma RecoverLogAlone(c: Codec, records: seq<Record>)
    requires RecordsOk(c, records) && forall i | 0 <= i < |records| :: records[i].entry.lsn > 0
    ensures Recover(c, None, LogOf(c, records))
         == Some(Opened(ReplayAll(map[], OpsOf(EntriesOf(records))),
                        if records == [] then 1 else records[|records| - 1].entry.lsn + 1))
  {
    hide Scan, LogOf, ReplayAll, OpsOf, Newer;
    ScanWhole(c, records);
    NewerAll(EntriesOf(records), 0);
  }

  /** With a snapshot of everything, the log below it adds nothing. */
  lemma RecoverSnapshot(c: Codec, collections: Manager, nextLsn: nat, records: seq<Record>)
    requires RecordsOk(c, records) && nextLsn > 0
    requires forall i | 0 <= i < |records| :: records[i].entry.lsn < nextLsn
    ensures Recover(c, Some(Snapshot(collections, nextLsn - 1)), LogOf(c, records))
         == Some(Opened(collections, nextLsn))
  {
    hide Scan, LogOf;
    ScanWhole(c, records);
    NewerNone(EntriesOf(records), nextLsn - 1);
  }
}
