/**
 * Reading the log: what a byte string yields, why every byte prefix of a well-formed log yields exactly
 * the entries written whole, and the two nested iterators that compute it.
 */
module LogReader {
  import opened Core
  import opened Semantics
  import opened Frames

  /** The entries read before the reader stopped, and why it stopped; no error at the end of the log. */
  datatype Reading = Reading(entries: seq<WalEntry>, error: Option<LogError>)

  const NOTHING := Reading([], None)

  /** Frame by frame: a torn or corrupt last frame ends the log, corruption with bytes after it is an error. */
  function Scan(c: Codec, s: Bytes): Reading
    decreases |s|
  {
    match ReadFrame(s)
    case None => NOTHING
    case Some(f) =>
      if c.hash(f.payload) != f.storedHash then
        if f.rest == [] then NOTHING else Reading([], Some(Crc(f.storedHash, c.hash(f.payload))))
      else
        match DecodeEntry(c, f.payload)
        case Bad(e) => Reading([], Some(e))
        case Good(e) =>
          var more := Scan(c, f.rest);
          Reading([e] + more.entries, more.error)
  }

  // --- Well-formed logs ------------------------------------------------------------------------------------

  /** One logged entry and the payload its frame holds, in any form the decoder accepts. */
  datatype Record = Record(entry: WalEntry, payload: Bytes)

  ghost predicate RecordOk(c: Codec, r: Record) {
    |r.payload| < U32_RANGE && DecodeEntry(c, r.payload) == Good(r.entry)
  }

  ghost predicate RecordsOk(c: Codec, records: seq<Record>) {
    forall i | 0 <= i < |records| :: RecordOk(c, records[i])
  }

  /** The bytes of a log of whole frames. */
  function LogOf(c: Codec, records: seq<Record>): Bytes {
    if records == [] then [] else Frame(c, records[0].payload) + LogOf(c, records[1..])
  }

  function EntriesOf(records: seq<Record>): (r: seq<WalEntry>)
    ensures |r| == |records| && forall i | 0 <= i < |r| :: r[i] == records[i].entry
  {
    if records == [] then [] else [records[0].entry] + EntriesOf(records[1..])
  }

  /** How many frames lie wholly within the first `n` bytes of the log. */
  function Whole(c: Codec, records: seq<Record>, n: nat): (k: nat)
    ensures k <= |records|
  {
    if records == [] || n < |Frame(c, records[0].payload)| then 0
    else 1 + Whole(c, records[1..], n - |Frame(c, records[0].payload)|)
  }

  lemma ScanFrame(c: Codec, r: Record, tail: Bytes)
    requires RecordOk(c, r)
    ensures Scan(c, Frame(c, r.payload) + tail) == Reading([r.entry] + Scan(c, tail).entries, Scan(c, tail).error)
  {
    ReadAfterWrite(c, r.payload, tail);
  }

  /** Whole frames are read first, then whatever follows. */
  lemma {:induction false} ScanThrough(c: Codec, records: seq<Record>, tail: Bytes)
    requires RecordsOk(c, records)
    ensures Scan(c, LogOf(c, records) + tail)
         == Reading(EntriesOf(records) + Scan(c, tail).entries, Scan(c, tail).error)
  {
    hide Scan, Frame;
    if records == [] {
      assert [] + tail == tail;
      assert [] + Scan(c, tail).entries == Scan(c, tail).entries;
    } else {
      var rest := LogOf(c, records[1..]) + tail;
      ScanThrough(c, records[1..], tail);
      ScanFrame(c, records[0], rest);
      assert LogOf(c, records) + tail == Frame(c, records[0].payload) + rest;
      assert [records[0].entry] + (EntriesOf(records[1..]) + Scan(c, tail).entries)
        == EntriesOf(records) + Scan(c, tail).entries;
    }
  }

  /** Every byte prefix of a log yields exactly the entries whose frames lie wholly in it, and no error. */
  lemma {:induction false} ScanPrefix(c: Codec, records: seq<Record>, n: nat)
    requires RecordsOk(c, records) && n <= |LogOf(c, records)|
    ensures Scan(c, LogOf(c, records)[..n]) == Reading(EntriesOf(records)[..Whole(c, records, n)], None)
  {
    hide Scan, Frame;
    if records == [] {
      assert LogOf(c, records)[..n] == [];
      ScanStep(c, []);
    } else {
      var first, rest := Frame(c, records[0].payload), LogOf(c, records[1..]);
      if n < |first| {
        assert (first + rest)[..n] == first[..n];
        TornFrame(c, records[0].payload, n);
        ScanStep(c, first[..n]);
      } else {
        ScanPrefix(c, records[1..], n - |first|);
        assert (first + rest)[..n] == first + rest[..n - |first|];
        ScanFrame(c, records[0], rest[..n - |first|]);
      }
    }
  }

  /** A frame with the wrong checksum. */
  function BadFrame(payload: Bytes, stored: U64): Bytes {
    LittleEndian(|payload| % U32_RANGE, 4) + LittleEndian(stored, 8) + payload
  }

  /** A frame whose checksum mismatches is dropped silently when it is last and is an error otherwise. */
  lemma CorruptFrame(c: Codec, records: seq<Record>, payload: Bytes, stored: U64, tail: Bytes)
    requires RecordsOk(c, records) && |payload| < U32_RANGE && stored != c.hash(payload)
    ensures Scan(c, LogOf(c, records) + BadFrame(payload, stored) + tail)
         == Reading(EntriesOf(records), if tail == [] then None else Some(Crc(stored, c.hash(payload))))
  {
    hide LogOf, LittleEndian, BadFrame, DecodeEntry;
    var bad := BadFrame(payload, stored);
    ReadCorrupt(payload, stored, tail);
    ScanThrough(c, records, bad + tail);
    assert LogOf(c, records) + bad + tail == LogOf(c, records) + (bad + tail);
    assert EntriesOf(records) + [] == EntriesOf(records);
  }

  lemma ReadCorrupt(payload: Bytes, stored: U64, tail: Bytes)
    requires |payload| < U32_RANGE
    ensures ReadFrame(BadFrame(payload, stored) + tail)
         == Some(FrameRead(payload, stored, tail))
  {
    hide LittleEndian, FromLittleEndian, Power256;
    var s, head := BadFrame(payload, stored) + tail, LittleEndian(|payload|, 4) + LittleEndian(stored, 8);
    HeaderRanges();
    LittleEndianRoundTrip(|payload|, 4);
    LittleEndianRoundTrip(stored, 8);
    assert s == head + (payload + tail);
    assert s[..4] == LittleEndian(|payload|, 4) && s[4..12] == LittleEndian(stored, 8) && s[12..] == payload + tail;
    assert s[12..12 + |payload|] == s[12..][..|payload|] == payload;
    assert s[12 + |payload|..] == s[12..][|payload|..] == tail;
  }

  /** A whole frame with a good checksum that does not decode is an error, last or not. */
  lemma UndecodableFrame(c: Codec, records: seq<Record>, payload: Bytes, error: LogError, tail: Bytes)
    requires RecordsOk(c, records) && |payload| < U32_RANGE && DecodeEntry(c, payload) == Bad(error)
    ensures Scan(c, LogOf(c, records) + Frame(c, payload) + tail) == Reading(EntriesOf(records), Some(error))
  {
    hide LogOf, Frame, DecodeEntry;
    ReadAfterWrite(c, payload, tail);
    ScanThrough(c, records, Frame(c, payload) + tail);
    assert LogOf(c, records) + Frame(c, payload) + tail == LogOf(c, records) + (Frame(c, payload) + tail);
    assert EntriesOf(records) + [] == EntriesOf(records);
  }

  lemma LogHead(c: Codec, records: seq<Record>)
    requires records != []
    ensures LogOf(c, records) == Frame(c, records[0].payload) + LogOf(c, records[1..])
  {
  }

  lemma NoLog(c: Codec)
    ensures LogOf(c, []) == [] && EntriesOf([]) == []
  {
  }

  lemma Associates(x: Bytes, y: Bytes, z: Bytes)
    ensures x + (y + z) == (x + y) + z
  {
  }

  lemma {:induction false} LogConcat(c: Codec, a: seq<Record>, b: seq<Record>)
    ensures LogOf(c, a + b) == LogOf(c, a) + LogOf(c, b)
  {
    hide Frame, LogOf;
    if a == [] {
      assert a + b == b;
      NoLog(c);
      assert [] + LogOf(c, b) == LogOf(c, b);
    } else {
      LogConcat(c, a[1..], b);
      assert (a + b)[1..] == a[1..] + b;
      LogHead(c, a + b);
      LogHead(c, a);
      Associates(Frame(c, a[0].payload), LogOf(c, a[1..]), LogOf(c, b));
    }
  }

  // --- Frames, whatever they hold ------------------------------------------------------------------------------

  /** All frames of a byte string, up to its end or a torn frame. */
  function FramesIn(s: Bytes): seq<FrameRead>
    decreases |s|
  {
    match ReadFrame(s)
    case None => []
    case Some(f) => [f] + FramesIn(f.rest)
  }

  /** The frames of any byte prefix of a log are the payloads written whole, in order, each with its own checksum. */
  lemma {:induction false} FramesOfPrefix(c: Codec, records: seq<Record>, n: nat)
    requires RecordsOk(c, records) && n <= |LogOf(c, records)|
    ensures var frames := FramesIn(LogOf(c, records)[..n]);
            && |frames| == Whole(c, records, n)
            && forall i | 0 <= i < |frames| ::
                 frames[i].payload == records[i].payload && frames[i].storedHash == c.hash(records[i].payload)
  {
    hide Frame, ReadFrame;
    if records == [] {
      assert LogOf(c, records)[..n] == [];
      NoFrame();
    } else {
      var first, rest := Frame(c, records[0].payload), LogOf(c, records[1..]);
      if n < |first| {
        assert (first + rest)[..n] == first[..n];
        TornFrame(c, records[0].payload, n);
      } else {
        FramesOfPrefix(c, records[1..], n - |first|);
        assert (first + rest)[..n] == first + rest[..n - |first|];
        ReadAfterWrite(c, records[0].payload, rest[..n - |first|]);
      }
    }
  }

  lemma NoFrame()
    ensures ReadFrame([]).None?
  {
  }

  // --- Appending after a torn tail ---------------------------------------------------------------------------

  /** A proper, non-empty part of a frame, as a crash in the middle of a write leaves it. */
  ghost predicate IsTornTail(c: Codec, torn: Bytes, payload: Bytes) {
    |payload| < U32_RANGE && 0 < |torn| < |Frame(c, payload)| && torn == Frame(c, payload)[..|torn|]
  }

  /** The bytes at the splice happen to pass for a frame with a right checksum. */
  ghost predicate Undetected(c: Codec, s: Bytes) {
    ReadFrame(s).Some? && c.hash(ReadFrame(s).value.payload) == ReadFrame(s).value.storedHash
  }

  /**
   * Reopening does not cut a torn tail off, so the next entry is appended behind it. Unless the splice
   * passes for a frame, that entry is read back exactly when there was no torn tail.
   */
  lemma AppendSurvivesIff(c: Codec, records: seq<Record>, torn: Bytes, r: Record)
    requires RecordsOk(c, records) && RecordOk(c, r)
    requires torn != [] ==> !Undetected(c, torn + Frame(c, r.payload))
    ensures Scan(c, LogOf(c, records) + torn + Frame(c, r.payload)) == Reading(EntriesOf(records) + [r.entry], None)
       <==> torn == []
  {
    hide Frame, LogOf;
    var tail := torn + Frame(c, r.payload);
    assert LogOf(c, records) + torn + Frame(c, r.payload) == LogOf(c, records) + tail;
    ScanThrough(c, records, tail);
    if torn == [] {
      assert tail == Frame(c, r.payload) + [];
      ScanFrame(c, r, []);
    } else {
      assert Scan(c, tail).entries == [];
    }
  }

  /** A torn tail longer than what is appended swallows the entry without any error, whatever the checksum. */
  lemma TornTailSwallows(c: Codec, records: seq<Record>, torn: Bytes, payload: Bytes, r: Record)
    requires RecordsOk(c, records) && RecordOk(c, r) && IsTornTail(c, torn, payload)
    requires |torn| >= 4 && |torn| + |Frame(c, r.payload)| < |Frame(c, payload)|
    ensures Scan(c, LogOf(c, records) + torn + Frame(c, r.payload)) == Reading(EntriesOf(records), None)
  {
    hide Frame, LogOf, ReadFrame;
    var tail := torn + Frame(c, r.payload);
    assert LogOf(c, records) + torn + Frame(c, r.payload) == LogOf(c, records) + tail;
    StillTorn(c, torn, payload, Frame(c, r.payload));
    ScanThrough(c, records, tail);
    assert EntriesOf(records) + [] == EntriesOf(records);
  }

  lemma StillTorn(c: Codec, torn: Bytes, payload: Bytes, more: Bytes)
    requires IsTornTail(c, torn, payload) && |torn| >= 4 && |torn| + |more| < |Frame(c, payload)|
    ensures ReadFrame(torn + more).None?
  {
    FrameHeader(c, payload, []);
    hide Frame;
    assert Frame(c, payload) + [] == Frame(c, payload);
    assert (torn + more)[..4] == torn[..4] == Frame(c, payload)[..4];
  }

  // --- The iterators --------------------------------------------------------------------------------------------

  /** Iterator over frames: stops for good at the end of the stream or at a truncated frame. */
  class FrameIter {
    var rest: Bytes
    var done: bool

    constructor (stream: Bytes)
      ensures rest == stream && !done
    {
      rest, done := stream, false;
    }

    /** The frames still to come. */
    ghost function Due(): seq<FrameRead>
      reads this
    {
      if done then [] else FramesIn(rest)
    }

    /** The next frame of the stream, and once there is none, nothing for good. */
    method Next() returns (frame: Option<FrameRead>)
      modifies this
      ensures if old(Due()) == [] then frame == None && Due() == [] && done
              else frame == Some(old(Due())[0]) && Due() == old(Due())[1..]
      ensures frame == (if old(done) then None else ReadFrame(old(rest)))
      ensures done <==> frame.None?
      ensures rest == if frame.Some? then frame.value.rest else old(rest)
    {
      if done {
        return None;
      }
      frame := ReadFrame(rest);
      match frame
      case None => done := true;
      case Some(f) => rest := f.rest;
    }

    /** Whether bytes remain in the stream. */
    method HasRemainingBytes() returns (more: bool)
      ensures more <==> rest != []
    {
      more := rest != [];
    }
  }

  /** Entries at or below the baseline are skipped. */
  function SkipOld(entries: seq<WalEntry>, after: Option<nat>): (r: seq<WalEntry>) {
    if entries != [] && after.Some? && entries[0].lsn <= after.value then SkipOld(entries[1..], after) else entries
  }

  /** What is skipped is exactly the leading run of old entries. */
  lemma {:induction false} SkipsLeadingOld(entries: seq<WalEntry>, after: Option<nat>)
    ensures var r := SkipOld(entries, after);
            && |r| <= |entries| && r == entries[|entries| - |r|..]
            && (r != [] && after.Some? ==> r[0].lsn > after.value)
            && forall i | 0 <= i < |entries| - |r| :: after.Some? && entries[i].lsn <= after.value
  {
    if entries != [] && after.Some? && entries[0].lsn <= after.value {
      SkipsLeadingOld(entries[1..], after);
      assert forall i | 1 <= i < |entries| :: entries[i] == entries[1..][i - 1];
    }
  }

  lemma SkipNone(after: Option<nat>)
    ensures SkipOld([], after) == []
  {
  }

  lemma SkipStep(e: WalEntry, more: seq<WalEntry>, after: Option<nat>)
    ensures SkipOld([e] + more, after)
         == if after.Some? && e.lsn <= after.value then SkipOld(more, after) else [e] + more
  {
    assert ([e] + more)[1..] == more;
  }

  /** One step of `Scan`. */
  lemma ScanStep(c: Codec, s: Bytes)
    ensures var f := ReadFrame(s);
            if f.None? then Scan(c, s) == NOTHING
            else if c.hash(f.value.payload) != f.value.storedHash then
              Scan(c, s) == if f.value.rest == [] then NOTHING
                            else Reading([], Some(Crc(f.value.storedHash, c.hash(f.value.payload))))
            else
              var e := DecodeEntry(c, f.value.payload);
              var more := Scan(c, f.value.rest);
              Scan(c, s) == if e.Bad? then Reading([], Some(e.error)) else Reading([e.value] + more.entries, more.error)
  {
  }

  /** Iterator over entries; read-only, and silent about an uncommitted last frame. */
  class WalReader {
    const codec: Codec
    const iter: FrameIter
    const afterLsn: Option<nat>
    var done: bool

    constructor (codec: Codec, stream: Bytes, afterLsn: Option<nat>)
      ensures this.codec == codec && this.afterLsn == afterLsn && fresh(iter) && Pending() == Scan(codec, stream)
    {
      this.codec, this.afterLsn, done := codec, afterLsn, false;
      iter := new FrameIter(stream);
    }

    /** What the reader has still to yield. */
    ghost function Pending(): Reading
      reads this, iter
    {
      if done || iter.done then NOTHING else Scan(codec, iter.rest)
    }

    method Next() returns (item: Option<Decoded<WalEntry>>)
      modifies this, iter
      ensures var due := old(Pending());
              var left := SkipOld(due.entries, afterLsn);
              if left != [] then item == Some(Good(left[0])) && Pending() == Reading(left[1..], due.error)
              else Pending() == NOTHING && item == if due.error.Some? then Some(Bad(due.error.value)) else None
    {
      hide Scan, ReadFrame, DecodeEntry, SkipOld;
      SkipNone(afterLsn);
      if done {
        return None;
      }
      while true
        invariant !done && iter.done == old(iter.done)
        invariant Pending().error == old(Pending()).error
        invariant SkipOld(Pending().entries, afterLsn) == SkipOld(old(Pending()).entries, afterLsn)
        decreases |iter.rest|
      {
        ScanStep(codec, iter.rest);
        var frame := iter.Next();
        if frame.None? {
          return None;
        }
        var FrameRead(payload, storedHash, rest) := frame.value;
        if codec.hash(payload) != storedHash {
          done := true;
          var more := iter.HasRemainingBytes();
          if more {
            return Some(Bad(Crc(storedHash, codec.hash(payload))));
          }
          return None;
        }
        match DecodeEntry(codec, payload) {
          case Bad(error) =>
            done := true;
            return Some(Bad(error));
          case Good(entry) =>
            SkipStep(entry, Pending().entries, afterLsn);
            if afterLsn.Some? && entry.lsn <= afterLsn.value {
              continue;
            }
            return Some(Good(entry));
        }
      }
    }
  }
}
