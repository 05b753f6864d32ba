/** The log of one topic partition: its segment files and the metadata kept about them. */
module SegmentedLog {
  import opened Common
  import opened Ordering
  import opened Domain
  import opened Replay
  import opened Frames
  import opened Segment
  import opened Recovery

  /** Every segment is within the roll threshold or holds a single record. */
  ghost predicate WithinThreshold(segments: seq<SegmentMetadata>, max: nat) {
    forall i :: 0 <= i < |segments| ==> segments[i].size <= max || segments[i].next == segments[i].base + 1
  }

  /** The records among the first `upto` that a read of at most `limit` from `offset` on returns. */
  function Window(records: seq<StoredRecord>, offset: nat, limit: nat, upto: nat): seq<StoredRecord>
    requires upto <= |records|
  {
    if upto <= offset then [] else records[offset..if offset + limit <= upto then offset + limit else upto]
  }

  /** A frame that reads back as one record at the given offset. */
  ghost predicate HoldsRecord(read: FrameReader, frame: seq<byte>, offset: nat, record: StoredRecord) {
    && |frame| <= FRAME_HEADER_BYTES + U32_MAX
    && ScanRest(read, frame, offset, false) == Ok(Scan([record], offset + 1, |frame|))
  }

  ghost predicate UnderstoodAt(read: FrameReader, codec: RecordCodec, log: LogId, offset: nat, envelope: Envelope) {
    var payload := codec.encode(Persist(log, offset, envelope));
    |payload| <= U32_MAX && offset < U64_MAX ==>
      HoldsRecord(read, Frame(codec, payload), offset, StoredRecord(log, offset, envelope))
  }

  /** The reader understands every frame the log writes. */
  ghost predicate Understood(read: FrameReader, codec: RecordCodec, log: LogId) {
    forall offset, envelope :: UnderstoodAt(read, codec, log, offset, envelope)
  }

  lemma WrittenIsUnderstood(codec: RecordCodec, log: LogId)
    requires codec.Faithful()
    ensures Understood(Reader(codec, log), codec, log)
  {
    forall offset: nat, envelope ensures UnderstoodAt(Reader(codec, log), codec, log, offset, envelope) {
      if |codec.encode(Persist(log, offset, envelope))| <= U32_MAX && offset < U64_MAX {
        OneFrame(codec, log, offset, envelope);
      }
    }
  }

  class PartitionLog {
    const codec: RecordCodec
    const log: LogId
    const maxSegmentBytes: nat
    const read: FrameReader
    /** The partition directory: its segment files in base-offset order. */
    var files: seq<SegmentFile>
    var segments: seq<SegmentMetadata>
    var nextOffset: nat
    /** The log as a flat sequence. */
    ghost var records: seq<StoredRecord>

    constructor (codec: RecordCodec, log: LogId, maxSegmentBytes: nat, files: seq<SegmentFile>)
      requires codec.Faithful()
      ensures this.codec == codec && this.log == log && this.maxSegmentBytes == maxSegmentBytes && this.files == files
      ensures read == Reader(codec, log) && Understood(read, codec, log)
      ensures segments == [] && nextOffset == 0
    {
      this.codec, this.log, this.maxSegmentBytes, this.files := codec, log, maxSegmentBytes, files;
      read, segments, nextOffset := Reader(codec, log), [], 0;
      WrittenIsUnderstood(codec, log);
    }

    /** A strict recovery of the files gives the metadata and the flat log. */
    ghost predicate Valid()
      reads this
    {
      && Understood(read, codec, log)
      && RecoverFiles(read, files, 0, false) == Ok(Recovered(segments, records, nextOffset))
    }

    // ---- opening ----

    /** One round of `recover`. Only the final segment is repaired, and only once nothing is wrong with it. */
    method RecoverSegment(i: nat, expected: nat) returns (r: ScanResult)
      requires i < |files|
      modifies this`files, this`segments
      ensures r == RecoverOne(read, old(files)[i], expected, i + 1 == |files|, true)
      ensures segments == old(segments) + Entry(expected, r)
      ensures files == Repaired(old(files), i, r)
    {
      var file, isFinal := files[i], i + 1 == |files|;
      if file.base != expected {
        return Err(CorruptSegment);
      }
      r := ScanSegment(read, file.bytes, expected, isFinal);
      if r.Ok? && r.value.size == 0 && !isFinal {
        return Err(CorruptSegment);
      }
      if r.Ok? {
        if isFinal {
          files := files[i := SegmentFile(file.base, file.bytes[..r.value.size])];
        }
        segments := segments + [SegmentMetadata(file.base, r.value.next, r.value.size)];
      }
    }

    /** `recover`: segment by segment, in base-offset order. */
    method Recover() returns (error: Option<StorageError>)
      requires segments == [] && nextOffset == 0
      modifies this`files, this`segments, this`nextOffset
      ensures RecoverReports(RecoverFiles(read, old(files), 0, true), old(files), error, files, segments, nextOffset)
    {
      ghost var read, before, done := read, files, Recovered([], [], 0);
      RecoverBegins(read, before);
      var i, count := 0, |files|;
      while i < count
        invariant i <= count == |before|
        invariant RecoveredSoFar(read, before, i, done, files, segments, nextOffset)
      {
        ghost var earlier := segments;
        var scan := RecoverSegment(i, nextOffset);
        done := RecoverStep(read, before, i, done, earlier, nextOffset, scan);
        if scan.Err? {
          return Some(scan.error);
        }
        nextOffset := scan.value.next;
        i := i + 1;
      }
      RecoverEnds(read, before, done, files, segments, nextOffset);
      error := None;
    }

    /** `open`: check the configuration, then recover. A directory that does not open is left untouched; one
        that does is cut at most in its last file, and is then free of damage. */
    method Open() returns (error: Option<StorageError>)
      requires Understood(read, codec, log) && segments == [] && nextOffset == 0
      modifies this
      ensures maxSegmentBytes == 0 ==> error == Some(InvalidLogConfig) && files == old(files)
      ensures maxSegmentBytes > 0 ==>
        match RecoverFiles(read, old(files), 0, true)
        case Err(e) => error == Some(e) && files == old(files)
        case Ok(r) => error == None && Valid() && records == r.records && files == LeftBy(read, old(files))
    {
      if maxSegmentBytes == 0 {
        return Some(InvalidLogConfig);
      }
      error := Recover();
      if error.None? {
        ReopenIsIdempotent(read, old(files), 0);
        records := RecoverFiles(read, old(files), 0, true).value.records;
      }
    }

    // ---- appending ----

    /** `create_active_segment`: `created` tells whether creating the file works. Its name, the next offset,
        is never taken. */
    method CreateActiveSegment(created: bool)
      requires Valid() && LastIsFull(segments)
      modifies this`files, this`segments
      ensures forall i :: 0 <= i < |old(files)| ==> old(files)[i].base < nextOffset
      ensures Valid() && records == old(records)
      ensures files == if created then old(files) + [SegmentFile(nextOffset, [])] else old(files)
      ensures segments == if created then old(segments) + [SegmentMetadata(nextOffset, nextOffset, 0)]
                          else old(segments)
    {
      BasesBelow(read, files, 0);
      RollAddsNothing(read, files, 0);
      if created {
        files := files + [SegmentFile(nextOffset, [])];
        segments := segments + [SegmentMetadata(nextOffset, nextOffset, 0)];
      }
    }

    /** `roll_if_needed` and then `ensure_active_segment`: at most one of them creates a segment. */
    method PrepareSegment(frameSize: nat, created: bool) returns (ok: bool)
      requires Valid()
      modifies this`files, this`segments
      ensures Valid() && records == old(records)
      ensures ok <==> created || !NeedsSegment(old(segments), frameSize, maxSegmentBytes)
      ensures files == if ok && NeedsSegment(old(segments), frameSize, maxSegmentBytes)
                       then old(files) + [SegmentFile(nextOffset, [])] else old(files)
      ensures segments == if ok && NeedsSegment(old(segments), frameSize, maxSegmentBytes)
                          then old(segments) + [SegmentMetadata(nextOffset, nextOffset, 0)] else old(segments)
    {
      if segments != [] {
        var active := segments[|segments| - 1];
        var wouldExceed := active.size + frameSize > U64_MAX || active.size + frameSize > maxSegmentBytes;
        if active.size > 0 && wouldExceed {
          CreateActiveSegment(created);
          return created;
        }
      } else {
        CreateActiveSegment(created);
        return created;
      }
      ok := true;
    }

    /** `append_frame_with_rollback`: only `room` more bytes fit on the disk; a short write is undone. */
    method AppendFrameWithRollback(frame: seq<byte>, rollbackLen: nat, room: nat) returns (ok: bool)
      requires files != [] && rollbackLen == |files[|files| - 1].bytes|
      modifies this`files
      ensures ok <==> |frame| <= room
      ensures files == if ok then old(files[|files| - 1 := Grown(files[|files| - 1], frame)]) else old(files)
    {
      var last := |files| - 1;
      var base, bytes := files[last].base, files[last].bytes;
      ok := |frame| <= room;
      files := files[last := SegmentFile(base, bytes + if ok then frame else frame[..room])];
      if !ok {
        files := files[last := SegmentFile(base, files[last].bytes[..rollbackLen])];
        assert (bytes + frame[..room])[..rollbackLen] == bytes;
      }
    }

    /** The last part of `append`: the frame goes to the active segment, or nothing changes. */
    method WriteFrame(frame: seq<byte>, room: nat, ghost record: StoredRecord) returns (r: Result<nat, StorageError>)
      requires Valid() && segments != [] && !NeedsSegment(segments, |frame|, maxSegmentBytes)
      requires HoldsRecord(read, frame, nextOffset, record)
      modifies this
      ensures Valid()
      ensures r.Ok? <==> |frame| <= room
      ensures r.Ok? ==> r.value == old(nextOffset) && nextOffset == old(nextOffset) + 1
      ensures r.Ok? ==> records == old(records) + [record] && |segments| == |old(segments)|
      ensures r.Err? ==> files == old(files) && segments == old(segments) && nextOffset == old(nextOffset)
      ensures old(WithinThreshold(segments, maxSegmentBytes)) ==> WithinThreshold(segments, maxSegmentBytes)
    {
      FrameWritten(read, files, frame, record, maxSegmentBytes);
      var index, offset := |segments| - 1, nextOffset;
      var rollbackLen := segments[index].size;
      var newSize := rollbackLen + |frame|;
      if newSize > U64_MAX {
        return Err(InvalidFormat);
      }
      var ok := AppendFrameWithRollback(frame, rollbackLen, room);
      if !ok {
        return Err(StorageIo);
      }
      segments := segments[index := SegmentMetadata(segments[index].base, offset + 1, newSize)];
      nextOffset, records := offset + 1, records + [record];
      r := Ok(offset);
    }

    /** `append`: the record gets the next offset, the length of the flat log so far, and goes behind all
        others. A failed append changes neither the log nor the next offset; all it can leave behind is a
        new empty segment. */
    method Append(envelope: Envelope, created: bool, room: nat) returns (r: Result<nat, StorageError>)
      requires Valid()
      modifies this
      ensures Valid()
      ensures r.Ok? <==> old(Accepts(envelope, created, room))
      ensures r.Ok? ==> r.value == old(nextOffset) == |old(records)| && nextOffset == old(nextOffset) + 1
      ensures r.Ok? ==> records == old(records) + [StoredRecord(log, r.value, envelope)]
      ensures r.Err? ==> records == old(records) && nextOffset == old(nextOffset)
      ensures r.Err? ==> files == old(files) || files == old(files) + [SegmentFile(nextOffset, [])]
      ensures r.Ok? ==>
        var frameSize := 8 + |codec.encode(PersistedRecord(1, log, r.value, envelope))|;
        |segments| == |old(segments)| + if old(FitsActive(frameSize)) then 0 else 1
      ensures old(WithinThreshold(segments, maxSegmentBytes)) ==> WithinThreshold(segments, maxSegmentBytes)
    {
      RecoveredSizes(read, files, 0, false);
      var offset := nextOffset;
      if offset + 1 > U64_MAX {
        return Err(InvalidFormat);
      }
      var encoded := EncodeFrame(codec, codec.encode(Persist(log, offset, envelope)));
      if encoded.Err? {
        return Err(encoded.error);
      }
      var ok := PrepareSegment(|encoded.value|, created);
      if !ok {
        return Err(StorageIo);
      }
      assert UnderstoodAt(read, codec, log, offset, envelope);
      r := WriteFrame(encoded.value, room, StoredRecord(log, offset, envelope));
    }

    /** There is an active segment, and it is empty or grows to at most the threshold. */
    predicate FitsActive(frameSize: nat)
      reads this
    {
      segments != []
      && (var size := segments[|segments| - 1].size;
          size == 0 || (size + frameSize <= maxSegmentBytes && size + frameSize <= U64_MAX))
    }

    /** What an append needs: an offset, a payload that fits its length field, a new segment file if one is
        due, and room on the disk. */
    ghost predicate Accepts(envelope: Envelope, created: bool, room: nat)
      reads this
    {
      var payload := codec.encode(Persist(log, nextOffset, envelope));
      && nextOffset < U64_MAX && |payload| <= U32_MAX
      && (created || FitsActive(8 + |payload|)) && 8 + |payload| <= room
    }

    // ---- reading ----

    /** `read_from`: the slice of the flat log from `offset` on, of at most `limit` records. */
    method ReadFrom(offset: nat, limit: nat) returns (r: Result<seq<StoredRecord>, StorageError>)
      requires Valid()
      ensures r == Ok(Window(records, offset, limit, |records|))
      ensures var left := if offset < |records| then |records| - offset else 0;
        |r.value| == if limit < left then limit else left
      ensures forall i :: 0 <= i < |r.value| ==> r.value[i] == records[offset + i]
    {
      RecoveredSizes(read, files, 0, false);
      if limit == 0 || offset >= nextOffset {
        WindowOfNothing(records, offset, limit, |records|);
        return Ok([]);
      }
      r := ReadSegments(read, files, segments, nextOffset, offset, limit);
    }
  }

  /** Where segment `i` starts, or the end of the log. */
  function UpTo(segments: seq<SegmentMetadata>, next: nat, i: nat): nat {
    if i < |segments| then segments[i].base else next
  }

  predicate LastIsFull(segments: seq<SegmentMetadata>) {
    segments == [] || segments[|segments| - 1].size > 0
  }

  /** Whether a frame of this size has to go to a new segment. */
  predicate NeedsSegment(segments: seq<SegmentMetadata>, frameSize: nat, max: nat) {
    segments == []
    || (var size := segments[|segments| - 1].size;
        size > 0 && (size + frameSize > U64_MAX || size + frameSize > max))
  }

  function Grown(file: SegmentFile, frame: seq<byte>): SegmentFile {
    SegmentFile(file.base, file.bytes + frame)
  }

  /** Scanning the file of segment `m` reads the records between its two offsets, each at its offset. */
  ghost predicate HoldsSlice(read: FrameReader, bytes: seq<byte>, m: SegmentMetadata, all: seq<StoredRecord>) {
    && m.base <= m.next <= |all| && ScanRest(read, bytes, m.base, false).Ok?
    && var found := ScanRest(read, bytes, m.base, false).value.records;
       found == all[m.base..m.next] && forall j :: 0 <= j < |found| ==> found[j].offset == m.base + j
  }

  /** One round of `read_from`: a segment before the offset is skipped, any other is scanned and collected. */
  method ReadSegment(read: FrameReader, bytes: seq<byte>, m: SegmentMetadata, before: seq<StoredRecord>, offset: nat,
                     limit: nat,
                     ghost all: seq<StoredRecord>) returns (records: seq<StoredRecord>)
    requires HoldsSlice(read, bytes, m, all) && before == Window(all, offset, limit, m.base) && |before| < limit
    ensures records == Window(all, offset, limit, m.next)
  {
    records := before;
    if m.next > offset {
      var scan := ScanSegment(read, bytes, m.base, false);
      records := Collect(before, scan.value.records, offset, limit, all, m.base);
    }
  }

  /** The outer loop of `read_from`, skipping the segments before the offset. */
  method ReadSegments(read: FrameReader, files: seq<SegmentFile>, segments: seq<SegmentMetadata>, next: nat,
                      offset: nat, limit: nat) returns (r: Result<seq<StoredRecord>, StorageError>)
    requires RecoverFiles(read, files, 0, false).Ok? && limit > 0
    requires RecoverFiles(read, files, 0, false).value.segments == segments
    requires RecoverFiles(read, files, 0, false).value.next == next
    ensures var all := RecoverFiles(read, files, 0, false).value.records;
      r == Ok(Window(all, offset, limit, |all|))
  {
    ghost var all := RecoverFiles(read, files, 0, false).value.records;
    RecoveredSizes(read, files, 0, false);
    var records := [];
    var i := 0;
    UpToStart(read, files);
    while i < |segments| && |records| < limit
      invariant i <= |segments| && UpTo(segments, next, i) <= |all|
      invariant records == Window(all, offset, limit, UpTo(segments, next, i))
    {
      SegmentReads(read, files, i);
      records := ReadSegment(read, files[i].bytes, segments[i], records, offset, limit, all);
      i := i + 1;
    }
    FullWindow(all, offset, limit, UpTo(segments, next, i), |all|);
    r := Ok(records);
  }

  /** The inner loop of `read_from`. */
  method Collect(before: seq<StoredRecord>, found: seq<StoredRecord>, offset: nat, limit: nat,
                 ghost all: seq<StoredRecord>, ghost base: nat) returns (records: seq<StoredRecord>)
    requires base + |found| <= |all| && found == all[base..base + |found|]
    requires forall j :: 0 <= j < |found| ==> found[j].offset == base + j
    requires before == Window(all, offset, limit, base) && |before| < limit
    ensures records == Window(all, offset, limit, base + |found|)
  {
    records := before;
    for j := 0 to |found|
      invariant records == Window(all, offset, limit, base + j) && |records| < limit
    {
      NextOfWindow(all, offset, limit, base + j);
      assert found[j] == all[base + j];
      if found[j].offset >= offset {
        records := records + [found[j]];
        if |records| >= limit {
          FullWindow(all, offset, limit, base + j + 1, base + |found|);
          return;
        }
      }
    }
  }

  lemma NextOfWindow(all: seq<StoredRecord>, offset: nat, limit: nat, upto: nat)
    requires upto < |all| && |Window(all, offset, limit, upto)| < limit
    ensures Window(all, offset, limit, upto + 1) ==
            if upto >= offset then Window(all, offset, limit, upto) + [all[upto]] else Window(all, offset, limit, upto)
  {
  }

  /** Once full, a window stays as it is. */
  lemma FullWindow(all: seq<StoredRecord>, offset: nat, limit: nat, upto: nat, later: nat)
    requires upto <= later <= |all| && limit > 0
    requires |Window(all, offset, limit, upto)| >= limit || upto == later
    ensures Window(all, offset, limit, upto) == Window(all, offset, limit, later)
  {
  }

  lemma WindowOfNothing(all: seq<StoredRecord>, offset: nat, limit: nat, upto: nat)
    requires upto <= |all| && (limit == 0 || upto <= offset)
    ensures Window(all, offset, limit, upto) == []
  {
  }

  lemma UpToStart(read: FrameReader, files: seq<SegmentFile>)
    requires RecoverFiles(read, files, 0, false).Ok?
    ensures var r := RecoverFiles(read, files, 0, false).value;
      UpTo(r.segments, r.next, 0) == 0
  {
    if files != [] { SegmentsHold(read, files, 0, 0); }
  }

  /** Scanning segment `i` reads the records between its two offsets. */
  lemma SegmentReads(read: FrameReader, files: seq<SegmentFile>, i: nat)
    requires RecoverFiles(read, files, 0, false).Ok? && i < |files|
    ensures var r := RecoverFiles(read, files, 0, false).value;
      && |r.segments| == |files| && r.segments[i].next == UpTo(r.segments, r.next, i + 1)
      && HoldsSlice(read, files[i].bytes, r.segments[i], r.records)
  {
    RecoveredSizes(read, files, 0, false);
    SegmentsHold(read, files, 0, i);
    ScanNumbers(read, files[i].bytes, RecoverFiles(read, files, 0, false).value.segments[i].base, false);
  }

  /** A frame written to the last segment, which has room for it. */
  lemma FrameWritten(read: FrameReader, files: seq<SegmentFile>, frame: seq<byte>, record: StoredRecord, max: nat)
    requires RecoverFiles(read, files, 0, false).Ok? && files != []
    requires var r := RecoverFiles(read, files, 0, false).value;
      HoldsRecord(read, frame, r.next, record) && !NeedsSegment(r.segments, |frame|, max)
    ensures var r, last := RecoverFiles(read, files, 0, false).value, |files| - 1;
      && |r.segments| == |files| && r.segments[last].size == |files[last].bytes|
      && r.segments[last].size + |frame| <= U64_MAX
      && var segments := r.segments[last := SegmentMetadata(r.segments[last].base, r.next + 1,
          r.segments[last].size + |frame|)];
         && RecoverFiles(read, files[last := Grown(files[last], frame)], 0, false) ==
            Ok(Recovered(segments, r.records + [record], r.next + 1))
         && (WithinThreshold(r.segments, max) ==> WithinThreshold(segments, max))
  {
    var r, last := RecoverFiles(read, files, 0, false).value, |files| - 1;
    LastSegment(read, files, 0);
    AppendToLast(read, files, 0, frame, record);
    ThresholdKept(r.segments, last, SegmentMetadata(r.segments[last].base, r.next + 1,
        r.segments[last].size + |frame|), max);
  }

  lemma ThresholdKept(segments: seq<SegmentMetadata>, i: nat, m: SegmentMetadata, max: nat)
    requires i < |segments| && (m.size <= max || m.next == m.base + 1)
    ensures WithinThreshold(segments, max) ==> WithinThreshold(segments[i := m], max)
  {
  }

  lemma BaseBelow(read: FrameReader, files: seq<SegmentFile>, from: nat, i: nat)
    requires RecoverFiles(read, files, from, false).Ok?
    requires LastIsFull(RecoverFiles(read, files, from, false).value.segments)
    requires i < |files|
    ensures var r := RecoverFiles(read, files, from, false).value;
      |r.segments| == |files| && r.segments[i].size > 0 && files[i].base < r.next
  {
    RecoveredSizes(read, files, from, false);
    SegmentsHold(read, files, from, i);
    ScanCounts(read, files[i].bytes, RecoverFiles(read, files, from, false).value.segments[i].base, false);
  }

  lemma BasesBelow(read: FrameReader, files: seq<SegmentFile>, from: nat)
    requires RecoverFiles(read, files, from, false).Ok?
    requires LastIsFull(RecoverFiles(read, files, from, false).value.segments)
    ensures AllFull(RecoverFiles(read, files, from, false).value)
    ensures forall i :: 0 <= i < |files| ==> files[i].base < RecoverFiles(read, files, from, false).value.next
  {
    RecoveredSizes(read, files, from, false);
    forall i | 0 <= i < |files|
      ensures RecoverFiles(read, files, from, false).value.segments[i].size > 0
      ensures files[i].base < RecoverFiles(read, files, from, false).value.next
    {
      BaseBelow(read, files, from, i);
    }
  }

  /** The last segment of a log: where it ends, and that it starts there if it is empty. */
  lemma LastSegment(read: FrameReader, files: seq<SegmentFile>, from: nat)
    requires RecoverFiles(read, files, from, false).Ok? && files != []
    ensures var r := RecoverFiles(read, files, from, false).value;
      && |r.segments| == |files| && r.segments[|files| - 1].size == |files[|files| - 1].bytes|
      && r.segments[|files| - 1].next == r.next
      && (r.segments[|files| - 1].size == 0 ==> r.segments[|files| - 1].base == r.next)
  {
    var r, last := RecoverFiles(read, files, from, false).value, |files| - 1;
    RecoveredSizes(read, files, from, false);
    SegmentsHold(read, files, from, last);
    ScanCounts(read, files[last].bytes, r.segments[last].base, false);
  }

  /** `recover` reports the result `r` of recovering the files `before`. */
  ghost predicate RecoverReports(r: RecoverResult, before: seq<SegmentFile>, error: Option<StorageError>,
                                 files: seq<SegmentFile>, segments: seq<SegmentMetadata>, next: nat) {
    match r
    case Err(e) => error == Some(e) && files == before
    case Ok(done) =>
      && error == None && segments == done.segments && next == done.next
      && |segments| == |before| && FilesAfter(before, files, |segments|, segments)
  }

  /** The files after the first `i` segments have been recovered: only the last is ever cut. */
  ghost predicate FilesAfter(before: seq<SegmentFile>, files: seq<SegmentFile>, i: nat, segments: seq<SegmentMetadata>)
    requires |segments| == i <= |before|
  {
    if i < |before| || i == 0 then files == before
    else
      segments[i - 1].size <= |before[i - 1].bytes|
      && files == before[i - 1 := SegmentFile(before[i - 1].base, before[i - 1].bytes[..segments[i - 1].size])]
  }

  /** What opening leaves in the directory. */
  ghost function LeftBy(read: FrameReader, files: seq<SegmentFile>): seq<SegmentFile> {
    var r := RecoverFiles(read, files, 0, true);
    if r.Ok? then RecoveredSizes(read, files, 0, true); KeptFiles(files, r) else files
  }

  // ---- recovery, segment by segment ----

  /** What recovering one segment adds to the metadata. */
  function Entry(base: nat, r: ScanResult): seq<SegmentMetadata> {
    match r
    case Err(_) => []
    case Ok(s) => [SegmentMetadata(base, s.next, s.size)]
  }

  /** What recovering one segment leaves in the directory. */
  function Repaired(files: seq<SegmentFile>, i: nat, r: ScanResult): seq<SegmentFile>
    requires i < |files| && (r.Ok? ==> r.value.size <= |files[i].bytes|)
  {
    if i + 1 == |files| && r.Ok? then files[i := SegmentFile(files[i].base, files[i].bytes[..r.value.size])] else files
  }

  /** The recovery of the files `before` has come past `i` segments, holding `done`. */
  ghost predicate RecoveredSoFar(read: FrameReader, before: seq<SegmentFile>, i: nat, done: Recovered,
                                 files: seq<SegmentFile>, segments: seq<SegmentMetadata>, expected: nat) {
    && i <= |before| && |segments| == i && done.segments == segments && done.next == expected
    && FilesAfter(before, files, i, segments)
    && RecoverFiles(read, before, 0, true) == JoinAll(done, RecoverFiles(read, before[i..], expected, true))
  }

  lemma RecoverBegins(read: FrameReader, before: seq<SegmentFile>)
    ensures RecoveredSoFar(read, before, 0, Recovered([], [], 0), before, [], 0)
  {
    assert before[0..] == before;
    var r := RecoverFiles(read, before, 0, true);
    if r.Ok? { assert [] + r.value.segments == r.value.segments && [] + r.value.records == r.value.records; }
  }

  lemma JoinThrice(done: Recovered, base: nat, s: Scan, rest: RecoverResult)
    ensures JoinAll(done, Join(base, s, rest)) ==
      JoinAll(Recovered(done.segments + [SegmentMetadata(base, s.next, s.size)], done.records + s.records, s.next),
              rest)
  {
    if rest.Ok? {
      Reassociate(done.segments, SegmentMetadata(base, s.next, s.size), rest.value.segments);
      assert done.records + (s.records + rest.value.records) == done.records + s.records + rest.value.records;
    }
  }

  lemma RecoverStep(read: FrameReader, before: seq<SegmentFile>, i: nat, done: Recovered,
                    segments: seq<SegmentMetadata>, expected: nat, r: ScanResult) returns (more: Recovered)
    requires i < |before| && RecoveredSoFar(read, before, i, done, before, segments, expected)
    requires r == RecoverOne(read, before[i], expected, i + 1 == |before|, true)
    ensures r.Err? ==>
      RecoverReports(RecoverFiles(read, before, 0, true), before, Some(r.error), before, segments, expected)
    ensures r.Ok? ==>
      RecoveredSoFar(read, before, i + 1, more, Repaired(before, i, r), segments + Entry(expected, r), r.value.next)
  {
    assert before[i..][0] == before[i] && before[i..][1..] == before[i + 1..];
    more := done;
    if r.Ok? {
      var s := r.value;
      more := Recovered(done.segments + [SegmentMetadata(expected, s.next, s.size)], done.records + s.records, s.next);
      JoinThrice(done, expected, s, RecoverFiles(read, before[i + 1..], s.next, true));
    }
  }

  lemma RecoverEnds(read: FrameReader, before: seq<SegmentFile>, done: Recovered, files: seq<SegmentFile>,
                    segments: seq<SegmentMetadata>, expected: nat)
    requires RecoveredSoFar(read, before, |before|, done, files, segments, expected)
    ensures RecoverReports(RecoverFiles(read, before, 0, true), before, None, files, segments, expected)
  {
    assert before[|before|..] == [] && done.segments + [] == done.segments && done.records + [] == done.records;
  }
}
