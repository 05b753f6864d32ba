/** Checksummed, length-prefixed record frames. */
module Frames {
  import opened Common
  import opened Bytes
  import opened Domain
  import opened Replay

  const FORMAT_VERSION: nat := 1
  const FRAME_HEADER_BYTES: nat := 8

  datatype StorageError = StorageIo | InvalidLogConfig | InvalidFormat | ChecksumMismatch | CorruptSegment | Serde

  datatype PersistedRecord = PersistedRecord(version: nat, log: LogId, offset: nat, envelope: Envelope)

  datatype StoredRecord = StoredRecord(log: LogId, offset: nat, envelope: Envelope)

  /** The JSON codec and the checksum: what is encoded decodes to itself, and a checksum fits 32 bits. */
  datatype RecordCodec = RecordCodec(
    encode: PersistedRecord -> seq<byte>, decode: seq<byte> -> Option<PersistedRecord>, crc: seq<byte> -> nat)
  {
    ghost predicate Faithful() {
      (forall r :: decode(encode(r)) == Some(r)) && forall b :: crc(b) <= U32_MAX
    }
  }

  // ---- frames ----

  function Frame(codec: RecordCodec, payload: seq<byte>): seq<byte> {
    LittleEndian(|payload|, 4) + LittleEndian(codec.crc(payload), 4) + payload
  }

  /** `encode_frame`: a payload has to fit the 32-bit length field. */
  function EncodeFrame(codec: RecordCodec, payload: seq<byte>): Result<seq<byte>, StorageError> {
    if |payload| > U32_MAX then Err(InvalidFormat) else Ok(Frame(codec, payload))
  }

  function Persist(log: LogId, offset: nat, envelope: Envelope): PersistedRecord {
    PersistedRecord(FORMAT_VERSION, log, offset, envelope)
  }

  /** `validate_persisted_record` */
  function Validate(log: LogId, expected: nat, r: PersistedRecord): Result<StoredRecord, StorageError> {
    if r.version != FORMAT_VERSION then Err(InvalidFormat)
    else if r.log.topic != log.topic then Err(CorruptSegment)
    else if r.log.partition != log.partition then Err(CorruptSegment)
    else if r.offset != expected then Err(CorruptSegment)
    else Ok(StoredRecord(r.log, r.offset, r.envelope))
  }

  /** The frame at the start of `rest`: cut short by the end of the file, or `size` bytes long and
      holding a record or the reason it holds none. */
  datatype Verdict = Truncated | Complete(size: nat, record: Result<StoredRecord, StorageError>)

  /** Bytes from the start of `rest` to the end of the frame its length field announces. */
  function FrameSize(rest: seq<byte>): nat
    requires |rest| >= 4
  {
    FRAME_HEADER_BYTES + FromLittleEndian(rest[..4])
  }

  /** Checksum first, then the JSON, then the metadata. */
  function ReadPayload(codec: RecordCodec, log: LogId, checksum: nat, payload: seq<byte>, expected: nat)
    : (r: Result<StoredRecord, StorageError>)
    ensures r.Ok? ==> r.value.log == log && r.value.offset == expected
  {
    if checksum != codec.crc(payload) then Err(ChecksumMismatch)
    else
      match codec.decode(payload)
      case None => Err(Serde)
      case Some(persisted) => Validate(log, expected, persisted)
  }

  function ReadFrame(codec: RecordCodec, log: LogId, rest: seq<byte>, expected: nat): Verdict {
    if |rest| < 4 || |rest| < FrameSize(rest) then Truncated
    else
      var size := FrameSize(rest);
      var checksum := FromLittleEndian(rest[4..FRAME_HEADER_BYTES]);
      Complete(size, ReadPayload(codec, log, checksum, rest[FRAME_HEADER_BYTES..size], expected))
  }

  /** All the scan relies on about frames: one that is complete has bytes and lies within the file, it is
      read from those bytes alone, and cut short it is seen to be truncated. */
  ghost predicate Fits(read: (seq<byte>, nat) -> Verdict, rest: seq<byte>, expected: nat) {
    read(rest, expected).Complete? ==> 1 <= read(rest, expected).size <= |rest|
  }

  ghost predicate Local(read: (seq<byte>, nat) -> Verdict, a: seq<byte>, b: seq<byte>, expected: nat) {
    var v := read(a, expected);
    v.Complete? && 0 <= v.size <= |a| && v.size <= |b| && a[..v.size] == b[..v.size] ==> read(b, expected) == v
  }

  ghost predicate CutShort(read: (seq<byte>, nat) -> Verdict, a: seq<byte>, n: nat, expected: nat) {
    read(a, expected).Complete? && n < read(a, expected).size && n <= |a| ==> read(a[..n], expected) == Truncated
  }

  /** A record found where offset `expected` is due carries that offset. */
  ghost predicate Numbers(read: (seq<byte>, nat) -> Verdict, rest: seq<byte>, expected: nat) {
    var v := read(rest, expected);
    v.Complete? && v.record.Ok? ==> v.record.value.offset == expected
  }

  type FrameReader = read: (seq<byte>, nat) -> Verdict |
      && (forall rest, expected :: Fits(read, rest, expected))
      && (forall a, b, expected :: Local(read, a, b, expected))
      && (forall a, n, expected :: CutShort(read, a, n, expected))
      && (forall rest, expected :: Numbers(read, rest, expected))
    witness (rest, expected) => Truncated

  function Reader(codec: RecordCodec, log: LogId): FrameReader {
    ReaderIsLocal(codec, log);
    (rest: seq<byte>, expected: nat) => ReadFrame(codec, log, rest, expected)
  }

  lemma ReaderIsLocal(codec: RecordCodec, log: LogId)
    ensures var read := (rest: seq<byte>, expected: nat) => ReadFrame(codec, log, rest, expected);
      && (forall rest, expected :: Fits(read, rest, expected))
      && (forall a, b, expected :: Local(read, a, b, expected))
      && (forall a, n, expected :: CutShort(read, a, n, expected))
      && (forall rest, expected :: Numbers(read, rest, expected))
  {
    var read := (rest: seq<byte>, expected: nat) => ReadFrame(codec, log, rest, expected);
    forall a, b, expected: nat ensures Local(read, a, b, expected) {
      var size := if read(a, expected).Complete? then read(a, expected).size else 0;
      if read(a, expected).Complete? && size <= |b| && a[..size] == b[..size] {
        assert a[..size][..4] == a[..4] && b[..size][..4] == b[..4];
        assert a[..size][4..8] == a[4..8] && b[..size][4..8] == b[4..8];
        assert a[..size][8..] == a[8..size] && b[..size][8..] == b[8..size];
      }
    }
    forall a, n: nat, expected: nat ensures CutShort(read, a, n, expected) {
      if n <= |a| && n >= 4 { assert a[..n][..4] == a[..4]; }
    }
  }

  ghost predicate GoodFrame(read: FrameReader, rest: seq<byte>, expected: nat) {
    read(rest, expected).Complete? && read(rest, expected).record.Ok?
  }

  /** Where a frame ends is decided by its length field alone. */
  lemma LengthDecides(codec: RecordCodec, log: LogId, rest: seq<byte>, expected: nat)
    ensures var v := Reader(codec, log)(rest, expected);
      && (v.Complete? <==> |rest| >= 4 && FrameSize(rest) <= |rest|)
      && (v.Complete? ==> v.size == FrameSize(rest))
  {
  }

  /** A frame reads back as the record it was made from, whatever follows it. */
  lemma FrameReadsBack(codec: RecordCodec, log: LogId, expected: nat, envelope: Envelope, more: seq<byte>)
    requires codec.Faithful() && |codec.encode(Persist(log, expected, envelope))| <= U32_MAX
    ensures var frame := Frame(codec, codec.encode(Persist(log, expected, envelope)));
      Reader(codec, log)(frame + more, expected) == Complete(|frame|, Ok(StoredRecord(log, expected, envelope)))
  {
    var payload := codec.encode(Persist(log, expected, envelope));
    var rest := Frame(codec, payload) + more;
    Widths();
    LittleEndianRoundTrip(|payload|, 4);
    LittleEndianRoundTrip(codec.crc(payload), 4);
    assert rest[..4] == LittleEndian(|payload|, 4);
    assert rest[4..8] == LittleEndian(codec.crc(payload), 4);
    assert rest[8..8 + |payload|] == payload;
  }

  // ---- every frame, by its bytes ----

  /** A frame as it may be found: a payload under any checksum. */
  function RawFrame(checksum: nat, payload: seq<byte>): seq<byte> {
    LittleEndian(|payload|, 4) + LittleEndian(checksum, 4) + payload
  }

  /** The payload of a frame is good: under its own checksum, in this format, the record due here. */
  ghost predicate IsRecord(codec: RecordCodec, log: LogId, expected: nat, checksum: nat, payload: seq<byte>,
                           envelope: Envelope) {
    checksum == codec.crc(payload) && codec.decode(payload) == Some(PersistedRecord(1, log, expected, envelope))
  }

  /** What is wrong with the payload: first its checksum, then its JSON, then its format version, then the topic,
      partition or offset it names. */
  ghost predicate IsWrong(codec: RecordCodec, log: LogId, expected: nat, checksum: nat, payload: seq<byte>,
                          e: StorageError) {
    if checksum != codec.crc(payload) then e == ChecksumMismatch
    else if codec.decode(payload).None? then e == Serde
    else
      var r := codec.decode(payload).value;
      if r.version != 1 then e == InvalidFormat else e == CorruptSegment && (r.log != log || r.offset != expected)
  }

  lemma RawFields(checksum: nat, payload: seq<byte>, more: seq<byte>)
    requires |payload| <= U32_MAX && checksum <= U32_MAX
    ensures var rest := RawFrame(checksum, payload) + more;
      && |RawFrame(checksum, payload)| == 8 + |payload|
      && FromLittleEndian(rest[..4]) == |payload| && FromLittleEndian(rest[4..8]) == checksum
      && rest[8..8 + |payload|] == payload
  {
    var rest := RawFrame(checksum, payload) + more;
    Widths();
    LittleEndianRoundTrip(|payload|, 4);
    LittleEndianRoundTrip(checksum, 4);
    assert rest[..4] == LittleEndian(|payload|, 4) && rest[4..8] == LittleEndian(checksum, 4);
    assert rest[8..8 + |payload|] == payload;
  }

  /** The verdict on any complete frame: the record it holds, or exactly what is wrong with it. */
  lemma {:induction false} FrameVerdict(codec: RecordCodec, log: LogId, expected: nat, checksum: nat,
                                        payload: seq<byte>, more: seq<byte>)
    requires |payload| <= U32_MAX && checksum <= U32_MAX
    ensures var v := Reader(codec, log)(RawFrame(checksum, payload) + more, expected);
      && v.Complete? && v.size == 8 + |payload|
      && (forall e :: v.record == Err(e) <==> IsWrong(codec, log, expected, checksum, payload, e))
      && (forall r :: v.record == Ok(r) <==>
            && IsRecord(codec, log, expected, checksum, payload, r.envelope)
            && r == StoredRecord(log, expected, r.envelope))
  {
    RawFields(checksum, payload, more);
  }

  /** Anything else is cut short: every complete frame has these bytes. */
  lemma {:induction false} CompleteFrame(codec: RecordCodec, log: LogId, expected: nat, rest: seq<byte>)
      returns (checksum: nat, payload: seq<byte>, more: seq<byte>)
    requires Reader(codec, log)(rest, expected).Complete?
    ensures |payload| <= U32_MAX && checksum <= U32_MAX && rest == RawFrame(checksum, payload) + more
  {
    var size := 8 + FromLittleEndian(rest[..4]);
    checksum, payload, more := FromLittleEndian(rest[4..8]), rest[8..size], rest[size..];
    Widths();
    FromLittleEndianBound(rest[..4]);
    FromLittleEndianBound(rest[4..8]);
    ReadBack(rest[..4]);
    ReadBack(rest[4..8]);
    assert rest == rest[..4] + rest[4..8] + rest[8..size] + rest[size..];
  }

  lemma {:induction false} ReadBack(b: seq<byte>)
    ensures LittleEndian(FromLittleEndian(b), |b|) == b
  {
    if b == [] {
    } else {
      ReadBack(b[1..]);
      assert b == [b[0]] + b[1..];
    }
  }
}
