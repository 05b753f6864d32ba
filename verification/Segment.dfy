/** One segment file: the scan that reads its frames back, and what it makes of a file that was cut or
    damaged. */
module Segment {
  import opened Common
  import opened Bytes
  import opened Domain
  import opened Replay
  import opened Frames

  datatype Scan = Scan(records: seq<StoredRecord>, next: nat, size: nat)

  type ScanResult = Result<Scan, StorageError>

  /** What the scan makes of the rest of a file. With `repair`, damage in the last frame ends the scan at
      the start of that frame; `size` is how many bytes are kept. */
  function ScanRest(read: FrameReader, rest: seq<byte>, expected: nat, repair: bool): (r: ScanResult)
    ensures r.Ok? ==> r.value.size <= |rest|
    decreases |rest|
  {
    if rest == [] then Ok(Scan([], expected, 0))
    else
      assert Fits(read, rest, expected);
      match read(rest, expected)
      case Truncated => if repair then Ok(Scan([], expected, 0)) else Err(CorruptSegment)
      case Complete(size, Err(e)) => if repair && size == |rest| then Ok(Scan([], expected, 0)) else Err(e)
      case Complete(size, Ok(r)) =>
        if expected + 1 > U64_MAX then Err(InvalidFormat)
        else Prepend([r], size, ScanRest(read, rest[size..], expected + 1, repair))
  }

  function Prepend(records: seq<StoredRecord>, size: nat, rest: ScanResult): ScanResult {
    match rest
    case Err(e) => Err(e)
    case Ok(s) => Ok(Scan(records + s.records, s.next, size + s.size))
  }

  lemma PrependTwice(a: seq<StoredRecord>, m: nat, b: seq<StoredRecord>, n: nat, rest: ScanResult)
    ensures Prepend(a, m, Prepend(b, n, rest)) == Prepend(a + b, m + n, rest)
  {
    if rest.Ok? { assert a + (b + rest.value.records) == a + b + rest.value.records; }
  }

  lemma PrependNothing(rest: ScanResult)
    ensures Prepend([], 0, rest) == rest
  {
    if rest.Ok? { assert [] + rest.value.records == rest.value.records; }
  }

  lemma DropTwice(file: seq<byte>, m: nat, n: nat)
    requires m + n <= |file|
    ensures file[m..][n..] == file[m + n..]
  {
  }

  /** The scan has read `records` from the first `position` bytes and goes on at `expected`. */
  ghost predicate Scanned(read: FrameReader, file: seq<byte>, start: nat, repair: bool,
                          position: nat, expected: nat, records: seq<StoredRecord>) {
    position <= |file|
    && ScanRest(read, file, start, repair) ==
       Prepend(records, position, ScanRest(read, file[position..], expected, repair))
  }

  lemma ScanBegins(read: FrameReader, file: seq<byte>, start: nat, repair: bool)
    ensures Scanned(read, file, start, repair, 0, start, [])
  {
    assert file[0..] == file;
    PrependNothing(ScanRest(read, file, start, repair));
  }

  lemma ScanGoesOn(read: FrameReader, file: seq<byte>, start: nat, repair: bool,
                   position: nat, expected: nat, records: seq<StoredRecord>, size: nat, r: StoredRecord)
    requires Scanned(read, file, start, repair, position, expected, records)
    requires position < |file| && read(file[position..], expected) == Complete(size, Ok(r))
    ensures position + size <= |file|
    ensures expected + 1 > U64_MAX ==> ScanRest(read, file, start, repair) == Err(InvalidFormat)
    ensures expected + 1 <= U64_MAX ==> Scanned(read, file, start, repair, position + size, expected + 1, records + [r])
  {
    assert Fits(read, file[position..], expected);
    DropTwice(file, position, size);
    PrependTwice(records, position, [r], size, ScanRest(read, file[position + size..], expected + 1, repair));
  }

  lemma ScanStops(read: FrameReader, file: seq<byte>, start: nat, repair: bool,
                  position: nat, expected: nat, records: seq<StoredRecord>)
    requires Scanned(read, file, start, repair, position, expected, records)
    requires !GoodFrame(read, file[position..], expected)
    ensures var v := read(file[position..], expected);
      ScanRest(read, file, start, repair) ==
      if position == |file| || (repair && (v.Truncated? || position + v.size == |file|))
      then Ok(Scan(records, expected, position))
      else Err(if v.Truncated? then CorruptSegment else v.record.error)
  {
    assert records + [] == records;
  }

  /** `scan_segment` */
  method ScanSegment(read: FrameReader, file: seq<byte>, start: nat, repair: bool) returns (r: ScanResult)
    ensures r == ScanRest(read, file, start, repair)
  {
    var position, expected: nat := 0, start;
    var records := [];
    ScanBegins(read, file, start, repair);
    while position < |file|
      invariant Scanned(read, file, start, repair, position, expected, records)
    {
      match read(file[position..], expected) {
        case Truncated =>
          ScanStops(read, file, start, repair, position, expected, records);
          return if repair then Ok(Scan(records, expected, position)) else Err(CorruptSegment);
        case Complete(size, Err(e)) =>
          ScanStops(read, file, start, repair, position, expected, records);
          return if repair && position + size == |file| then Ok(Scan(records, expected, position)) else Err(e);
        case Complete(size, Ok(record)) =>
          assert Fits(read, file[position..], expected);
          ScanGoesOn(read, file, start, repair, position, expected, records, size, record);
          if expected + 1 > U64_MAX {
            return Err(InvalidFormat);
          }
          records := records + [record];
          position, expected := position + size, expected + 1;
      }
    }
    assert Fits(read, file[position..], expected);
    ScanStops(read, file, start, repair, position, expected, records);
    r := Ok(Scan(records, expected, position));
  }

  /** Whatever the bytes, a scan that succeeds counts its records, and keeps all of the file unless it repairs. */
  lemma {:induction false} ScanCounts(read: FrameReader, rest: seq<byte>, expected: nat, repair: bool)
    requires ScanRest(read, rest, expected, repair).Ok?
    ensures var s := ScanRest(read, rest, expected, repair).value;
      && s.next == expected + |s.records| && (s.records != [] ==> s.next <= U64_MAX)
      && (!repair ==> s.size == |rest|) && (s.size == 0 <==> s.records == [])
    decreases |rest|
  {
    if rest != [] && GoodFrame(read, rest, expected) {
      assert Fits(read, rest, expected);
      ScanCounts(read, rest[read(rest, expected).size..], expected + 1, repair);
    }
  }

  /** ... and numbers them consecutively from the start offset. */
  lemma {:induction false} ScanNumbers(read: FrameReader, rest: seq<byte>, expected: nat, repair: bool)
    requires ScanRest(read, rest, expected, repair).Ok?
    ensures var found := ScanRest(read, rest, expected, repair).value.records;
      forall i :: 0 <= i < |found| ==> found[i].offset == expected + i
    decreases |rest|
  {
    if rest != [] && GoodFrame(read, rest, expected) {
      assert Fits(read, rest, expected) && Numbers(read, rest, expected);
      ScanNumbers(read, rest[read(rest, expected).size..], expected + 1, repair);
    }
  }

  // ---- good frames first, anything after ----

  lemma AfterOneGood(read: FrameReader, a: seq<byte>, more: seq<byte>, expected: nat, repair: bool, size: nat,
                     r: StoredRecord)
    requires read(a, expected) == Complete(size, Ok(r)) && size <= |a| && a != [] && expected + 1 <= U64_MAX
    ensures ScanRest(read, a + more, expected, repair) ==
            Prepend([r], size, ScanRest(read, a[size..] + more, expected + 1, repair))
  {
    assert (a + more)[..size] == a[..size] && (a + more)[size..] == a[size..] + more;
    assert Local(read, a, a + more, expected);
  }

  /** Bytes that a strict scan accepts are a good frame and more such bytes. */
  lemma FirstGood(read: FrameReader, a: seq<byte>, expected: nat) returns (size: nat, r: StoredRecord, t: Scan)
    requires ScanRest(read, a, expected, false).Ok? && a != []
    ensures read(a, expected) == Complete(size, Ok(r)) && 1 <= size <= |a| && expected + 1 <= U64_MAX
    ensures ScanRest(read, a[size..], expected + 1, false) == Ok(t)
    ensures ScanRest(read, a, expected, false) == Ok(Scan([r] + t.records, t.next, size + t.size))
  {
    assert Fits(read, a, expected);
    size, r := read(a, expected).size, read(a, expected).record.value;
    t := ScanRest(read, a[size..], expected + 1, false).value;
  }

  /** A file that starts with bytes a strict scan accepts: the scan reads those and goes on behind them. */
  lemma {:induction false} ScanAfterGood(read: FrameReader, a: seq<byte>, more: seq<byte>, expected: nat, repair: bool)
    requires ScanRest(read, a, expected, false).Ok?
    ensures var s := ScanRest(read, a, expected, false).value;
      ScanRest(read, a + more, expected, repair) == Prepend(s.records, |a|, ScanRest(read, more, s.next, repair))
    decreases |a|
  {
    if a == [] {
      assert a + more == more;
      PrependNothing(ScanRest(read, more, expected, repair));
    } else {
      var size, r, t := FirstGood(read, a, expected);
      var behind := ScanRest(read, more, t.next, repair);
      calc {
        ScanRest(read, a + more, expected, repair);
      == { AfterOneGood(read, a, more, expected, repair, size, r); }
        Prepend([r], size, ScanRest(read, a[size..] + more, expected + 1, repair));
      == { ScanAfterGood(read, a[size..], more, expected + 1, repair); }
        Prepend([r], size, Prepend(t.records, |a| - size, behind));
      == { PrependTwice([r], size, t.records, |a| - size, behind); }
        Prepend([r] + t.records, |a|, behind);
      }
    }
  }

  /** Repairing changes nothing in a file without damage. */
  lemma RepairOfGood(read: FrameReader, a: seq<byte>, expected: nat)
    requires ScanRest(read, a, expected, false).Ok?
    ensures ScanRest(read, a, expected, true) == ScanRest(read, a, expected, false)
  {
    ScanAfterGood(read, a, [], expected, true);
    ScanCounts(read, a, expected, false);
    var s := ScanRest(read, a, expected, false).value;
    assert a + [] == a && s.records + [] == s.records;
  }

  lemma OneFrame(codec: RecordCodec, log: LogId, expected: nat, envelope: Envelope)
    requires codec.Faithful() && expected < U64_MAX && |codec.encode(Persist(log, expected, envelope))| <= U32_MAX
    ensures var frame := Frame(codec, codec.encode(Persist(log, expected, envelope)));
      ScanRest(Reader(codec, log), frame, expected, false) ==
      Ok(Scan([StoredRecord(log, expected, envelope)], expected + 1, |frame|))
  {
    var frame, r := Frame(codec, codec.encode(Persist(log, expected, envelope))), StoredRecord(log, expected, envelope);
    FrameReadsBack(codec, log, expected, envelope, []);
    assert frame + [] == frame && frame[|frame|..] == [] && [r] + [] == [r];
    assert ScanRest(Reader(codec, log), [], expected + 1, false) == Ok(Scan([], expected + 1, 0));
  }

  /** One more frame is one more record. */
  lemma OneMore(read: FrameReader, a: seq<byte>, frame: seq<byte>, expected: nat, r: StoredRecord)
    requires ScanRest(read, a, expected, false).Ok?
    requires var next := ScanRest(read, a, expected, false).value.next;
      ScanRest(read, frame, next, false) == Ok(Scan([r], next + 1, |frame|))
    ensures var s := ScanRest(read, a, expected, false).value;
      ScanRest(read, a + frame, expected, false) == Ok(Scan(s.records + [r], s.next + 1, |a + frame|))
  {
    ScanAfterGood(read, a, frame, expected, false);
  }

  // ---- damage ----

  lemma CutBehind(file: seq<byte>, size: nat, n: nat)
    requires size <= n <= |file|
    ensures file[..n][..size] == file[..size] && file[..n][size..] == file[size..][..n - size]
  {
  }

  /** Scanning a file cut behind its first frame reads that frame and goes on in the cut rest. */
  lemma ScanOfCut(read: FrameReader, file: seq<byte>, start: nat, n: nat, repair: bool, size: nat, r: StoredRecord)
    requires read(file, start) == Complete(size, Ok(r)) && start + 1 <= U64_MAX && 1 <= size <= n <= |file|
    ensures ScanRest(read, file[..n], start, repair) ==
            Prepend([r], size, ScanRest(read, file[size..][..n - size], start + 1, repair))
  {
    CutBehind(file, size, n);
    assert Local(read, file, file[..n], start);
  }

  /** Whatever the file contains: once a repairing scan has succeeded, a strict scan of what it left gives
      the same records, so scanning again repairs nothing further. */
  lemma {:induction false} RepairedIsGood(read: FrameReader, file: seq<byte>, start: nat)
    requires ScanRest(read, file, start, true).Ok?
    ensures var s := ScanRest(read, file, start, true).value;
      ScanRest(read, file[..s.size], start, false) == Ok(s)
    decreases |file|
  {
    if file != [] && GoodFrame(read, file, start) {
      assert Fits(read, file, start);
      var size, r := read(file, start).size, read(file, start).record.value;
      RepairedIsGood(read, file[size..], start + 1);
      ScanOfCut(read, file, start, ScanRest(read, file, start, true).value.size, false, size, r);
    }
  }

  /** A repairing scan of the first `n` bytes of an undamaged file reads its first `k` frames and keeps the
      file up to their end; the frame behind them, if any, does not fit the cut. */
  ghost predicate TornAt(read: FrameReader, file: seq<byte>, start: nat, n: nat, k: nat, end: nat) {
    var whole := ScanRest(read, file, start, false);
    && n <= |file| && whole.Ok? && k <= |whole.value.records| && end <= n
    && (end == |file| || (read(file[end..], start + k).Complete? && n < end + read(file[end..], start + k).size))
    && ScanRest(read, file[..n], start, true) == Ok(Scan(whole.value.records[..k], start + k, end))
  }

  lemma TornFirstFrame(read: FrameReader, file: seq<byte>, start: nat, n: nat)
    requires ScanRest(read, file, start, false).Ok? && GoodFrame(read, file, start)
    requires n < read(file, start).size && n <= |file|
    ensures TornAt(read, file, start, n, 0, 0)
  {
    assert CutShort(read, file, n, start) && file[0..] == file;
  }

  lemma PrependToCut(r: StoredRecord, size: nat, whole: ScanResult, cut: ScanResult, k: nat, next: nat, end: nat)
    requires whole.Ok? && k <= |whole.value.records| && cut == Ok(Scan(whole.value.records[..k], next, end))
    ensures var all := Prepend([r], size, whole);
      k + 1 <= |all.value.records| && Prepend([r], size, cut) == Ok(Scan(all.value.records[..k + 1], next, size + end))
  {
    assert ([r] + whole.value.records)[..k + 1] == [r] + whole.value.records[..k];
  }

  lemma TornLaterFrame(read: FrameReader, file: seq<byte>, start: nat, n: nat, size: nat, r: StoredRecord, k: nat,
                       end: nat)
    requires read(file, start) == Complete(size, Ok(r)) && start + 1 <= U64_MAX && 1 <= size <= n <= |file|
    requires TornAt(read, file[size..], start + 1, n - size, k, end)
    ensures TornAt(read, file, start, n, k + 1, size + end)
  {
    ScanOfCut(read, file, start, n, true, size, r);
    DropTwice(file, size, end);
    PrependToCut(r, size, ScanRest(read, file[size..], start + 1, false),
                 ScanRest(read, file[size..][..n - size], start + 1, true), k, start + 1 + k, end);
  }

  /** A torn tail: cutting an undamaged file at any byte loses exactly the frames not wholly inside the cut. */
  lemma {:induction false} TornTail(read: FrameReader, file: seq<byte>, start: nat, n: nat) returns (k: nat, end: nat)
    requires ScanRest(read, file, start, false).Ok? && n <= |file|
    ensures TornAt(read, file, start, n, k, end)
    decreases |file|
  {
    assert Fits(read, file, start);
    if file == [] {
      k, end := 0, 0;
      assert file[..n] == [];
    } else {
      var size, r := read(file, start).size, read(file, start).record.value;
      if n < size {
        k, end := 0, 0;
        TornFirstFrame(read, file, start, n);
      } else {
        k, end := TornTail(read, file[size..], start + 1, n - size);
        TornLaterFrame(read, file, start, n, size, r, k, end);
        k, end := k + 1, size + end;
      }
    }
  }

  /** A frame of intact length that holds no valid record, behind good bytes `a` and before `more`: the
      scan reports it, unless it repairs and the frame is the last one, which it then drops alone. */
  lemma DamagedFrame(read: FrameReader, a: seq<byte>, frame: seq<byte>, more: seq<byte>, start: nat, repair: bool,
                     e: StorageError)
    requires ScanRest(read, a, start, false).Ok? && frame != []
    requires read(frame, ScanRest(read, a, start, false).value.next) == Complete(|frame|, Err(e))
    ensures ScanRest(read, a + frame + more, start, repair) ==
      if repair && more == [] then ScanRest(read, a, start, false) else Err(e)
  {
    var s := ScanRest(read, a, start, false).value;
    ScanCounts(read, a, start, false);
    assert a + frame + more == a + (frame + more);
    ScanAfterGood(read, a, frame + more, start, repair);
    assert (frame + more)[..|frame|] == frame[..|frame|];
    assert Local(read, frame, frame + more, s.next);
    assert s.records + [] == s.records;
  }

  /** When damage behind good bytes is reported: exactly when the frame found there ends before the end of
      the file. Damage that makes it reach the end or beyond is taken for a torn tail. */
  lemma {:induction false} DamageReportedIff(read: FrameReader, a: seq<byte>, rest: seq<byte>, start: nat)
    requires ScanRest(read, a, start, false).Ok? && rest != []
    requires !GoodFrame(read, rest, ScanRest(read, a, start, false).value.next)
    ensures var scan := ScanRest(read, a + rest, start, true);
      var v := read(rest, ScanRest(read, a, start, false).value.next);
      && (scan.Err? <==> v.Complete? && v.size < |rest|)
      && (scan.Ok? ==> scan == ScanRest(read, a, start, false))
  {
    var s := ScanRest(read, a, start, false).value;
    ScanCounts(read, a, start, false);
    ScanAfterGood(read, a, rest, start, true);
    assert Fits(read, rest, s.next);
    assert s.records + [] == s.records;
  }

  /** So the documented promise that damage in a middle record is an error fails: enlarging the length
      field of a frame past the end of the file silently drops it and every valid frame after it. */
  lemma EnlargedLengthDropsTail(codec: RecordCodec, log: LogId, a: seq<byte>, frame: seq<byte>, more: seq<byte>,
                                start: nat, length: nat)
    requires ScanRest(Reader(codec, log), a + frame + more, start, false).Ok?
    requires ScanRest(Reader(codec, log), a, start, false).Ok?
    requires |frame| >= FRAME_HEADER_BYTES && length <= U32_MAX && |frame| + |more| < FRAME_HEADER_BYTES + length
    ensures var damaged := a + (LittleEndian(length, 4) + frame[4..]) + more;
      ScanRest(Reader(codec, log), damaged, start, true) == ScanRest(Reader(codec, log), a, start, false)
  {
    var rest := LittleEndian(length, 4) + frame[4..] + more;
    assert a + (LittleEndian(length, 4) + frame[4..]) + more == a + rest;
    assert rest[..4] == LittleEndian(length, 4);
    Widths();
    LittleEndianRoundTrip(length, 4);
    LengthDecides(codec, log, rest, ScanRest(Reader(codec, log), a, start, false).value.next);
    DamageReportedIff(Reader(codec, log), a, rest, start);
  }
}
