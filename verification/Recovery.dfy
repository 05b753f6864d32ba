/** The segment files of one partition: recovering the log from them, and what cutting or damaging one
    of them does to it. */
module Recovery {
  import opened Common
  import opened Replay
  import opened Frames
  import opened Segment

  /** A segment file by its base offset, which is its name. */
  datatype SegmentFile = SegmentFile(base: nat, bytes: seq<byte>)

  datatype SegmentMetadata = SegmentMetadata(base: nat, next: nat, size: nat)

  datatype Recovered = Recovered(segments: seq<SegmentMetadata>, records: seq<StoredRecord>, next: nat)

  type RecoverResult = Result<Recovered, StorageError>

  function RecoverOne(read: FrameReader, file: SegmentFile, expected: nat, isFinal: bool, repair: bool): (r: ScanResult)
    ensures r.Ok? ==> r.value.size <= |file.bytes|
  {
    if file.base != expected then Err(CorruptSegment)
    else
      match ScanRest(read, file.bytes, expected, repair && isFinal)
      case Err(e) => Err(e)
      case Ok(s) => if s.size == 0 && !isFinal then Err(CorruptSegment) else Ok(s)
  }

  /** The log held by segment files in base-offset order: bases have to tile the offsets, only the last
      file may be empty, and only the last is repaired, if at all. */
  function RecoverFiles(read: FrameReader, files: seq<SegmentFile>, expected: nat, repair: bool): RecoverResult
    decreases |files|
  {
    if files == [] then Ok(Recovered([], [], expected))
    else
      match RecoverOne(read, files[0], expected, |files| == 1, repair)
      case Err(e) => Err(e)
      case Ok(s) => Join(expected, s, RecoverFiles(read, files[1..], s.next, repair))
  }

  function Join(base: nat, s: Scan, rest: RecoverResult): RecoverResult {
    match rest
    case Err(e) => Err(e)
    case Ok(r) => Ok(Recovered([SegmentMetadata(base, s.next, s.size)] + r.segments, s.records + r.records, r.next))
  }

  /** The files as recovery leaves them: a failed one touches nothing, a successful one cuts the last file. */
  function KeptFiles(files: seq<SegmentFile>, r: RecoverResult): seq<SegmentFile>
    requires r.Ok? ==> |r.value.segments| == |files|
    requires r.Ok? && files != [] ==> r.value.segments[|files| - 1].size <= |files[|files| - 1].bytes|
  {
    if r.Err? || files == [] then files
    else
      var last := |files| - 1;
      files[last := SegmentFile(files[last].base, files[last].bytes[..r.value.segments[last].size])]
  }

  lemma {:induction false} RecoveredSizes(read: FrameReader, files: seq<SegmentFile>, expected: nat, repair: bool)
    requires RecoverFiles(read, files, expected, repair).Ok?
    ensures var r := RecoverFiles(read, files, expected, repair).value;
      && |r.segments| == |files| && r.next == expected + |r.records| && (r.records != [] ==> r.next <= U64_MAX)
      && (files != [] ==> r.segments[|files| - 1].size <= |files[|files| - 1].bytes|)
    decreases |files|
  {
    if files == [] {
    } else {
      ScanCounts(read, files[0].bytes, expected, repair && |files| == 1);
      var s := ScanRest(read, files[0].bytes, expected, repair && |files| == 1).value;
      RecoveredSizes(read, files[1..], s.next, repair);
    }
  }

  /** What recovery says of segment `i`, `from` being the offset the first segment starts at: it holds the
      records between its two offsets, and the next segment starts where it ends. */
  ghost predicate SegmentHolds(read: FrameReader, files: seq<SegmentFile>, from: nat, r: Recovered, i: nat) {
    i < |files| && |r.segments| == |files| ==>
      var m := r.segments[i];
      && files[i].base == m.base && from <= m.base <= m.next <= r.next && r.next - from == |r.records|
      && ScanRest(read, files[i].bytes, m.base, false) ==
         Ok(Scan(r.records[m.base - from..m.next - from], m.next, m.size))
      && m.size == |files[i].bytes|
      && (i == 0 ==> m.base == from)
      && (if i + 1 < |files| then m.base < m.next == r.segments[i + 1].base else m.next == r.next)
  }

  lemma FirstHolds(read: FrameReader, files: seq<SegmentFile>, from: nat)
    requires RecoverFiles(read, files, from, false).Ok? && files != []
    ensures SegmentHolds(read, files, from, RecoverFiles(read, files, from, false).value, 0)
  {
    var r, s := RecoverFiles(read, files, from, false).value, ScanRest(read, files[0].bytes, from, false).value;
    ScanCounts(read, files[0].bytes, from, false);
    RecoveredSizes(read, files, from, false);
    RecoveredSizes(read, files[1..], s.next, false);
    assert r.records[..|s.records|] == s.records;
  }

  /** What holds of a segment in the tail of the log holds of it in the log. */
  lemma HoldsInTail(read: FrameReader, files: seq<SegmentFile>, from: nat, r: Recovered, s: Scan, rest: Recovered,
                    i: nat)
    requires 1 <= i < |files| && s.next == from + |s.records|
    requires Join(from, s, Ok(rest)) == Ok(r) && |r.segments| == |files|
    requires s.size > 0 <==> s.records != []
    requires SegmentHolds(read, files[1..], s.next, rest, i - 1)
    ensures SegmentHolds(read, files, from, r, i)
  {
    var m := r.segments[i];
    assert m == rest.segments[i - 1] && files[1..][i - 1] == files[i];
    assert r.records[m.base - from..m.next - from] == rest.records[m.base - s.next..m.next - s.next];
    if i + 1 < |files| { assert r.segments[i + 1] == rest.segments[i]; }
  }

  lemma {:induction false} SegmentsHold(read: FrameReader, files: seq<SegmentFile>, from: nat, i: nat)
    requires RecoverFiles(read, files, from, false).Ok? && i < |files|
    ensures SegmentHolds(read, files, from, RecoverFiles(read, files, from, false).value, i)
    decreases |files|
  {
    if i == 0 {
      FirstHolds(read, files, from);
    } else {
      var s := ScanRest(read, files[0].bytes, from, false).value;
      ScanCounts(read, files[0].bytes, from, false);
      RecoveredSizes(read, files, from, false);
      SegmentsHold(read, files[1..], s.next, i - 1);
      HoldsInTail(read, files, from, RecoverFiles(read, files, from, false).value, s,
                  RecoverFiles(read, files[1..], s.next, false).value, i);
    }
  }

  // ---- full segments first, anything after ----

  /** A log of which every segment, the last included, has records. */
  ghost predicate AllFull(r: Recovered) {
    forall i :: 0 <= i < |r.segments| ==> r.segments[i].size > 0
  }

  function JoinAll(front: Recovered, rest: RecoverResult): RecoverResult {
    match rest
    case Err(e) => Err(e)
    case Ok(r) => Ok(Recovered(front.segments + r.segments, front.records + r.records, r.next))
  }

  lemma JoinTwice(base: nat, s: Scan, front: Recovered, rest: RecoverResult)
    ensures Join(base, s, JoinAll(front, rest)) == JoinAll(Join(base, s, Ok(front)).value, rest)
  {
    if rest.Ok? {
      assert [SegmentMetadata(base, s.next, s.size)] + (front.segments + rest.value.segments)
          == [SegmentMetadata(base, s.next, s.size)] + front.segments + rest.value.segments;
      assert s.records + (front.records + rest.value.records) == s.records + front.records + rest.value.records;
    }
  }

  lemma {:induction false} RecoverAfterFull(read: FrameReader, front: seq<SegmentFile>, rest: seq<SegmentFile>,
                                            from: nat, repair: bool)
    requires RecoverFiles(read, front, from, false).Ok? && AllFull(RecoverFiles(read, front, from, false).value)
    requires rest != []
    ensures var f := RecoverFiles(read, front, from, false).value;
      RecoverFiles(read, front + rest, from, repair) == JoinAll(f, RecoverFiles(read, rest, f.next, repair))
    decreases |front|
  {
    if front == [] {
      assert front + rest == rest;
      var r := RecoverFiles(read, rest, from, repair);
      if r.Ok? { assert [] + r.value.segments == r.value.segments && [] + r.value.records == r.value.records; }
    } else {
      var s := ScanRest(read, front[0].bytes, from, false).value;
      var t := RecoverFiles(read, front[1..], s.next, false).value;
      var f := RecoverFiles(read, front, from, false).value;
      assert f.segments[0].size > 0 && f.segments[1..] == t.segments;
      forall i | 0 <= i < |t.segments| ensures t.segments[i].size > 0 { assert f.segments[i + 1] == t.segments[i]; }
      RecoverAfterFull(read, front[1..], rest, s.next, repair);
      assert (front + rest)[0] == front[0] && (front + rest)[1..] == front[1..] + rest;
      JoinTwice(from, s, t, RecoverFiles(read, rest, t.next, repair));
    }
  }

  /** All but the last segment of a recovered log are full, and recover on their own. */
  lemma {:induction false} FrontIsFull(read: FrameReader, files: seq<SegmentFile>, from: nat, repair: bool)
    requires RecoverFiles(read, files, from, repair).Ok? && files != []
    ensures var front := RecoverFiles(read, files[..|files| - 1], from, false);
      front.Ok? && AllFull(front.value)
    decreases |files|
  {
    if |files| > 1 {
      var last := |files| - 1;
      var s := ScanRest(read, files[0].bytes, from, false).value;
      FrontIsFull(read, files[1..], s.next, repair);
      assert files[..last][0] == files[0] && files[..last][1..] == files[1..][..|files[1..]| - 1];
      var t := RecoverFiles(read, files[..last][1..], s.next, false).value;
      assert RecoverFiles(read, files[..last], from, false).Ok?;
      var front := RecoverFiles(read, files[..last], from, false).value;
      forall i | 0 <= i < |front.segments| ensures front.segments[i].size > 0 {
        if i > 0 { assert front.segments[i] == t.segments[i - 1]; }
      }
    } else {
      assert files[..0] == [];
    }
  }

  function LastOnly(base: nat, scan: ScanResult): RecoverResult {
    match scan
    case Err(e) => Err(e)
    case Ok(s) => Ok(Recovered([SegmentMetadata(base, s.next, s.size)], s.records, s.next))
  }

  lemma OneFile(read: FrameReader, file: SegmentFile, base: nat, repair: bool)
    ensures RecoverFiles(read, [file], base, repair) ==
      if file.base != base then Err(CorruptSegment) else LastOnly(base, ScanRest(read, file.bytes, base, repair))
  {
    var scan := ScanRest(read, file.bytes, base, repair);
    assert [file][1..] == [];
    if scan.Ok? {
      assert RecoverFiles(read, [], scan.value.next, repair) == Ok(Recovered([], [], scan.value.next));
      assert scan.value.records + [] == scan.value.records;
      assert [SegmentMetadata(base, scan.value.next, scan.value.size)] + [] ==
          [SegmentMetadata(base, scan.value.next, scan.value.size)];
    }
  }

  ghost predicate IsFront(read: FrameReader, files: seq<SegmentFile>, from: nat, front: Recovered) {
    && files != [] && RecoverFiles(read, files[..|files| - 1], from, false) == Ok(front) && AllFull(front)
    && |front.segments| == |files| - 1 && front.next == from + |front.records| && files[|files| - 1].base == front.next
  }

  /** Replacing the last file: recovery is that of the front, joined with the scan of the new last file. */
  lemma ReplaceLast(read: FrameReader, files: seq<SegmentFile>, from: nat, front: Recovered, bytes: seq<byte>,
                    repair: bool)
    requires IsFront(read, files, from, front)
    ensures RecoverFiles(read, files[|files| - 1 := SegmentFile(front.next, bytes)], from, repair) ==
            JoinAll(front, LastOnly(front.next, ScanRest(read, bytes, front.next, repair)))
  {
    var last, file := |files| - 1, SegmentFile(front.next, bytes);
    assert files[last := file] == files[..last] + [file];
    RecoverAfterFull(read, files[..last], [file], from, repair);
    OneFile(read, file, front.next, repair);
  }

  /** A recovered log is its full front and the last segment. */
  lemma SplitLast(read: FrameReader, files: seq<SegmentFile>, from: nat, repair: bool)
      returns (front: Recovered, s: Scan)
    requires RecoverFiles(read, files, from, repair).Ok? && files != []
    ensures IsFront(read, files, from, front)
    ensures ScanRest(read, files[|files| - 1].bytes, front.next, repair) == Ok(s) && s.next == front.next + |s.records|
    ensures RecoverFiles(read, files, from, repair) ==
            Ok(Recovered(front.segments + [SegmentMetadata(front.next, s.next, s.size)],
                         front.records + s.records, s.next))
  {
    var last := |files| - 1;
    FrontIsFull(read, files, from, repair);
    front := RecoverFiles(read, files[..last], from, false).value;
    RecoveredSizes(read, files[..last], from, false);
    assert files == files[..last] + [files[last]];
    RecoverAfterFull(read, files[..last], [files[last]], from, repair);
    OneFile(read, files[last], front.next, repair);
    s := ScanRest(read, files[last].bytes, front.next, repair).value;
    ScanCounts(read, files[last].bytes, front.next, repair);
  }

  // ---- reopening ----

  /** Reopening is idempotent, whatever bytes the files hold: if a directory opens, then what the open
      left recovers strictly, and opening it again gives the same segments, records and next offset and
      cuts nothing further. */
  lemma ReopenIsIdempotent(read: FrameReader, files: seq<SegmentFile>, from: nat)
    requires RecoverFiles(read, files, from, true).Ok?
    ensures var r := RecoverFiles(read, files, from, true);
      && |r.value.segments| == |files|
      && (files != [] ==> r.value.segments[|files| - 1].size <= |files[|files| - 1].bytes|)
      && RecoverFiles(read, KeptFiles(files, r), from, false) == r
      && RecoverFiles(read, KeptFiles(files, r), from, true) == r
      && KeptFiles(KeptFiles(files, r), r) == KeptFiles(files, r)
  {
    var r := RecoverFiles(read, files, from, true);
    RecoveredSizes(read, files, from, true);
    if files != [] {
      var front, s := SplitLast(read, files, from, true);
      var last := |files| - 1;
      var kept := files[last].bytes[..s.size];
      assert r.value.segments[last] == SegmentMetadata(front.next, s.next, s.size);
      RepairedIsGood(read, files[last].bytes, front.next);
      RepairOfGood(read, kept, front.next);
      ReplaceLast(read, files, from, front, kept, false);
      ReplaceLast(read, files, from, front, kept, true);
      assert kept[..s.size] == kept;
    }
  }

  /** A log without damage opens as it is. */
  lemma GoodOpens(read: FrameReader, files: seq<SegmentFile>, from: nat)
    requires RecoverFiles(read, files, from, false).Ok?
    ensures RecoverFiles(read, files, from, true) == RecoverFiles(read, files, from, false)
  {
    if files != [] {
      var last := |files| - 1;
      var front, s := SplitLast(read, files, from, false);
      ReplaceLast(read, files, from, front, files[last].bytes, true);
      assert files[last := SegmentFile(front.next, files[last].bytes)] == files;
      RepairOfGood(read, files[last].bytes, front.next);
    }
  }

  // ---- appending ----

  lemma AppendBehindFront(read: FrameReader, files: seq<SegmentFile>, from: nat, front: Recovered, s: Scan,
                          frame: seq<byte>, record: StoredRecord)
    requires IsFront(read, files, from, front) && ScanRest(read, files[|files| - 1].bytes, front.next, false) == Ok(s)
    requires ScanRest(read, frame, s.next, false) == Ok(Scan([record], s.next + 1, |frame|))
    ensures var bytes := files[|files| - 1].bytes + frame;
      RecoverFiles(read, files[|files| - 1 := SegmentFile(front.next, bytes)], from, false) ==
      Ok(Recovered(front.segments + [SegmentMetadata(front.next, s.next + 1, |bytes|)],
                   front.records + (s.records + [record]), s.next + 1))
  {
    OneMore(read, files[|files| - 1].bytes, frame, front.next, record);
    ReplaceLast(read, files, from, front, files[|files| - 1].bytes + frame, false);
  }

  /** A frame added to the last file adds its record to the log; the other segments stay as they are. */
  lemma AppendToLast(read: FrameReader, files: seq<SegmentFile>, from: nat, frame: seq<byte>, record: StoredRecord)
    requires RecoverFiles(read, files, from, false).Ok? && files != []
    requires var next := RecoverFiles(read, files, from, false).value.next;
      ScanRest(read, frame, next, false) == Ok(Scan([record], next + 1, |frame|))
    ensures var last, r := |files| - 1, RecoverFiles(read, files, from, false).value;
      var bytes := files[last].bytes + frame;
      && |r.segments| == |files| && r.segments[last].size == |files[last].bytes|
      && RecoverFiles(read, files[last := SegmentFile(files[last].base, bytes)], from, false) ==
         Ok(Recovered(r.segments[last := SegmentMetadata(r.segments[last].base, r.next + 1, |bytes|)],
                      r.records + [record], r.next + 1))
  {
    var last := |files| - 1;
    var bytes := files[last].bytes + frame;
    var front, s := SplitLast(read, files, from, false);
    ScanCounts(read, files[last].bytes, front.next, false);
    AppendBehindFront(read, files, from, front, s, frame, record);
    UpdateLast(front.segments, SegmentMetadata(front.next, s.next, s.size),
               SegmentMetadata(front.next, s.next + 1, |bytes|));
    assert front.records + s.records + [record] == front.records + (s.records + [record]);
  }

  /** Rolling: a new empty segment named by the next offset adds nothing, provided no segment is empty. */
  lemma RollAddsNothing(read: FrameReader, files: seq<SegmentFile>, from: nat)
    requires RecoverFiles(read, files, from, false).Ok? && AllFull(RecoverFiles(read, files, from, false).value)
    ensures var r := RecoverFiles(read, files, from, false).value;
      RecoverFiles(read, files + [SegmentFile(r.next, [])], from, false) ==
      Ok(Recovered(r.segments + [SegmentMetadata(r.next, r.next, 0)], r.records, r.next))
  {
    var r := RecoverFiles(read, files, from, false).value;
    RecoverAfterFull(read, files, [SegmentFile(r.next, [])], from, false);
    OneFile(read, SegmentFile(r.next, []), r.next, false);
    assert r.records + [] == r.records;
  }

  // ---- crashes and damage ----

  /** A torn segment tail: cutting the last file at any byte, the log opens with exactly the records whose
      frames lie wholly inside the cut, that file shrunk to the end of the last of them, and the next
      offset right behind. */
  lemma CutLogOpens(read: FrameReader, files: seq<SegmentFile>, from: nat, n: nat)
      returns (front: Recovered, k: nat, end: nat)
    requires RecoverFiles(read, files, from, false).Ok? && files != [] && n <= |files[|files| - 1].bytes|
    ensures IsFront(read, files, from, front) && TornAt(read, files[|files| - 1].bytes, front.next, n, k, end)
    ensures var last, r := |files| - 1, RecoverFiles(read, files, from, false).value;
      var m := |front.records| + k;
      && m <= |r.records| && |r.segments| == |files|
      && RecoverFiles(read, files[last := SegmentFile(front.next, files[last].bytes[..n])], from, true) ==
         Ok(Recovered(r.segments[last := SegmentMetadata(front.next, from + m, end)], r.records[..m], from + m))
  {
    var last := |files| - 1;
    var s;
    front, s := SplitLast(read, files, from, false);
    k, end := TornTail(read, files[last].bytes, front.next, n);
    ReplaceLast(read, files, from, front, files[last].bytes[..n], true);
    assert (front.records + s.records)[..|front.records| + k] == front.records + s.records[..k];
    UpdateLast(front.segments, SegmentMetadata(front.next, s.next, s.size),
               SegmentMetadata(front.next, front.next + k, end));
  }

  /** Damage that leaves the length fields intact: a frame that holds no valid record, anywhere in the log,
      makes opening fail, unless it is the last frame of the last file, in which case exactly that frame
      is dropped. */
  lemma DamagedLogOpensIffLast(read: FrameReader, front: seq<SegmentFile>, a: seq<byte>, frame: seq<byte>,
                               more: seq<byte>, back: seq<SegmentFile>, from: nat, e: StorageError)
    requires RecoverFiles(read, front, from, false).Ok? && AllFull(RecoverFiles(read, front, from, false).value)
    requires var base := RecoverFiles(read, front, from, false).value.next;
      && ScanRest(read, a, base, false).Ok? && frame != []
      && read(frame, ScanRest(read, a, base, false).value.next) == Complete(|frame|, Err(e))
    ensures var base := RecoverFiles(read, front, from, false).value.next;
      RecoverFiles(read, front + [SegmentFile(base, a + frame + more)] + back, from, true) ==
      if more == [] && back == [] then RecoverFiles(read, front + [SegmentFile(base, a)], from, true) else Err(e)
  {
    var base := RecoverFiles(read, front, from, false).value.next;
    var rest := [SegmentFile(base, a + frame + more)] + back;
    assert front + [SegmentFile(base, a + frame + more)] + back == front + rest;
    RecoverAfterFull(read, front, rest, from, true);
    RecoverAfterFull(read, front, [SegmentFile(base, a)], from, true);
    DamagedFrame(read, a, frame, more, base, back == [], e);
    RepairOfGood(read, a, base);
    OneFile(read, SegmentFile(base, a), base, true);
    if back == [] {
      assert rest == [SegmentFile(base, a + frame + more)];
      OneFile(read, SegmentFile(base, a + frame + more), base, true);
    }
  }

  /** Without repair any damage is an error. */
  lemma StrictScanFails(read: FrameReader, a: seq<byte>, rest: seq<byte>, start: nat)
    requires ScanRest(read, a, start, false).Ok? && rest != []
    requires !GoodFrame(read, rest, ScanRest(read, a, start, false).value.next)
    ensures ScanRest(read, a + rest, start, false).Err?
  {
    ScanAfterGood(read, a, rest, start, false);
  }

  /** When damage anywhere in the log is reported at open: exactly when files follow the damaged one, or the
      frame found behind its good bytes, whose end the length field alone decides, ends before the file does.
      Otherwise the open succeeds, silently without that frame and all behind it. */
  lemma {:induction false} DamageFailsOpenIff(read: FrameReader, front: seq<SegmentFile>, a: seq<byte>,
                                              rest: seq<byte>, back: seq<SegmentFile>, from: nat)
    requires RecoverFiles(read, front, from, false).Ok? && AllFull(RecoverFiles(read, front, from, false).value)
    requires var base := RecoverFiles(read, front, from, false).value.next;
      && ScanRest(read, a, base, false).Ok? && rest != []
      && !GoodFrame(read, rest, ScanRest(read, a, base, false).value.next)
    ensures var base := RecoverFiles(read, front, from, false).value.next;
      var found := read(rest, ScanRest(read, a, base, false).value.next);
      var r := RecoverFiles(read, front + [SegmentFile(base, a + rest)] + back, from, true);
      && (r.Err? <==> back != [] || (found.Complete? && found.size < |rest|))
      && (r.Ok? ==> r == RecoverFiles(read, front + [SegmentFile(base, a)], from, true))
  {
    var base := RecoverFiles(read, front, from, false).value.next;
    var file := SegmentFile(base, a + rest);
    assert front + [file] + back == front + ([file] + back);
    RecoverAfterFull(read, front, [file] + back, from, true);
    RecoverAfterFull(read, front, [SegmentFile(base, a)], from, true);
    OneFile(read, SegmentFile(base, a), base, true);
    RepairOfGood(read, a, base);
    if back == [] {
      assert [file] + back == [file];
      DamageReportedIff(read, a, rest, base);
      OneFile(read, file, base, true);
    } else {
      StrictScanFails(read, a, rest, base);
      assert RecoverOne(read, file, base, false, true).Err?;
    }
  }

  /** Bad bytes in a frame of intact length - a checksum that is not its payload's, a payload that is no JSON record, or
      one of another version, topic, partition or offset - make the open fail with that error, wherever in the log
      the frame is, unless it is the very last one; then exactly that frame is dropped. */
  lemma {:induction false} BadFrameFailsOpen(codec: RecordCodec, log: LogId, front: seq<SegmentFile>, a: seq<byte>,
                                             checksum: nat, payload: seq<byte>, more: seq<byte>,
                                             back: seq<SegmentFile>, e: StorageError)
    requires RecoverFiles(Reader(codec, log), front, 0, false).Ok?
    requires AllFull(RecoverFiles(Reader(codec, log), front, 0, false).value)
    requires |payload| <= U32_MAX && checksum <= U32_MAX
    requires var base := RecoverFiles(Reader(codec, log), front, 0, false).value.next;
      && ScanRest(Reader(codec, log), a, base, false).Ok?
      && IsWrong(codec, log, ScanRest(Reader(codec, log), a, base, false).value.next, checksum, payload, e)
    ensures var read, base := Reader(codec, log), RecoverFiles(Reader(codec, log), front, 0, false).value.next;
      RecoverFiles(read, front + [SegmentFile(base, a + RawFrame(checksum, payload) + more)] + back, 0, true) ==
      if more == [] && back == [] then RecoverFiles(read, front + [SegmentFile(base, a)], 0, true) else Err(e)
  {
    var read, base := Reader(codec, log), RecoverFiles(Reader(codec, log), front, 0, false).value.next;
    var frame := RawFrame(checksum, payload);
    FrameVerdict(codec, log, ScanRest(read, a, base, false).value.next, checksum, payload, []);
    assert frame + [] == frame;
    DamagedLogOpensIffLast(read, front, a, frame, more, back, 0, e);
  }

  /** So a stored checksum that was changed is always noticed while a frame or a file follows. */
  lemma {:induction false} FlippedChecksumFailsOpen(codec: RecordCodec, log: LogId, front: seq<SegmentFile>,
                                                    a: seq<byte>, checksum: nat, payload: seq<byte>, more: seq<byte>,
                                                    back: seq<SegmentFile>)
    requires RecoverFiles(Reader(codec, log), front, 0, false).Ok?
    requires AllFull(RecoverFiles(Reader(codec, log), front, 0, false).value)
    requires |payload| <= U32_MAX && checksum <= U32_MAX && checksum != codec.crc(payload)
    requires ScanRest(Reader(codec, log), a, RecoverFiles(Reader(codec, log), front, 0, false).value.next, false).Ok?
    requires more != [] || back != []
    ensures var base := RecoverFiles(Reader(codec, log), front, 0, false).value.next;
      RecoverFiles(Reader(codec, log), front + [SegmentFile(base, a + RawFrame(checksum, payload) + more)] + back, 0,
                   true) == Err(ChecksumMismatch)
  {
    BadFrameFailsOpen(codec, log, front, a, checksum, payload, more, back, ChecksumMismatch);
  }
}
