/** The state log as bytes: one line per event, recovered up to the last complete line. */
module StateLog {
  import opened Common
  import opened Domain

  const NEWLINE: byte := 10

  /** The JSON codec: encodings are non-empty, hold no newline byte, and decode to what was encoded. */
  datatype StateCodec = StateCodec(encode: Event -> seq<byte>, decode: seq<byte> -> Option<Event>) {
    ghost predicate Faithful() {
      forall e :: decode(encode(e)) == Some(e) && encode(e) != [] && NEWLINE !in encode(e)
    }
  }

  function Line(codec: StateCodec, e: Event): seq<byte> {
    codec.encode(e) + [NEWLINE]
  }

  function LogBytes(codec: StateCodec, es: seq<Event>): seq<byte> {
    if es == [] then [] else LogBytes(codec, es[..|es| - 1]) + Line(codec, es[|es| - 1])
  }

  /** Length up to and including the last newline. */
  function CompleteLength(b: seq<byte>): (n: nat)
    ensures n <= |b|
  {
    if b == [] || b[|b| - 1] == NEWLINE then |b| else CompleteLength(b[..|b| - 1])
  }

  /** The bytes split at newlines: always one more piece than there are newlines. */
  function Pieces(b: seq<byte>): (ps: seq<seq<byte>>)
    ensures ps != []
  {
    if b == [] then [[]]
    else
      var ps, last := Pieces(b[..|b| - 1]), b[|b| - 1];
      if last == NEWLINE then ps + [[]] else ps[..|ps| - 1] + [ps[|ps| - 1] + [last]]
  }

  /** Decoding the non-empty pieces in order; the error is the number of the first malformed line. */
  function DecodeAll(codec: StateCodec, ps: seq<seq<byte>>): Result<seq<Event>, nat> {
    if ps == [] then Ok([])
    else
      var last := ps[|ps| - 1];
      match DecodeAll(codec, ps[..|ps| - 1])
      case Err(line) => Err(line)
      case Ok(es) =>
        if last == [] then Ok(es)
        else
          match codec.decode(last)
          case None => Err(|ps|)
          case Some(e) => Ok(es + [e])
  }

  /** What recovery leaves in the file, and what it reads from it. */
  function Kept(b: seq<byte>): seq<byte> {
    b[..CompleteLength(b)]
  }

  function Recover(codec: StateCodec, b: seq<byte>): Result<seq<Event>, nat> {
    DecodeAll(codec, Pieces(Kept(b)))
  }

  // ---- lines written are lines read ----

  /** The pieces with `x` added to the last, still open one. */
  function Longer(ps: seq<seq<byte>>, x: seq<byte>): seq<seq<byte>>
    requires ps != []
  {
    ps[..|ps| - 1] + [ps[|ps| - 1] + x]
  }

  lemma LongerTwice(ps: seq<seq<byte>>, x: seq<byte>, y: seq<byte>)
    requires ps != []
    ensures Longer(Longer(ps, x), y) == Longer(ps, x + y)
  {
    assert ps[|ps| - 1] + x + y == ps[|ps| - 1] + (x + y);
  }

  /** The pieces with one more byte. */
  function WithByte(ps: seq<seq<byte>>, c: byte): seq<seq<byte>>
    requires ps != []
  {
    if c == NEWLINE then ps + [[]] else Longer(ps, [c])
  }

  lemma PiecesSnoc(b: seq<byte>, c: byte)
    ensures Pieces(b + [c]) == WithByte(Pieces(b), c)
  {
    assert (b + [c])[..|b|] == b;
  }

  lemma {:induction false} PiecesOfTail(b: seq<byte>, x: seq<byte>)
    requires NEWLINE !in x
    ensures Pieces(b + x) == Longer(Pieces(b), x)
    decreases |x|
  {
    if x == [] {
      assert b + x == b && Pieces(b)[|Pieces(b)| - 1] + x == Pieces(b)[|Pieces(b)| - 1];
    } else {
      var init, last := x[..|x| - 1], x[|x| - 1];
      assert last in x && x == init + [last] && b + x == b + init + [last];
      PiecesOfTail(b, init);
      PiecesSnoc(b + init, last);
      LongerTwice(Pieces(b), init, [last]);
    }
  }

  /** A line written behind complete lines. */
  lemma LineClosed(b: seq<byte>, lines: seq<seq<byte>>, x: seq<byte>)
    requires Pieces(b) == lines + [[]] && NEWLINE !in x
    ensures Pieces(b + x + [NEWLINE]) == lines + [x] + [[]]
  {
    PiecesOfTail(b, x);
    assert (lines + [[]])[..|lines|] == lines && [] + x == x;
    assert (b + x + [NEWLINE])[..|b + x|] == b + x;
  }

  function EncodedLines(codec: StateCodec, es: seq<Event>): seq<seq<byte>> {
    seq(|es|, i requires 0 <= i < |es| => codec.encode(es[i]))
  }

  lemma {:induction false} PiecesOfLog(codec: StateCodec, es: seq<Event>)
    requires codec.Faithful()
    ensures Pieces(LogBytes(codec, es)) == EncodedLines(codec, es) + [[]]
  {
    if es == [] {
      assert EncodedLines(codec, es) == [];
    } else {
      var init, x := es[..|es| - 1], codec.encode(es[|es| - 1]);
      PiecesOfLog(codec, init);
      LineClosed(LogBytes(codec, init), EncodedLines(codec, init), x);
      assert LogBytes(codec, init) + (x + [NEWLINE]) == LogBytes(codec, init) + x + [NEWLINE];
      assert EncodedLines(codec, es) == EncodedLines(codec, init) + [x];
    }
  }

  lemma {:induction false} DecodesLines(codec: StateCodec, es: seq<Event>)
    requires codec.Faithful()
    ensures DecodeAll(codec, EncodedLines(codec, es)) == Ok(es)
  {
    if es == [] {
    } else {
      var init := es[..|es| - 1];
      DecodesLines(codec, init);
      assert EncodedLines(codec, es)[..|es| - 1] == EncodedLines(codec, init);
      assert es == init + [es[|es| - 1]];
    }
  }

  lemma CompleteLog(codec: StateCodec, es: seq<Event>)
    ensures CompleteLength(LogBytes(codec, es)) == |LogBytes(codec, es)|
  {
  }

  lemma ReadsWhatWasWritten(codec: StateCodec, es: seq<Event>)
    requires codec.Faithful()
    ensures Recover(codec, LogBytes(codec, es)) == Ok(es)
    ensures Kept(LogBytes(codec, es)) == LogBytes(codec, es)
  {
    CompleteLog(codec, es);
    PiecesOfLog(codec, es);
    DecodesLines(codec, es);
    var b, ps := LogBytes(codec, es), EncodedLines(codec, es) + [[]];
    assert Kept(b) == b && ps[..|ps| - 1] == EncodedLines(codec, es);
    assert DecodeAll(codec, ps) == DecodeAll(codec, EncodedLines(codec, es));
  }

  lemma {:induction false} TornTail(b: seq<byte>, x: seq<byte>)
    requires NEWLINE !in x
    ensures CompleteLength(b + x) == CompleteLength(b)
    decreases |x|
  {
    if x == [] {
      assert b + x == b;
    } else {
      assert (b + x)[..|b + x| - 1] == b + x[..|x| - 1];
      assert x[|x| - 1] in x;
      TornTail(b, x[..|x| - 1]);
    }
  }

  /** How many lines lie wholly within the first `n` bytes. */
  function WholeLines(codec: StateCodec, es: seq<Event>, n: nat): (k: nat)
    ensures k <= |es|
  {
    if es == [] || |LogBytes(codec, es)| <= n then |es| else WholeLines(codec, es[..|es| - 1], n)
  }

  lemma {:induction false} WholeLinesFit(codec: StateCodec, es: seq<Event>, n: nat, m: nat)
    requires m <= |es|
    ensures m <= WholeLines(codec, es, n) <==> |LogBytes(codec, es[..m])| <= n || m == 0
  {
    if m == |es| {
      assert es[..m] == es;
    } else {
      WholeLinesFit(codec, es[..|es| - 1], n, m);
      assert es[..|es| - 1][..m] == es[..m];
      LogGrows(codec, es, m);
    }
  }

  lemma {:induction false} LogGrows(codec: StateCodec, es: seq<Event>, m: nat)
    requires m <= |es|
    ensures |LogBytes(codec, es[..m])| <= |LogBytes(codec, es)|
  {
    if m == |es| {
      assert es[..m] == es;
    } else {
      LogGrows(codec, es[..|es| - 1], m);
      assert es[..|es| - 1][..m] == es[..m];
    }
  }

  /** Cutting a written log at any byte loses exactly the events whose line does not survive whole: the
      file shrinks to the surviving lines and they are read back. */
  lemma {:induction false} CutLogRecovers(codec: StateCodec, es: seq<Event>, n: nat)
    requires codec.Faithful() && n <= |LogBytes(codec, es)|
    ensures var cut, k := LogBytes(codec, es)[..n], WholeLines(codec, es, n);
      Kept(cut) == LogBytes(codec, es[..k]) && Recover(codec, cut) == Ok(es[..k])
  {
    var all := LogBytes(codec, es);
    if n == |all| {
      assert all[..n] == all && es[..|es|] == es;
      ReadsWhatWasWritten(codec, es);
    } else {
      var init := es[..|es| - 1];
      var b, x := LogBytes(codec, init), codec.encode(es[|es| - 1]);
      var k := WholeLines(codec, init, n);
      assert init[..k] == es[..k];
      if n <= |b| {
        assert all[..n] == b[..n];
        CutLogRecovers(codec, init, n);
      } else {
        var torn := x[..n - |b|];
        assert all[..n] == b + torn;
        forall c | c in torn ensures c in x {}
        TornTail(b, torn);
        CompleteLog(codec, init);
        assert (b + torn)[..|b|] == b && b[..|b|] == b;
        assert init[..|init|] == init;
        ReadsWhatWasWritten(codec, init);
      }
    }
  }

  /** Whatever the file contains, recovering it again changes and reads nothing new. */
  lemma {:induction false} RecoverIsIdempotent(codec: StateCodec, b: seq<byte>)
    ensures Kept(Kept(b)) == Kept(b) && Recover(codec, Kept(b)) == Recover(codec, b)
  {
    CompleteIsComplete(b);
  }

  lemma {:induction false} CompleteIsComplete(b: seq<byte>)
    ensures CompleteLength(Kept(b)) == |Kept(b)|
  {
    if b == [] || b[|b| - 1] == NEWLINE {
      assert Kept(b) == b;
    } else {
      CompleteIsComplete(b[..|b| - 1]);
      assert Kept(b) == Kept(b[..|b| - 1]);
    }
  }

  ghost predicate Malformed(codec: StateCodec, piece: seq<byte>) {
    piece != [] && codec.decode(piece) == None
  }

  /** A complete malformed line is fatal: decoding fails exactly at the first one. */
  lemma {:induction false} FailsAtFirstMalformed(codec: StateCodec, ps: seq<seq<byte>>, line: nat)
    ensures DecodeAll(codec, ps) == Err(line) <==>
      1 <= line <= |ps| && Malformed(codec, ps[line - 1]) && forall i :: 0 <= i < line - 1 ==> !Malformed(codec, ps[i])
    decreases |ps|
  {
    if ps == [] {
    } else {
      var last := |ps| - 1;
      FailsAtFirstMalformed(codec, ps[..last], line);
      FailsSomewhere(codec, ps[..last]);
    }
  }

  lemma {:induction false} FailsSomewhere(codec: StateCodec, ps: seq<seq<byte>>)
    ensures DecodeAll(codec, ps).Ok? <==> forall i :: 0 <= i < |ps| ==> !Malformed(codec, ps[i])
    decreases |ps|
  {
    if ps == [] {
    } else {
      var last := |ps| - 1;
      FailsSomewhere(codec, ps[..last]);
      forall i | 0 <= i < last ensures ps[..last][i] == ps[i] {}
    }
  }

  // ---- the file ----

  /** `split` on newlines. */
  method SplitLines(b: seq<byte>) returns (ps: seq<seq<byte>>)
    ensures ps == Pieces(b)
  {
    var done, line: seq<byte> := [], [];
    for i := 0 to |b|
      invariant Pieces(b[..i]) == done + [line]
    {
      assert b[..i + 1][..i] == b[..i];
      assert (done + [line])[..|done|] == done;
      if b[i] == NEWLINE {
        done, line := done + [line], [];
      } else {
        line := line + [b[i]];
      }
    }
    assert b[..|b|] == b;
    ps := done + [line];
  }

  /** `recover_state_events`: drop a torn last line from the file, then decode line by line. */
  method RecoverStateEvents(codec: StateCodec, bytes: seq<byte>) returns (kept: seq<byte>, r: Result<seq<Event>, nat>)
    ensures kept == Kept(bytes) && r == Recover(codec, bytes)
  {
    var complete: nat := |bytes|;
    assert bytes[..complete] == bytes;
    while complete > 0 && bytes[complete - 1] != NEWLINE
      invariant complete <= |bytes| && CompleteLength(bytes[..complete]) == CompleteLength(bytes)
    {
      assert bytes[..complete][..complete - 1] == bytes[..complete - 1];
      complete := complete - 1;
    }
    kept := bytes[..complete];
    var lines := SplitLines(kept);
    var events := [];
    for i := 0 to |lines|
      invariant DecodeAll(codec, lines[..i]) == Ok(events)
    {
      assert lines[..i + 1][..i] == lines[..i];
      if lines[i] != [] {
        match codec.decode(lines[i]) {
          case None =>
            FailsSomewhere(codec, lines[..i]);
            forall j | 0 <= j < i ensures !Malformed(codec, lines[j]) { assert lines[..i][j] == lines[j]; }
            FailsAtFirstMalformed(codec, lines, i + 1);
            return kept, Err(i + 1);
          case Some(e) => events := events + [e];
        }
      }
    }
    assert lines[..|lines|] == lines;
    r := Ok(events);
  }

  /** The open state log. An append that fails is not rolled back: it leaves as much of its line as was
      written, here the first `room` bytes. */
  class StateLogFile {
    var bytes: seq<byte>

    constructor (existing: seq<byte>)
      ensures bytes == existing
    {
      bytes := existing;
    }

    method Append(codec: StateCodec, e: Event, room: nat) returns (ok: bool)
      modifies this
      ensures ok <==> |Line(codec, e)| <= room
      ensures ok ==> bytes == old(bytes) + Line(codec, e)
      ensures !ok ==> bytes == old(bytes) + Line(codec, e)[..room]
    {
      var encoded := codec.encode(e);
      if room < |encoded| {
        bytes := bytes + encoded[..room];
        return false;
      }
      bytes := bytes + encoded;
      if room < |encoded| + 1 {
        return false;
      }
      bytes := bytes + [NEWLINE];
      ok := true;
    }
  }

  // ---- going on after a torn line ----

  /** JSON texts of events all start with the same brace, and what starts like an event and ends with a
      whole one, but is more than that one, does not parse: an object left open swallows the new one, and
      nothing may follow a closed one. */
  ghost predicate RejectsGlued(codec: StateCodec) {
    forall x, d, e :: x != [] && codec.encode(d) != [] && x[0] == codec.encode(d)[0] ==>
      codec.decode(x + codec.encode(e)) == None
  }

  /** Nothing, or bytes that start like an event and hold no line end. */
  ghost predicate Torn(codec: StateCodec, x: seq<byte>) {
    NEWLINE !in x && (x != [] ==> exists d :: codec.encode(d) != [] && x[0] == codec.encode(d)[0])
  }

  ghost predicate Closed(b: seq<byte>) {
    b == [] || b[|b| - 1] == NEWLINE
  }

  lemma WithByteBehind(front: seq<seq<byte>>, ps: seq<seq<byte>>, c: byte)
    requires ps != []
    ensures WithByte(front + ps, c) == front + WithByte(ps, c)
  {
    assert (front + ps)[..|front + ps| - 1] == front + ps[..|ps| - 1];
  }

  /** Complete lines are cut into the same pieces whatever follows them. */
  lemma {:induction false} PiecesOfClosed(b: seq<byte>, more: seq<byte>)
    requires Closed(b)
    ensures Pieces(b)[|Pieces(b)| - 1] == [] && Pieces(b + more) == Pieces(b)[..|Pieces(b)| - 1] + Pieces(more)
    decreases |more|
  {
    var front := Pieces(b)[..|Pieces(b)| - 1];
    if more == [] {
      assert b + more == b && Pieces(b) == front + [[]];
    } else {
      var init, last := more[..|more| - 1], more[|more| - 1];
      assert more == init + [last] && b + more == b + init + [last];
      PiecesOfClosed(b, init);
      PiecesSnoc(init, last);
      PiecesSnoc(b + init, last);
      WithByteBehind(front, Pieces(init), last);
    }
  }

  /** Complete lines are kept whatever follows them. */
  lemma {:induction false} KeptBehindClosed(b: seq<byte>, more: seq<byte>)
    requires Closed(b)
    ensures Kept(b + more) == b + Kept(more)
    decreases |more|
  {
    if more == [] {
      assert b + more == b && Kept(b) == b && b + Kept(more) == b;
    } else if more[|more| - 1] == NEWLINE {
      assert Kept(b + more) == b + more && Kept(more) == more;
    } else {
      KeptBehindClosed(b, more[..|more| - 1]);
      assert (b + more)[..|b + more| - 1] == b + more[..|more| - 1];
      assert Kept(more) == Kept(more[..|more| - 1]);
    }
  }

  lemma {:induction false} DecodeFailsFrom(codec: StateCodec, ps: seq<seq<byte>>, qs: seq<seq<byte>>)
    requires DecodeAll(codec, ps).Err?
    ensures DecodeAll(codec, ps + qs) == DecodeAll(codec, ps)
    decreases |qs|
  {
    if qs == [] {
      assert ps + qs == ps;
    } else {
      DecodeFailsFrom(codec, ps, qs[..|qs| - 1]);
      assert (ps + qs)[..|ps + qs| - 1] == ps + qs[..|qs| - 1];
    }
  }

  lemma PiecesAfterTornLine(codec: StateCodec, es: seq<Event>, x: seq<byte>)
    requires codec.Faithful() && NEWLINE !in x
    ensures var all := LogBytes(codec, es) + x + [NEWLINE];
      Pieces(all) == EncodedLines(codec, es) + [x] + [[]] && Kept(all) == all
  {
    PiecesOfLog(codec, es);
    LineClosed(LogBytes(codec, es), EncodedLines(codec, es), x);
  }

  /** Appending again after a torn line, instead of ending the session, joins both into one line: the
      log is then corrupt exactly when the joined line does not decode. */
  lemma AppendAfterTornLine(codec: StateCodec, es: seq<Event>, torn: seq<byte>, e: Event)
    requires codec.Faithful() && NEWLINE !in torn
    ensures Recover(codec, LogBytes(codec, es) + torn + Line(codec, e)) ==
      match codec.decode(torn + codec.encode(e)) case None => Err(|es| + 1) case Some(x) => Ok(es + [x])
  {
    var x := torn + codec.encode(e);
    assert LogBytes(codec, es) + torn + Line(codec, e) == LogBytes(codec, es) + x + [NEWLINE];
    assert x != [] by { assert codec.encode(e) != []; }
    PiecesAfterTornLine(codec, es, x);
    DecodesLines(codec, es);
    var lines := EncodedLines(codec, es) + [x];
    assert lines[..|es|] == EncodedLines(codec, es) && (lines + [[]])[..|es| + 1] == lines;
    assert DecodeAll(codec, lines + [[]]) == DecodeAll(codec, lines);
  }

  /** So a log in which a line was written behind a torn one does not recover, whatever was written after
      it: the error names the joined line. */
  lemma GluedLogFails(codec: StateCodec, es: seq<Event>, torn: seq<byte>, e: Event, more: seq<byte>)
    requires codec.Faithful() && RejectsGlued(codec) && torn != [] && Torn(codec, torn)
    ensures Recover(codec, LogBytes(codec, es) + torn + Line(codec, e) + more) == Err(|es| + 1)
  {
    var b := LogBytes(codec, es) + torn + Line(codec, e);
    AppendAfterTornLine(codec, es, torn, e);
    assert b[|b| - 1] == NEWLINE;
    assert Kept(b) == b;
    KeptBehindClosed(b, more);
    PiecesOfClosed(b, Kept(more));
    var ps := Pieces(b);
    assert DecodeAll(codec, ps) == DecodeAll(codec, ps[..|ps| - 1]);
    DecodeFailsFrom(codec, ps[..|ps| - 1], Pieces(Kept(more)));
  }

  /** A torn line at the end is as if nothing had been written. */
  lemma TornLogRecovers(codec: StateCodec, es: seq<Event>, torn: seq<byte>)
    requires codec.Faithful() && NEWLINE !in torn
    ensures Kept(LogBytes(codec, es) + torn) == LogBytes(codec, es)
    ensures Recover(codec, LogBytes(codec, es) + torn) == Ok(es)
  {
    var b := LogBytes(codec, es);
    TornTail(b, torn);
    CompleteLog(codec, es);
    assert (b + torn)[..|b|] == b == b[..|b|];
    ReadsWhatWasWritten(codec, es);
  }
}
