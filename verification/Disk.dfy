/** The directory as it lies on disk while brokers come and go: a state-log append that fails leaves the
    bytes that fit, nothing takes them back, and the next append writes right behind them. */
module Disk {
  import opened Common
  import opened Domain
  import opened Replay
  import opened Durable
  import opened Commit
  import opened Sessions
  import opened StateLog

  /** One command on disk: `io` tells whether the message logs can be opened, read and written, `room` how
      many more bytes the state log can take. A message append that fails is rolled back. */
  datatype Attempt = Attempt(command: Command, io: bool, room: nat)

  /** Why a directory does not open: a state line that does not decode, or a log that does not replay. */
  datatype OpenError = MalformedLine(line: nat) | Rejected(error: Error)

  datatype Opened = Opened(broker: Broker, file: seq<byte>)

  /** The event the command logs, if all works. */
  ghost function EventOf(cfg: Config, b: Broker, cmd: Command): Option<Event> {
    var events := Step(cfg, b, cmd, true).broker.events;
    if |events| > |b.events| then Some(events[|b.events|]) else None
  }

  ghost predicate Works(cfg: Config, codec: StateCodec, b: Broker, a: Attempt) {
    a.io && match EventOf(cfg, b, a.command) case None => true case Some(e) => |Line(codec, e)| <= a.room
  }

  /** The bytes the command leaves in the state log. */
  ghost function Trace(cfg: Config, codec: StateCodec, b: Broker, a: Attempt): seq<byte> {
    if !a.io then []
    else
      match EventOf(cfg, b, a.command)
      case None => []
      case Some(e) => Take(Line(codec, e), a.room)
  }

  /** The command as the broker sees it: a failed append has changed nothing. */
  ghost function AsCall(cfg: Config, codec: StateCodec, b: Broker, a: Attempt): Call {
    Call(a.command, Works(cfg, codec, b, a))
  }

  ghost function AsCalls(cfg: Config, codec: StateCodec, b: Broker, attempts: seq<Attempt>): seq<Call> {
    if attempts == [] then []
    else
      var init := AsCalls(cfg, codec, b, attempts[..|attempts| - 1]);
      init + [AsCall(cfg, codec, Run(cfg, b, init), attempts[|attempts| - 1])]
  }

  /** The broker after the session. */
  ghost function After(cfg: Config, codec: StateCodec, b: Broker, attempts: seq<Attempt>): Broker {
    Run(cfg, b, AsCalls(cfg, codec, b, attempts))
  }

  /** All bytes the session leaves in the state log. */
  ghost function Written(cfg: Config, codec: StateCodec, b: Broker, attempts: seq<Attempt>): seq<byte> {
    if attempts == [] then []
    else
      var init := attempts[..|attempts| - 1];
      Written(cfg, codec, b, init) + Trace(cfg, codec, After(cfg, codec, b, init), attempts[|attempts| - 1])
  }

  ghost predicate Whole(x: seq<byte>) {
    x != [] && x[|x| - 1] == NEWLINE
  }

  /** What the session has written since its last complete line. */
  ghost function OpenLine(cfg: Config, codec: StateCodec, b: Broker, attempts: seq<Attempt>): seq<byte> {
    if attempts == [] then []
    else
      var init := attempts[..|attempts| - 1];
      var x := Trace(cfg, codec, After(cfg, codec, b, init), attempts[|attempts| - 1]);
      if Whole(x) then [] else OpenLine(cfg, codec, b, init) + x
  }

  /** Some command has logged its event right behind a torn line. */
  ghost predicate Glues(cfg: Config, codec: StateCodec, b: Broker, attempts: seq<Attempt>) {
    attempts != []
    && (Glues(cfg, codec, b, attempts[..|attempts| - 1])
        || (OpenLine(cfg, codec, b, attempts[..|attempts| - 1]) != []
            && Whole(Trace(cfg, codec, After(cfg, codec, b, attempts[..|attempts| - 1]), attempts[|attempts| - 1]))))
  }

  /** Opening a directory, with its state log as bytes. */
  ghost function OpenDirectory(cfg: Config, codec: StateCodec, logs: Logs, file: seq<byte>): Result<Opened, OpenError> {
    match Recover(codec, file)
    case Err(line) => Err(MalformedLine(line))
    case Ok(events) =>
      match Open(cfg, logs, events)
      case Err(e) => Err(Rejected(e))
      case Ok(b) => Ok(Opened(b, Kept(file)))
  }

  ghost function NextDirectory(cfg: Config, codec: StateCodec, o: Opened, attempts: seq<Attempt>)
    : Result<Opened, OpenError>
  {
    OpenDirectory(cfg, codec, After(cfg, codec, o.broker, attempts).core.logs,
                  o.file + Written(cfg, codec, o.broker, attempts))
  }

  /** The directory opened after the sessions, starting from an empty one. */
  ghost function ReopenedDirectory(cfg: Config, codec: StateCodec, sessions: seq<seq<Attempt>>)
    : Result<Opened, OpenError>
  {
    if sessions == [] then OpenDirectory(cfg, codec, map[], [])
    else
      match ReopenedDirectory(cfg, codec, sessions[..|sessions| - 1])
      case Err(e) => Err(e)
      case Ok(o) => NextDirectory(cfg, codec, o, sessions[|sessions| - 1])
  }

  // ---- one command ----

  lemma CallsSnoc(cfg: Config, codec: StateCodec, b: Broker, attempts: seq<Attempt>, used: set<(Position, nat)>)
    requires attempts != []
    ensures var init, last := attempts[..|attempts| - 1], attempts[|attempts| - 1];
      var mid := After(cfg, codec, b, init);
      && After(cfg, codec, b, attempts) == Step(cfg, mid, last.command, Works(cfg, codec, mid, last)).broker
      && (AllUse(cfg, b, AsCalls(cfg, codec, b, attempts), used) <==>
            AllUse(cfg, b, AsCalls(cfg, codec, b, init), used) && UsesOnly(mid.core, last.command, used))
  {
    var init, last := attempts[..|attempts| - 1], attempts[|attempts| - 1];
    RunSnoc(cfg, b, AsCalls(cfg, codec, b, init), AsCall(cfg, codec, After(cfg, codec, b, init), last), used);
  }

  lemma StepEvents(cfg: Config, b: Broker, cmd: Command, io: bool)
    ensures Step(cfg, b, cmd, io).broker.events ==
            b.events + match EventOf(cfg, b, cmd) case Some(e) => if io then [e] else [] case None => []
  {
  }

  /** What a command leaves in the state log: its event's line if it works and logs one, else bytes that
      could be the start of one. */
  lemma TraceShape(cfg: Config, codec: StateCodec, b: Broker, a: Attempt)
    requires codec.Faithful()
    ensures var x := Trace(cfg, codec, b, a);
      var s := Step(cfg, b, a.command, Works(cfg, codec, b, a)).broker;
      && (Whole(x) ==> EventOf(cfg, b, a.command).Some? && x == Line(codec, EventOf(cfg, b, a.command).value)
                       && s.events == b.events + [EventOf(cfg, b, a.command).value])
      && (!Whole(x) ==> Torn(codec, x) && s.events == b.events)
  {
    StepEvents(cfg, b, a.command, Works(cfg, codec, b, a));
  }

  // ---- one session ----

  lemma TornOn(codec: StateCodec, x: seq<byte>, y: seq<byte>)
    requires Torn(codec, x) && Torn(codec, y)
    ensures Torn(codec, x + y)
  {
    if x == [] { assert x + y == y; }
  }

  /** More bytes behind complete lines and a torn one. */
  lemma BytesBehind(codec: StateCodec, base: seq<byte>, written: seq<byte>, es: seq<Event>, torn: seq<byte>,
                    x: seq<byte>)
    requires base + written == LogBytes(codec, es) + torn
    ensures base + (written + x) == LogBytes(codec, es) + (torn + x)
  {
    assert base + (written + x) == base + written + x;
    assert LogBytes(codec, es) + (torn + x) == LogBytes(codec, es) + torn + x;
  }

  lemma LineBehind(codec: StateCodec, base: seq<byte>, written: seq<byte>, es: seq<Event>, e: Event)
    requires base + written == LogBytes(codec, es) + []
    ensures base + (written + Line(codec, e)) == LogBytes(codec, es + [e]) + []
  {
    BytesBehind(codec, base, written, es, [], Line(codec, e));
    assert (es + [e])[..|es|] == es && [] + Line(codec, e) == Line(codec, e);
  }

  ghost predicate Clean(cfg: Config, codec: StateCodec, b: Broker, attempts: seq<Attempt>) {
    && LogBytes(codec, b.events) + Written(cfg, codec, b, attempts) ==
       LogBytes(codec, After(cfg, codec, b, attempts).events) + OpenLine(cfg, codec, b, attempts)
    && Torn(codec, OpenLine(cfg, codec, b, attempts))
  }

  lemma {:induction false} CleanStep(cfg: Config, codec: StateCodec, b: Broker, attempts: seq<Attempt>)
    requires codec.Faithful() && !Glues(cfg, codec, b, attempts) && attempts != []
    requires Clean(cfg, codec, b, attempts[..|attempts| - 1])
    ensures Clean(cfg, codec, b, attempts)
  {
    var init, last := attempts[..|attempts| - 1], attempts[|attempts| - 1];
    var mid := After(cfg, codec, b, init);
    var x, torn, written := Trace(cfg, codec, mid, last), OpenLine(cfg, codec, b, init), Written(cfg, codec, b, init);
    CallsSnoc(cfg, codec, b, attempts, {});
    TraceShape(cfg, codec, mid, last);
    if Whole(x) {
      LineBehind(codec, LogBytes(codec, b.events), written, mid.events, EventOf(cfg, mid, last.command).value);
    } else {
      TornOn(codec, torn, x);
      BytesBehind(codec, LogBytes(codec, b.events), written, mid.events, torn, x);
    }
  }

  /** As long as nothing is written behind a torn line, the state log holds the lines of the logged events
      and at most one torn line behind them. */
  lemma {:induction false} CleanSession(cfg: Config, codec: StateCodec, b: Broker, attempts: seq<Attempt>)
    requires codec.Faithful() && !Glues(cfg, codec, b, attempts)
    ensures Clean(cfg, codec, b, attempts)
  {
    if attempts == [] {
    } else {
      CleanSession(cfg, codec, b, attempts[..|attempts| - 1]);
      CleanStep(cfg, codec, b, attempts);
    }
  }

  /** The state log is complete lines, a torn one with a whole line right behind it, and more. */
  ghost predicate GluedAs(codec: StateCodec, file: seq<byte>, es: seq<Event>, torn: seq<byte>, e: Event,
                          more: seq<byte>) {
    file == LogBytes(codec, es) + torn + Line(codec, e) + more && torn != [] && Torn(codec, torn)
  }

  lemma {:induction false} GluedSession(cfg: Config, codec: StateCodec, b: Broker, attempts: seq<Attempt>)
      returns (es: seq<Event>, torn: seq<byte>, e: Event, more: seq<byte>)
    requires codec.Faithful() && Glues(cfg, codec, b, attempts)
    ensures GluedAs(codec, LogBytes(codec, b.events) + Written(cfg, codec, b, attempts), es, torn, e, more)
  {
    var init, last := attempts[..|attempts| - 1], attempts[|attempts| - 1];
    var mid := After(cfg, codec, b, init);
    var x := Trace(cfg, codec, mid, last);
    var file := LogBytes(codec, b.events) + Written(cfg, codec, b, init);
    assert LogBytes(codec, b.events) + Written(cfg, codec, b, attempts) == file + x;
    if Glues(cfg, codec, b, init) {
      es, torn, e, more := GluedSession(cfg, codec, b, init);
      assert LogBytes(codec, es) + torn + Line(codec, e) + more + x ==
          LogBytes(codec, es) + torn + Line(codec, e) + (more + x);
      more := more + x;
    } else {
      CleanSession(cfg, codec, b, init);
      TraceShape(cfg, codec, mid, last);
      es, torn, e, more := mid.events, OpenLine(cfg, codec, b, init), EventOf(cfg, mid, last.command).value, [];
      assert LogBytes(codec, es) + torn + Line(codec, e) + [] == LogBytes(codec, es) + torn + Line(codec, e);
    }
  }

  /** What a session does to the directory it opened. If no line was written behind a torn one, the state
      log recovers to exactly the events the broker logged; otherwise it does not recover at all. */
  lemma {:induction false} SessionOnDisk(cfg: Config, codec: StateCodec, b: Broker, attempts: seq<Attempt>)
    requires codec.Faithful() && RejectsGlued(codec)
    ensures var file := LogBytes(codec, b.events) + Written(cfg, codec, b, attempts);
      var end := After(cfg, codec, b, attempts);
      if Glues(cfg, codec, b, attempts) then Recover(codec, file).Err?
      else Recover(codec, file) == Ok(end.events) && Kept(file) == LogBytes(codec, end.events)
  {
    if Glues(cfg, codec, b, attempts) {
      var es, torn, e, more := GluedSession(cfg, codec, b, attempts);
      GluedLogFails(codec, es, torn, e, more);
    } else {
      CleanSession(cfg, codec, b, attempts);
      TornLogRecovers(codec, After(cfg, codec, b, attempts).events, OpenLine(cfg, codec, b, attempts));
    }
  }

  lemma FailedTraceIsTorn(cfg: Config, codec: StateCodec, b: Broker, a: Attempt)
    requires codec.Faithful()
    ensures var s, x := Step(cfg, b, a.command, Works(cfg, codec, b, a)), Trace(cfg, codec, b, a);
      || x == [] || s.response.Failed?
      || (EventOf(cfg, b, a.command).Some? && x == Line(codec, EventOf(cfg, b, a.command).value))
  {
  }

  /** The commit point on disk: a command that fails has changed nothing in the broker, and whatever it has
      written, the state log recovers as before; one that succeeds has written nothing or its event's line. */
  lemma {:induction false} CommitPointOnDisk(cfg: Config, codec: StateCodec, used: set<(Position, nat)>, b: Broker,
                                             a: Attempt, file: seq<byte>)
    requires codec.Faithful() && Distinct(cfg, used) && Live(cfg, used, b) && UsesOnly(b.core, a.command, used)
    ensures var s, x := Step(cfg, b, a.command, Works(cfg, codec, b, a)), Trace(cfg, codec, b, a);
      if s.response.Failed? then
        s.broker == b && Kept(file + x) == Kept(file) && Recover(codec, file + x) == Recover(codec, file)
      else
        (x == [] && s.broker.events == b.events) || exists e :: x == Line(codec, e) && s.broker.events == b.events + [e]
  {
    var x := Trace(cfg, codec, b, a);
    CommitPoint(cfg, used, b, a.command, Works(cfg, codec, b, a));
    TraceShape(cfg, codec, b, a);
    FailedTraceIsTorn(cfg, codec, b, a);
    if !Whole(x) {
      StateLog.TornTail(file, x);
      assert (file + x)[..CompleteLength(file)] == file[..CompleteLength(file)];
    }
  }

  // ---- chains of sessions ----

  /** The sessions as the brokers see them. */
  ghost function AsSessions(cfg: Config, codec: StateCodec, sessions: seq<seq<Attempt>>): seq<seq<Call>> {
    if sessions == [] then []
    else
      var init := sessions[..|sessions| - 1];
      AsSessions(cfg, codec, init)
      + [match ReopenedDirectory(cfg, codec, init)
         case Ok(o) => AsCalls(cfg, codec, o.broker, sessions[|sessions| - 1])
         case Err(_) => []]
  }

  /** No session of the chain writes a line behind a torn one ... */
  ghost predicate NothingGlued(cfg: Config, codec: StateCodec, sessions: seq<seq<Attempt>>) {
    sessions == []
    || (NothingGlued(cfg, codec, sessions[..|sessions| - 1])
        && (ReopenedDirectory(cfg, codec, sessions[..|sessions| - 1]).Ok? ==>
              !Glues(cfg, codec, ReopenedDirectory(cfg, codec, sessions[..|sessions| - 1]).value.broker,
                     sessions[|sessions| - 1])))
  }

  /** ... and none delivers a message that the replay of the state log up to then shows in flight. */
  ghost predicate NothingRedelivered(cfg: Config, codec: StateCodec, sessions: seq<seq<Attempt>>) {
    sessions == []
    || (NothingRedelivered(cfg, codec, sessions[..|sessions| - 1])
        && (ReopenedDirectory(cfg, codec, sessions[..|sessions| - 1]).Ok? ==>
              var b := ReopenedDirectory(cfg, codec, sessions[..|sessions| - 1]).value.broker;
              !Redelivers(cfg, b, AsCalls(cfg, codec, b, sessions[|sessions| - 1]))))
  }

  /** What holds of the directory after a chain of sessions. */
  ghost predicate DirectoryHolds(cfg: Config, codec: StateCodec, used: set<(Position, nat)>,
                                 sessions: seq<seq<Attempt>>) {
    match ReopenedDirectory(cfg, codec, sessions)
    case Ok(o) =>
      && NothingGlued(cfg, codec, sessions) && NothingRedelivered(cfg, codec, sessions)
      && JustOpened(cfg, used, o.broker) && o.file == LogBytes(codec, o.broker.events)
      && Reopened(cfg, AsSessions(cfg, codec, sessions)) == Ok(o.broker)
    case Err(MalformedLine(_)) => !NothingGlued(cfg, codec, sessions)
    case Err(Rejected(e)) => e == Corruption && !NothingRedelivered(cfg, codec, sessions)
  }

  /** One session in a directory that has opened: the next open fails on a malformed line if the session
      wrote a line behind a torn one, else with corruption if it redelivered a message, and else gives the
      live state with everything in flight released, the torn line cut off. */
  lemma {:induction false} NextDirectoryStep(cfg: Config, codec: StateCodec, used: set<(Position, nat)>, o: Opened,
                                             attempts: seq<Attempt>)
    requires cfg.Valid() && codec.Faithful() && RejectsGlued(codec) && Distinct(cfg, used)
    requires JustOpened(cfg, used, o.broker) && o.file == LogBytes(codec, o.broker.events)
    requires AllUse(cfg, o.broker, AsCalls(cfg, codec, o.broker, attempts), used)
    ensures var next := NextDirectory(cfg, codec, o, attempts);
      var end := After(cfg, codec, o.broker, attempts);
      if Glues(cfg, codec, o.broker, attempts) then next.Err? && next.error.MalformedLine?
      else if Redelivers(cfg, o.broker, AsCalls(cfg, codec, o.broker, attempts)) then next == Err(Rejected(Corruption))
      else
        && next == Ok(Opened(Released(end), LogBytes(codec, end.events))) && JustOpened(cfg, used, Released(end))
        && NextOpen(cfg, o.broker, AsCalls(cfg, codec, o.broker, attempts)) == Ok(Released(end))
  {
    SessionOnDisk(cfg, codec, o.broker, attempts);
    ReopenStep(cfg, used, o.broker, AsCalls(cfg, codec, o.broker, attempts));
  }

  /** One more session, as the brokers see it. */
  lemma {:induction false} SessionsSnoc(cfg: Config, codec: StateCodec, sessions: seq<seq<Attempt>>, o: Opened)
    requires sessions != [] && ReopenedDirectory(cfg, codec, sessions[..|sessions| - 1]) == Ok(o)
    requires Reopened(cfg, AsSessions(cfg, codec, sessions[..|sessions| - 1])) == Ok(o.broker)
    ensures var calls := AsCalls(cfg, codec, o.broker, sessions[|sessions| - 1]);
      && Reopened(cfg, AsSessions(cfg, codec, sessions)) == NextOpen(cfg, o.broker, calls)
      && ReopenedDirectory(cfg, codec, sessions) == NextDirectory(cfg, codec, o, sessions[|sessions| - 1])
      && forall used :: SessionsUse(cfg, AsSessions(cfg, codec, sessions), used) ==> AllUse(cfg, o.broker, calls, used)
  {
    var init, calls := AsSessions(cfg, codec, sessions[..|sessions| - 1]),
        AsCalls(cfg, codec, o.broker, sessions[|sessions| - 1]);
    assert AsSessions(cfg, codec, sessions) == init + [calls];
    assert (init + [calls])[..|init|] == init;
  }

  lemma {:induction false} DirectoryStep(cfg: Config, codec: StateCodec, used: set<(Position, nat)>,
                                         sessions: seq<seq<Attempt>>)
    requires cfg.Valid() && codec.Faithful() && RejectsGlued(codec) && Distinct(cfg, used) && sessions != []
    requires DirectoryHolds(cfg, codec, used, sessions[..|sessions| - 1])
    requires SessionsUse(cfg, AsSessions(cfg, codec, sessions), used)
    ensures DirectoryHolds(cfg, codec, used, sessions)
  {
    var n := |sessions| - 1;
    match ReopenedDirectory(cfg, codec, sessions[..n]) {
      case Ok(o) =>
        SessionsSnoc(cfg, codec, sessions, o);
        NextDirectoryStep(cfg, codec, used, o, sessions[n]);
      case Err(_) =>
    }
  }

  lemma EmptyDirectoryOpens(cfg: Config, codec: StateCodec, used: set<(Position, nat)>)
    requires codec.Faithful()
    ensures DirectoryHolds(cfg, codec, used, [])
  {
    assert LogBytes(codec, []) == [];
    ReadsWhatWasWritten(codec, []);
    FreshOpens(cfg, used);
  }

  lemma {:induction false} DirectoryChain(cfg: Config, codec: StateCodec, used: set<(Position, nat)>,
                                          sessions: seq<seq<Attempt>>)
    requires cfg.Valid() && codec.Faithful() && RejectsGlued(codec) && Distinct(cfg, used)
    requires SessionsUse(cfg, AsSessions(cfg, codec, sessions), used)
    ensures DirectoryHolds(cfg, codec, used, sessions)
    decreases |sessions|
  {
    if sessions == [] {
      EmptyDirectoryOpens(cfg, codec, used);
    } else {
      var calls := AsSessions(cfg, codec, sessions);
      assert calls[..|calls| - 1] == AsSessions(cfg, codec, sessions[..|sessions| - 1]);
      DirectoryChain(cfg, codec, used, sessions[..|sessions| - 1]);
      DirectoryStep(cfg, codec, used, sessions);
    }
  }

  /** The exact reopen condition on disk. After any chain of sessions, with any commands and appends that
      fail after any number of bytes, the next open succeeds if and only if no session wrote a line behind a
      torn one and none delivered a message that the replay of the state log up to then shows in flight. A
      malformed line is reported only in the first case, corruption only in the second. */
  lemma {:induction false} OpensIffNothingGluedOrRedelivered(cfg: Config, codec: StateCodec,
      used: set<(Position, nat)>, sessions: seq<seq<Attempt>>)
    requires cfg.Valid() && codec.Faithful() && RejectsGlued(codec) && Distinct(cfg, used)
    requires SessionsUse(cfg, AsSessions(cfg, codec, sessions), used)
    ensures var r := ReopenedDirectory(cfg, codec, sessions);
      && (r.Ok? <==> NothingGlued(cfg, codec, sessions) && NothingRedelivered(cfg, codec, sessions))
      && (r.Err? && r.error.MalformedLine? ==> !NothingGlued(cfg, codec, sessions))
      && (r.Err? && r.error.Rejected? ==> r.error.error == Corruption && !NothingRedelivered(cfg, codec, sessions))
  {
    DirectoryChain(cfg, codec, used, sessions);
  }

  /** When it opens, the broker is the one that the same sessions give when failed appends write nothing, so
      whatever holds over chains of such sessions holds here; and the state log holds its events again. */
  lemma {:induction false} OpensAsIfUntorn(cfg: Config, codec: StateCodec, used: set<(Position, nat)>,
                                           sessions: seq<seq<Attempt>>)
    requires cfg.Valid() && codec.Faithful() && RejectsGlued(codec) && Distinct(cfg, used)
    requires SessionsUse(cfg, AsSessions(cfg, codec, sessions), used) && ReopenedDirectory(cfg, codec, sessions).Ok?
    ensures var o := ReopenedDirectory(cfg, codec, sessions).value;
      Reopened(cfg, AsSessions(cfg, codec, sessions)) == Ok(o.broker) && o.file == LogBytes(codec, o.broker.events)
  {
    DirectoryChain(cfg, codec, used, sessions);
  }

  // ---- the second input that fails ----

  /** Creating a topic fails after one byte of its line, and is tried again. */
  function RetriedCreate(topic: Text, room: nat): seq<Attempt> {
    [Attempt(CreateTopic(topic, 1), true, 1), Attempt(CreateTopic(topic, 1), true, room)]
  }

  lemma CreateLogs(cfg: Config, codec: StateCodec, topic: Text, room: nat)
    requires codec.Faithful()
    ensures var b, e, a := FreshBroker(), TopicCreated(topic, 1), Attempt(CreateTopic(topic, 1), true, room);
      && Trace(cfg, codec, b, a) == Take(Line(codec, e), room)
      && (Works(cfg, codec, b, a) <==> |Line(codec, e)| <= room)
      && Step(cfg, b, a.command, true).response == Created(topic, 1) && Step(cfg, b, a.command, false).broker == b
  {
    assert EventOf(cfg, FreshBroker(), CreateTopic(topic, 1)) == Some(TopicCreated(topic, 1));
  }

  lemma {:induction false} RetriedCreateWrites(cfg: Config, codec: StateCodec, topic: Text, room: nat)
    requires codec.Faithful() && room >= |Line(codec, TopicCreated(topic, 1))|
    ensures var session, line := RetriedCreate(topic, room), Line(codec, TopicCreated(topic, 1));
      && After(cfg, codec, FreshBroker(), session[..1]) == FreshBroker()
      && Written(cfg, codec, FreshBroker(), session) == line[..1] + line
      && |line| > 1 && line[..1] == codec.encode(TopicCreated(topic, 1))[..1]
  {
    var session, b, line := RetriedCreate(topic, room), FreshBroker(), Line(codec, TopicCreated(topic, 1));
    assert codec.encode(TopicCreated(topic, 1)) != [];
    CreateLogs(cfg, codec, topic, 1);
    CreateLogs(cfg, codec, topic, room);
    assert session[..1][..0] == [] && AsCalls(cfg, codec, b, []) == [];
    CallsSnoc(cfg, codec, b, session[..1], {});
    assert Written(cfg, codec, b, session[..1]) == [] + line[..1] == line[..1];
  }

  lemma OneSession(cfg: Config, codec: StateCodec, session: seq<Attempt>)
    requires codec.Faithful()
    ensures ReopenedDirectory(cfg, codec, [session]) == NextDirectory(cfg, codec, Opened(FreshBroker(), []), session)
  {
    EmptyDirectoryOpens(cfg, codec, {});
    FreshOpens(cfg, {});
    assert LogBytes(codec, []) == [] && [session][..0] == [];
  }

  lemma GluedLineFails(codec: StateCodec, e: Event)
    requires codec.Faithful() && RejectsGlued(codec)
    ensures Recover(codec, Line(codec, e)[..1] + Line(codec, e)) == Err(1)
  {
    var line := Line(codec, e);
    assert codec.encode(e) != [] && line[0] == codec.encode(e)[0] && line[0] in codec.encode(e);
    assert Torn(codec, line[..1]);
    GluedLogFails(codec, [], line[..1], e, []);
    assert LogBytes(codec, []) + line[..1] + line + [] == line[..1] + line;
  }

  /** "Complete malformed lines" are not only damage from outside: after an append that failed half-way,
      retrying the command as the error invites to is acknowledged, and the next open fails at that line. */
  lemma {:induction false} RetryAfterTornAppendBreaksReopen(cfg: Config, codec: StateCodec, topic: Text, room: nat)
    requires codec.Faithful() && RejectsGlued(codec) && room >= |Line(codec, TopicCreated(topic, 1))|
    ensures var session := RetriedCreate(topic, room);
      var after := After(cfg, codec, FreshBroker(), session[..1]);
      && after == FreshBroker()
      && Step(cfg, after, session[1].command, Works(cfg, codec, after, session[1])).response == Created(topic, 1)
      && ReopenedDirectory(cfg, codec, [session]) == Err(MalformedLine(1))
  {
    RetriedCreateWrites(cfg, codec, topic, room);
    CreateLogs(cfg, codec, topic, room);
    OneSession(cfg, codec, RetriedCreate(topic, room));
    GluedLineFails(codec, TopicCreated(topic, 1));
    assert [] + Written(cfg, codec, FreshBroker(), RetriedCreate(topic, room)) ==
        Written(cfg, codec, FreshBroker(), RetriedCreate(topic, room));
  }
}
