# FerrumQ: a verified model of the local durable broker

FerrumQ's core is a message broker that lives in one directory: an event-sourced delivery state machine
over segmented, checksummed, self-repairing message logs. This project models that core and proves what it
is for: whatever the broker acknowledged is there after a reopen, messages go to each consumer group as
the retry policy says, publishing is idempotent, the log on disk behaves like a flat sequence, and crashes
and damage are either repaired to a well-defined state or reported. Where the code falls short of its own
documentation, the exact condition under which it keeps its promise is proved instead.

`dafny verify dfyconfig.toml` checks the whole project.

## Main results

* **Reopening.** When the next open succeeds, exactly, over chains of sessions with appends that fail after any
  number of bytes (`Disk.OpensIffNothingGluedOrRedelivered`), and that it then gives the live state with exactly
  the deliveries in flight released (`Sessions.RecoveryIsLiveStateReleased`, `Disk.OpensAsIfUntorn`).
* **Crashes.** When a directory opens whose state log was cut at any byte and whose message logs lost any
  messages, exactly, and in which earlier state (`Crash.CutDirectoryOpensIff`).
* **Two brokers.** The durable and the in-memory broker answer alike until the first overflowing retry time,
  and from then on an acknowledgement tells them apart (`Refinement.BrokersAgree`,
  `Refinement.DivergenceIsVisible`).
* **Commands.** Every answer of every command, and exactly what it changes about which message, said on the fields
  (`Effects`, `Passes`); what each replayed step and each open does (`Openings`).
* **Delivery.** The invariant of both brokers (`Consistency`), the append as commit point
  (`Commit.CommitPoint`, `Disk.CommitPointOnDisk`), attempt numbers and ids over chains of sessions (`Attempts`),
  and what consumers can rely on (`Guarantees`).
* **Publishing.** One record per key, all messages of a partition key together, retries answered with the
  original, even spread, over any reopens (`Continuity`); duplicates leave no trace (`Idempotency`); when the
  recovery scan of arbitrary logs fails (`Publish`); fingerprints and ids whose texts can be read back
  (`Fingerprint`, `DeliveryId`).
* **Storage.** The segmented log is a flat sequence (`SegmentedLog`); reopening arbitrary bytes is idempotent,
  torn tails lose exactly the torn frames, bad bytes are reported for what they are, and when damage makes the open
  fail, exactly (`Recovery`, `Frames`).

## How the model is built

* **State and commands.** `GroupState`, `Delivery`, `Publish` and `Durable` give delivery state, publish
  state and the effect of every command as functions. `LocalBroker` is the durable broker in the source's
  own form, a class whose fields are updated in place by loops; every method is proved to do exactly what
  the corresponding function says, so the theorems about the functions are theorems about it. `Memory`
  and `InMemory` do the same for the in-memory broker.
* **Replay.** `Replay` takes an event apart into checked steps. `Maintenance`, `Commit`, `Reopen`,
  `Sessions` and `Attempts` reason about whole runs and chains of sessions over one directory, `Disk` about
  the bytes such chains leave when appends fail half-way, `Crash` about logs cut by a crash. `Consistency` has
  the invariant of both brokers, `Effects`, `Passes` and `Openings` what each command and each open does to the
  fields, `Guarantees` what consumers can rely on, `Refinement` compares the brokers,
  `Idempotency` and `Continuity` follow publish state over whole runs and chains.
* **Bytes.** `StateLog` is the line-oriented state log; `Frames`, `Segment`, `Recovery`, `SegmentNames`
  and `SegmentedLog` are the segment log, from single frames up to the `PartitionLog` class with its
  files. `Fingerprint` and `DeliveryId` are the canonical encoding behind publish fingerprints and the
  delivery-id format.

A group's state for one partition is a value; the class `GroupPartitionState` loads it, updates it in place
and hands it back to be stored. The nested maps from group to (topic, partition) are one map with the
combined key. A missing entry reads as the default one, which is what `entry().or_default()` makes of it.

Parameters and hypotheses:

* A failing append is a parameter of the command. In `Durable` and the modules that build on it alone, `io`
  says whether the append works, and a failed one writes nothing. In `Disk` the parameter is how many bytes
  the state log can still take, and a failed append leaves those that fit, as the source does; its results
  carry the others over. A message append that falls short is rolled back, as in the source.
* Clock readings are arguments of the commands, as in the source.
* The delivery-id, partition-key and fingerprint hashes are functions in `Config`. Results about ids assume
  that the deliveries made (`used`) have distinct ids; `DeliveryId.IdsAreDistinct` derives this from the
  absence of 64-bit collisions among their pre-hash strings.
* JSON is a codec with `decode(encode(x)) == x`, never producing a newline byte. The results on torn appends
  use one more fact about it, `StateLog.RejectsGlued`: a text that starts like an event (with a brace) and
  ends with a whole event, but is more than that, does not decode, because an object left open takes the
  second one for a part of it and a closed one must not be followed by anything.
* CRC-32 is any 32-bit function of the payload, SHA-256 any function of the bytes fed to it.

## Where code and documentation disagree

* The broker documents that deliveries in flight at a crash are released at open and redelivered
  (`crates/msg-broker/src/durable.rs:135-136`). Releasing writes no event
  (`crates/msg-broker/src/durable.rs:1618-1629`) and replay rejects a delivery of a message it still sees
  in flight (`crates/msg-broker/src/durable.rs:1139-1155`). So the redelivery itself makes the open
  after it fail: `Sessions.RedeliveryBreaksReopen` is a concrete run, and
  `Sessions.ReopensExactlyWhenNothingWasRedelivered` the exact condition.
* Malformed state lines are documented as fatal and a final incomplete line as harmless
  (`crates/msg-broker/src/durable.rs:138-140`). A failed append is not undone
  (`crates/msg-broker/src/durable.rs:1704-1716`), so a session that goes on after one writes the malformed line
  itself: its next event is acknowledged and lost, with everything behind it.
  `Disk.RetryAfterTornAppendBreaksReopen` is a concrete run; `Disk.OpensIffNothingGluedOrRedelivered` has the
  exact condition for both failures together.
* Damage in a middle record is documented to be an error (`crates/msg-storage/src/lib.rs:127-130`). A length
  field that now reaches the end of the file is taken for a torn tail and cut, with every valid frame behind
  it (`crates/msg-storage/src/lib.rs:604-614`): `Segment.EnlargedLengthDropsTail`, and
  `Recovery.DamageFailsOpenIff` for exactly when damage makes the open fail.
* The two brokers are meant to agree. When computing a retry time overflows, the in-memory broker has
  already dropped the delivery (`crates/msg-broker/src/memory.rs:232-241`) and the durable one has changed
  nothing. `Refinement.BrokersDisagree` is a concrete run on which an acknowledgement then succeeds in one
  and fails in the other, `Refinement.DivergenceIsVisible` says so for every such moment, and
  `Refinement.BrokersAgree` that they agree exactly until then.

## Model

| member | source | states |
|---|---|---|
| Disk.OpensIffNothingGluedOrRedelivered | crates/msg-broker/src/durable.rs:1704-1716 | The exact reopen condition on disk: after any chain of sessions, with any commands and state-log appends that fail after any number of bytes, the next open succeeds if and only if no session wrote a line right behind a torn one and none delivered a message that the replay of the log up to then still shows in flight; a malformed line is reported only in the first case, corruption only in the second. |
| Disk.RetryAfterTornAppendBreaksReopen | crates/msg-broker/src/durable.rs:1704-1716 | Concrete failure: creating a topic fails after one byte of its line, the retry is acknowledged, and the next open reports line 1 as malformed. |
| Sessions.ReopensExactlyWhenNothingWasRedelivered | crates/msg-broker/src/durable.rs:1129-1159 | For any chain of sessions, any commands and failed appends that write nothing, the next open succeeds if and only if no session delivered a message that the plain replay of the sessions before it still shows in flight; otherwise the error is corruption. |
| Sessions.RedeliveryBreaksReopen | crates/msg-broker/src/durable.rs:1618-1629 | Concrete failure of the documented redelivery promise: create, publish, consume, reopen, consume the same message again; the next open reports corruption. |
| Sessions.RecoveryIsLiveStateReleased | crates/msg-broker/src/durable.rs:288-324 | Whenever the open after a session succeeds, it gives exactly the state the session ended in (topics, messages, acknowledgements, retries, attempts, cursors, dead letters in order, index, counters) with exactly the in-flight deliveries released. |
| Refinement.BrokersAgree | crates/msg-broker/src/durable.rs:806-904 | In one session with working appends and attempt numbers within 32 bits, the brokers agree after every command - same answers, same delivery state, dead letters in the same order, although one collects due retries before the expiry and the other after it - if and only if no command computes an overflowing retry time. |
| Refinement.SameAnswer | crates/msg-broker/src/memory.rs:223-297 | From related states both brokers give every command the same answer, errors and maintenance counts included, and stay related if and only if no retry time overflowed. |
| Refinement.DivergenceIsVisible | crates/msg-broker/src/memory.rs:232-241 | After an overflowing retry time both brokers have answered the same error, and an acknowledgement of the delivery then succeeds in the durable broker and is not found in the in-memory one. |
| Refinement.BrokersDisagree | crates/msg-broker/src/memory.rs:353-369 | Concrete run: create, publish, consume, NACK at 2^64 - 1, ACK; the last command succeeds in one broker and fails in the other. |
| Crash.CutDirectoryOpensIff | crates/msg-broker/src/durable.rs:1752-1784 | A crash anywhere in a chain of sessions that cuts the state log at any byte and each message log at any message: what is left of the log is what some point of the chain had logged, and the directory opens if and only if the session had not redelivered by then and no delivery in that log is of a lost message; it then has the state of that point, released. |
| Crash.CutStateLogReopens | crates/msg-broker/src/durable.rs:1752-1784 | Cutting the state log of a session at any byte: recovery reads exactly the events of some prefix of the calls, and the directory opens in the state that prefix left, released, over all stored messages with their keys and counters. |
| Effects.ConsumeEffect | crates/msg-broker/src/durable.rs:551-609 | Every answer of a consume: an unknown topic, nothing waiting or asked for, a lease past 64 bits, a failed append; else the first messages that the group has neither acknowledged nor given up nor in flight nor scheduled, in (partition, offset) order, as many as asked for or all there are, each the stored one under its id, attempt number and lease; and nothing else about any message changes. |
| Effects.ShortConsumeLeavesNone | crates/msg-broker/src/state.rs:126-131 | After a consume that returned fewer than asked for, every stored message of the topic is acknowledged, dead-lettered, scheduled or in flight for the group. |
| Effects.NewGroupGetsAll | crates/msg-broker/src/durable.rs:960-1046 | A group without a slot for a partition that asks for as many messages as the topic stores gets every message of that partition. |
| Effects.AckEffect | crates/msg-broker/src/durable.rs:669-687 | Every answer of an acknowledgement: unknown id, another consumer, a failed append; else the message is acknowledged and nothing else known of it, exactly that delivery leaves flight, and every other message and the dead letters stay as they are. |
| Effects.NackEffect | crates/msg-broker/src/durable.rs:732-770 | Every answer of a NACK: those, an overflowing attempt number or retry time; else with all attempts used up exactly one dead letter with the message, its attempts, the time and the consumer's reason ("nack" without one), and otherwise a retry at the given time plus the backoff; every other message stays as it is. |
| Passes.PassEffect | crates/msg-broker/src/durable.rs:806-904 | Every answer of a maintenance pass: the error of the first expired delivery, by id, for which nothing can be decided; a failed append; else exactly the unexpired deliveries stay in flight, each expired message is given up or scheduled or at once available, each due retry is available, every other message stays as it is, dead letters are added in the order of ids with reason "expired", and the summary has the exact counts. |
| Effects.PublishEffect | crates/msg-broker/src/durable.rs:448-500 | Every answer of a publish, said on the stored messages: unknown topic; the first message of its key or a conflict; a failed append; else it is stored behind the others of the partition its key hashes to, or of the next one in turn, and nothing else changes. |
| Effects.CreateEffect | crates/msg-broker/src/durable.rs:357-373 | A new topic starts empty, at partition 0, and leaves all others alone. |
| Openings.ReopenEffect | crates/msg-broker/src/durable.rs:288-324 | An open that succeeds has nothing in flight and gives back, message by message, what each group has acknowledged, given up, scheduled and how often it was delivered, the dead letters, index and counters. |
| Openings.OpenOnAnything | crates/msg-broker/src/durable.rs:1549-1616 | Whatever a directory holds: it opens exactly if its events replay and no topic has two messages of one key with different intents, and then with the replayed state, nothing in flight, each key at its earliest message and each counter behind the unkeyed messages. |
| Continuity.KeyedTogether | crates/msg-broker/src/durable.rs:1724-1730 | In any session of any chain that opens, every message with a partition key is in the partition that the hash of its key names. |
| Consistency.ReachableStateIsConsistent | crates/msg-broker/src/state.rs:115-170 | Durable broker, in any session of any chain that opens: disjoint sets, least cursor, mutually inverse in-flight maps with equal attempts, exact dead-letter list. |
| Consistency.MemoryStateIsConsistent | crates/msg-broker/src/memory.rs:94-379 | In-memory broker, after any commands: the same invariant, even through overflowing retry times. |
| Commit.CommitPoint | crates/msg-broker/src/durable.rs:577-609 | From any consistent state, a command that returns an error changed neither state nor log; once an event is appended the command succeeds and replaying the event gives exactly the state it left. |
| Attempts.AttemptsWithinPolicy | crates/msg-broker/src/durable.rs:1285-1325 | In one session the attempt numbers of a (group, message) are 1, 2, 3, ... without gap or repeat, never above the maximum, and every dead letter has the maximum as its attempt count. |
| Attempts.AttemptsAcrossSessions | crates/msg-broker/src/durable.rs:1293-1312 | Over any chain of sessions that opens, attempt numbers still count up without gap or repeat, at most one past the maximum. |
| Attempts.IdsNeverRepeat | crates/msg-broker/src/durable.rs:987-996 | No delivery id is issued twice over any chain of sessions that opens. |
| Continuity.OneRecordPerKey | crates/msg-broker/src/durable.rs:448-500 | In any session of any chain that opens, failed appends included, a topic's log holds at most one record of a key, and the index has a key exactly then and points at exactly that record. |
| Continuity.RetryAcrossSessions | crates/msg-broker/src/durable.rs:1549-1616 | After a keyed publish succeeded in some session, publishing under that key stores nothing in any later session, for as long as the directory opens: equal intent gets the first message's identity from the rebuilt index, another intent a conflict. |
| Continuity.UnkeyedSpread | crates/msg-broker/src/helpers.rs:20-25 | In any session of any chain that opens, the next partition is the unkeyed count N mod P, and partition p holds exactly (N + P - 1 - p) / P unkeyed messages, whatever keyed, failed or replayed publishes did. |
| Idempotency.DuplicatesLeaveNoTrace | crates/msg-broker/src/idempotency.rs:178-195 | Deleting every replayed or conflicting publish from a run leaves all logs, counters, index entries, delivery state, events and other answers unchanged. |
| Publish.ScanFailsIffClash | crates/msg-broker/src/durable.rs:1575-1602 | On arbitrary logs the recovery scan fails if and only if two records of one key have different fingerprints. |
| Fingerprint.CanonicalIsInjective | crates/msg-broker/src/idempotency.rs:51-95 | Two publishes feed the hasher the same bytes if and only if topic, partition key, payload, content type, event type, source, subject and headers are all equal. |
| SegmentedLog.PartitionLog.Append | crates/msg-storage/src/lib.rs:197-243 | Append succeeds exactly when offset, payload size, segment file and disk allow it, returns the old length and puts the record behind all others; a failed one changes neither log nor next offset; segments stay within the threshold or hold one record. |
| SegmentedLog.PartitionLog.ReadFrom | crates/msg-storage/src/lib.rs:279-317 | A read from o of at most n records is exactly that slice of the flat log, through strict rescans of the files. |
| Recovery.ReopenIsIdempotent | crates/msg-storage/src/lib.rs:334-383 | If a directory opens, whatever its files contain, what is left recovers strictly, and opening again gives the same and cuts nothing further. |
| Recovery.CutLogOpens | crates/msg-storage/src/lib.rs:325-383 | Cutting the final segment at any byte: the log opens with exactly the records wholly inside the cut, that file shrunk to the last frame boundary, and the next offset right behind. |
| Recovery.DamageFailsOpenIff | crates/msg-storage/src/lib.rs:127-130 | Opening a log with damage behind good frames of any file fails if and only if files follow it or the frame found there ends before the end of its file; otherwise it succeeds as if that frame and all behind it had never been. |
| Recovery.BadFrameFailsOpen | crates/msg-storage/src/lib.rs:629-682 | On raw bytes: a checksum that is not its payload's, a payload that is no record, or one of another version, topic, partition or offset makes the open fail with that error, wherever in the log the frame is, unless it is the very last one; then exactly that frame is dropped. |
| Recovery.FlippedChecksumFailsOpen | crates/msg-storage/src/lib.rs:629-649 | A changed stored checksum is a checksum mismatch at open while a frame or a file follows. |
| Recovery.DamagedLogOpensIffLast | crates/msg-storage/src/lib.rs:351-363 | With intact length fields a damaged frame anywhere makes opening fail, unless it is the last of the final segment; then exactly that frame is dropped. |
| Disk.NextDirectoryStep | crates/msg-broker/src/durable.rs:288-324 | One session in a directory that has opened, byte by byte: the next open fails on a malformed line, with corruption, or gives the live state with everything in flight released and a torn last line cut off. |
| Disk.SessionOnDisk | crates/msg-broker/src/durable.rs:1752-1784 | What a session leaves in the state log recovers to exactly the events the broker logged, a torn line at the end notwithstanding; if a line was written behind a torn one, it does not recover. |
| Disk.CommitPointOnDisk | crates/msg-broker/src/durable.rs:1704-1716 | A command that fails has changed nothing in the broker, and whatever it wrote the state log still recovers as before; one that succeeds has written nothing or exactly its event's line. |
| Disk.OpensAsIfUntorn | crates/msg-broker/src/durable.rs:288-324 | A directory that opens after torn appends opens as if they had written nothing, so all results about chains of sessions carry over. |
| Sessions.ReplayIsLiveState | crates/msg-broker/src/durable.rs:1048-1114 | In a session that starts from an empty directory, replaying the written events gives the live state itself, in-flight deliveries included. |
| Sessions.ReopenStep | crates/msg-broker/src/durable.rs:299-312 | One session from any just-opened state: the next open fails with corruption if it redelivered, and otherwise gives the released live state, again just opened. |
| Reopen.OpsOnFull | crates/msg-broker/src/durable.rs:1048-1114 | The same for whole sequences of steps: replay commutes with the release, or fails at a redelivery. |
| Reopen.LoggedBreaks | crates/msg-broker/src/durable.rs:1139-1155 | Once a redelivery is logged, no later event or message makes the log replay again. |
| Replay.RecoveredStateIsValid | crates/msg-broker/src/durable.rs:1048-1114 | Whatever the state log contains, if its replay succeeds the state satisfies the whole delivery invariant. |
| Replay.OpKeepsValid | crates/msg-broker/src/durable.rs:1116-1283 | Every checked replay step keeps the delivery invariant, from any valid state. |
| Replay.ReplayOnMoreMessages | crates/msg-broker/src/durable.rs:1503-1535 | Messages published after an event do not change what replaying it gives. |
| Openings.AcceptedIffFits | crates/msg-broker/src/durable.rs:1116-1176 | Replay accepts exactly a new topic, a stored message that waits, a delivery in flight with the logged consumer, position and attempt, and a retry that is due; all else is corruption. |
| Openings.FittingStepMakes | crates/msg-broker/src/durable.rs:1178-1283 | An accepted step does to its message what the command did, and nothing to any other. |
| Commit.MaintenanceReplays | crates/msg-broker/src/durable.rs:868-896 | After the maintenance event is appended neither loop can fail, replaying the event does the same, and afterwards no retry is due. |
| Maintenance.AvailabilityList | crates/msg-broker/src/durable.rs:826-866 | The availability list of a maintenance event has no duplicates and is exactly what is due once the expired deliveries are settled. |
| Guarantees.FinishedIsForever | crates/msg-broker/src/durable.rs:553-558 | Once a group has acknowledged or dead-lettered a message, no later command of the session delivers it to that group again, whatever else happens. |
| Guarantees.FinishedAcrossSessions | crates/msg-broker/src/durable.rs:932-936 | It also stays finished over any number of further sessions, for as long as the directory opens. |
| Attempts.NextAttemptFits | crates/msg-broker/src/state.rs:133-138 | In any reachable state the next attempt number of an available message fits 32 bits: always in a first session, and over any chain unless the policy allows 2^32 - 1 attempts. |
| Crash.SurvivingLinesAreKept | crates/msg-broker/src/durable.rs:1704-1716 | Of the states the log went through, a cut keeps exactly those whose lines all lie within it. |
| Crash.ReplayOnFewerMessages | crates/msg-broker/src/durable.rs:1129-1159 | Over fewer messages a log that replays does exactly the same, or is corruption at the first delivery of a lost message. |
| StateLog.CutLogRecovers | crates/msg-broker/src/durable.rs:1752-1784 | A written log cut at any byte shrinks to its whole lines and reads back exactly their events. |
| StateLog.FailsAtFirstMalformed | crates/msg-broker/src/durable.rs:1768-1781 | Recovery of arbitrary lines fails at line n exactly if n is the first non-empty line that does not decode. |
| StateLog.RecoverIsIdempotent | crates/msg-broker/src/durable.rs:1752-1766 | Whatever the file contains, recovering it again changes and reads nothing new. |
| StateLog.GluedLogFails | crates/msg-broker/src/durable.rs:1768-1781 | A log with a line written behind a torn one does not recover, whatever follows; the error names the joined line. |
| StateLog.RecoverStateEvents | crates/msg-broker/src/durable.rs:1743-1784 | The recovery loops (last newline backwards, then line by line) keep and read what the specification says. |
| StateLog.StateLogFile.Append | crates/msg-broker/src/durable.rs:1704-1716 | An append succeeds if the whole line fits and otherwise leaves the part that did, without rollback. |
| Idempotency.SoundIsRecovered | crates/msg-broker/src/durable.rs:1549-1616 | In every reachable state index and counters are what recovery rebuilds from the logs. |
| Continuity.OpenRebuilds | crates/msg-broker/src/durable.rs:1549-1616 | If what a session left opens at all, the open rebuilds its index and counters exactly; no assumption on delivery ids. |
| Continuity.RetryReturnsOriginal | crates/msg-broker/src/durable.rs:455-463 | After a successful keyed publish and anything else in the session, publishing under that key stores nothing: equal intent gets the first message's identity, another intent a conflict. |
| Publish.UnkeyedCounts | crates/msg-broker/src/durable.rs:1556-1565 | The recovered count is the number of messages without a partition key. |
| Publish.ScanFindsLeast | crates/msg-broker/src/durable.rs:1536-1548 | Otherwise it maps each key to its least record by (partition, offset). |
| Refinement.RetryReadyRelated | crates/msg-broker/src/memory.rs:245-297 | A maintenance pass that expires first and collects after gives the same summary and state as one that collects first. |
| Fingerprint.FingerprintsTellIntents | crates/msg-broker/src/idempotency.rs:178-195 | So equal fingerprints mean equal intent, if the digest does not collide on the two encodings. |
| Fingerprint.Compute | crates/msg-broker/src/idempotency.rs:51-95 | The hasher calls, header loop included, feed exactly the canonical encoding. |
| DeliveryId.HashInputDetermines | crates/msg-broker/src/helpers.rs:48-62 | The string that is hashed determines group, topic, partition, offset and attempt, since names cannot contain a colon. |
| DeliveryId.IdTextDetermines | crates/msg-broker/src/helpers.rs:64-71 | Equal ids force equal hash, partition, offset and attempt. |
| DeliveryId.IdsAreDistinct | crates/msg-broker/src/helpers.rs:48-72 | Without a 64-bit collision among the deliveries made, all their ids differ. |
| DeliveryId.BrokerConfigIsGood | crates/msg-broker/src/helpers.rs:14-46 | With FNV-1a for ids and keyed partitions the configuration is valid for exactly the policies of 1 to 2^32 - 1 attempts, and ids are distinct as long as the hash tells the names in use apart. |
| DeliveryId.FnvKnownValues | crates/msg-broker/src/helpers.rs:38-46 | The hash has the published FNV-1a values of nothing and of "a". |
| DeliveryId.KeyedPartition | crates/msg-broker/src/helpers.rs:14-18 | A key's partition is below the count and congruent to its hash modulo the count. |
| DeliveryId.IdFormat | crates/msg-broker/src/helpers.rs:48-71 | The hashed string and the id, to the byte. |
| DeliveryId.DecimalReadsBack | crates/msg-broker/src/helpers.rs:55-71 | The decimal digits are those of the number, without leading zeros. |
| DeliveryId.HexReadsBack | crates/msg-broker/src/helpers.rs:64-66 | The 16 hexadecimal digits are those of the hash. |
| DeliveryId.IdIsAccepted | crates/msg-core/src/validation.rs:5-22 | The id of machine-size coordinates is 1 to 68 printable characters with nothing to trim, so the id constructor never rejects it. |
| GroupState.GroupPartitionState.MarkAcked | crates/msg-broker/src/state.rs:145-149 | Acknowledging adds the offset, forgets its attempts and moves the cursor to the least unacknowledged offset. |
| GroupState.GroupPartitionState.AdvanceCursor | crates/msg-broker/src/state.rs:165-169 | The cursor loop ends at the least offset, from the old cursor on, that is not acknowledged. |
| LocalBroker.DurableBroker.CreateTopic | crates/msg-broker/src/durable.rs:357-373 | The method's effect and answer are those of the command as the theorems take it, on errors, unopenable message logs and failed appends too. |
| LocalBroker.DurableBroker.PublishMessage | crates/msg-broker/src/durable.rs:448-500 | Likewise for a publish: topic check, idempotency check, append, counter, index, in that order. |
| LocalBroker.DurableBroker.SelectAvailableDeliveries | crates/msg-broker/src/durable.rs:960-1046 | The nested loops with early exit select the first available messages in canonical order, and fail at the first whose lease overflows. |
| LocalBroker.DurableBroker.ConsumeMessages | crates/msg-broker/src/durable.rs:577-609 | Likewise for a consume: nothing is delivered before its event is appended. |
| LocalBroker.DurableBroker.AckDelivery | crates/msg-broker/src/durable.rs:669-687 | Likewise for an acknowledgement. |
| LocalBroker.DurableBroker.ApplyPendingOutcome | crates/msg-broker/src/durable.rs:1212-1254 | Both in-flight entries go, and the offset becomes a scheduled retry or a dead letter with its entry. |
| LocalBroker.DurableBroker.NackDelivery | crates/msg-broker/src/durable.rs:732-770 | Likewise for a NACK: the outcome is computed before the event is appended. |
| LocalBroker.DurableBroker.ComputeExpired | crates/msg-broker/src/durable.rs:842-874 | The outcome loop computes settlements, event entries, due retries and the dead-letter count, or the first error. |
| LocalBroker.DurableBroker.RunRetryReady | crates/msg-broker/src/durable.rs:814-904 | Likewise for a maintenance pass, its summary included. |
| LocalBroker.DurableBroker.ApplyRecoveredEvent | crates/msg-broker/src/durable.rs:1048-1114 | Replays one event step by step up to the first that does not fit. |
| LocalBroker.DurableBroker.ScanTopic | crates/msg-broker/src/durable.rs:1552-1611 | The record loop rebuilds a topic's keys in the common index and counts its unkeyed messages, or finds a conflict. |
| LocalBroker.DurableBroker.RecoverPublishState | crates/msg-broker/src/durable.rs:1549-1616 | The topic loop fails exactly if some topic has a conflict, and otherwise gives the recovered index and counters. |
| LocalBroker.DurableBroker.ReleaseRecoveredPending | crates/msg-broker/src/durable.rs:1618-1629 | On a consistent state, taking each delivery's offset out of its slot releases exactly the deliveries in flight. |
| LocalBroker.DurableBroker.Open | crates/msg-broker/src/durable.rs:292-324 | Opening gives what the theorems take it to give, errors included. |
| LocalBroker.OpenDirectory | crates/msg-broker/src/durable.rs:288-324 | Opening a directory from the state log's bytes: a torn last line is dropped, a malformed line is an error, and otherwise the broker is what the theorems take it to be. |
| InMemory.InMemoryBroker.PublishMessage | crates/msg-broker/src/memory.rs:39-92 | The in-memory publish does what its specification says. |
| InMemory.InMemoryBroker.ConsumeMessages | crates/msg-broker/src/memory.rs:94-205 | So does consume: selection first, then deliveries one by one on the changing state. |
| InMemory.InMemoryBroker.AckDelivery | crates/msg-broker/src/memory.rs:207-221 | So does the acknowledgement. |
| InMemory.InMemoryBroker.SchedulePendingRetryOrDlq | crates/msg-broker/src/memory.rs:346-379 | The delivery has left its slot before the retry time can overflow; a dead letter is recorded after the offset is marked. |
| InMemory.InMemoryBroker.NackDelivery | crates/msg-broker/src/memory.rs:223-243 | So does the NACK. |
| InMemory.InMemoryBroker.RunRetryReady | crates/msg-broker/src/memory.rs:245-297 | So does the maintenance pass: expiry up to the first error, then the retries due by then. |
| Frames.FrameVerdict | crates/msg-storage/src/lib.rs:615-682 | For every payload under every stored checksum the reader gives the record exactly if checksum, JSON, version, topic, partition and offset are right, and else the first of these that is wrong. |
| Frames.CompleteFrame | crates/msg-storage/src/lib.rs:585-627 | Every frame that is not cut short is a length, a checksum and a payload, little-endian. |
| Bytes.LittleEndianBytes | crates/msg-storage/src/lib.rs:532-544 | The four bytes of a length or checksum, least significant first. |
| Frames.FrameReadsBack | crates/msg-storage/src/lib.rs:532-544 | A written frame reads back as its record, whatever bytes follow. |
| Segment.ScanSegment | crates/msg-storage/src/lib.rs:563-692 | The scan loop over positions gives the specified records, next offset and kept size, or the specified error, with and without repair. |
| Segment.RepairedIsGood | crates/msg-storage/src/lib.rs:694-723 | On arbitrary bytes, what a successful repairing scan keeps is strictly scannable, with the same records. |
| Segment.TornTail | crates/msg-storage/src/lib.rs:585-614 | Cutting an undamaged file at any byte loses exactly the frames not wholly inside the cut. |
| Segment.DamageReportedIff | crates/msg-storage/src/lib.rs:604-614 | Damage behind good frames is reported by a repairing scan if and only if the frame found there, whose end its length field alone decides, ends before the end of the file; otherwise the rest is silently dropped. |
| Segment.EnlargedLengthDropsTail | crates/msg-storage/src/lib.rs:127-130 | Failure of the documented promise: enlarging a middle frame's length past the end drops it and all valid frames behind it. |
| Recovery.SegmentsHold | crates/msg-storage/src/lib.rs:334-383 | Segments tile the offsets: each holds exactly the records between its two offsets, the next starts there, and only the last may be empty. |
| Recovery.GoodOpens | crates/msg-storage/src/lib.rs:325-383 | An undamaged log opens unchanged. |
| SegmentedLog.PartitionLog.Open | crates/msg-storage/src/lib.rs:131-159 | Opening a directory gives the recovered log or the error; a failed open touches no file, a successful one cuts at most the last and leaves a log free of damage. |
| SegmentedLog.PartitionLog.CreateActiveSegment | crates/msg-storage/src/lib.rs:436-450 | The new segment's name is never taken, and it changes nothing in the log. |
| SegmentedLog.PartitionLog.AppendFrameWithRollback | crates/msg-storage/src/lib.rs:546-561 | A short write is undone to the byte. |
| SegmentNames.NameOf | crates/msg-storage/src/lib.rs:507-530 | A file stem parses to an offset exactly when it is that offset's 20-digit name. |
| SegmentNames.DiscoverSegmentFiles | crates/msg-storage/src/lib.rs:484-505 | Listing a directory passes over files without the segment extension, fails exactly if another name is no 64-bit offset, and otherwise gives each segment file once, by strictly ascending offset. |
| Ordering.TextLeqIsLexicographic | crates/msg-broker/src/durable.rs:815-822 | Ids and names are ordered byte by byte: a prefix first, else by the first byte that differs. |
| Domain.PositionLeqIsLexicographic | crates/msg-broker/src/durable.rs:826-840 | Due retries are listed by group, topic, partition and offset. |
| Ordering.Traverse | crates/msg-broker/src/durable.rs:815-822 | Taking least keys one by one enumerates an ordered map in key order: every key once, ascending. |

## Left out

- HTTP and gRPC services, the daemon, PostgreSQL storage, metrics, tracing and the TypeScript packages: adapters around the broker.
- `list_topics`, `get_topic`, `status` and `list_dlq`: read-only views of maps and of the dead-letter list.
- Attempts.AttemptsAcrossSessions: attempt numbers are unbounded; `Attempts.NextAttemptFits` shows that the 32-bit `next_attempt_number` never overflows, except that a policy of 2^32 - 1 attempts in a later session is not covered.
- Refinement.SameAnswer: the in-memory `attempt_number + 1` has no overflow check, so the comparison is about states whose attempt numbers in flight are below the 32-bit limit.
- Refinement.BrokersAgree: is about attempt numbers below the 32-bit limit, which `Refinement.PolicyGivesRoom` derives for every policy of fewer than 2^32 - 1 attempts.
- Publish.ScanFailsIffClash: the recovery scan's error when a topic has 2^64 unkeyed messages is not modelled.
- LocalBroker.DurableBroker.ScanTopic: likewise without that error.
- LocalBroker.DurableBroker.RecoverPublishState: likewise without that error.
- LocalBroker.DurableBroker.Open: starts from events already decoded, which `LocalBroker.OpenDirectory` provides; errors of reading the message logs are not modelled.
- SegmentNames.DiscoverSegmentFiles: entries that are not regular files and errors of listing a directory are not modelled.
- Crash.CutDirectoryOpensIff: topics whose creation was cut away keep their logs on disk, which creating the topic again would open; sessions after such a crash are not followed.
- Commit.CommitPoint: a failed state-log append is taken to write nothing; Disk.CommitPointOnDisk is the same with the bytes it can leave.
- Sessions.ReopensExactlyWhenNothingWasRedelivered: the same holds of it; Disk.OpensIffNothingGluedOrRedelivered has no such restriction.
- Disk.OpensIffNothingGluedOrRedelivered: that `File::flush` fails after a whole line was written is not modelled, since flushing a file without buffer does nothing.
- SegmentedLog.PartitionLog.AppendFrameWithRollback: truncating back after a short write is taken to work.
- SegmentedLog.PartitionLog.Open: reading a file is taken to work; the texts, positions and checksums that errors carry, and the checks for platforms whose addresses are narrower than 64 bits, are not modelled.
- Segment.ScanSegment: the file is read as one sequence of bytes; that the scan reads header and payload in separate calls is not modelled.
- The durable broker reads its message logs as sequences of envelopes; that these are the flat logs of SegmentedLog is by construction of both, not a theorem.
- The broker's maps of group states are one flat map of values; aliasing of group states is not modelled.
- Validation of names, headers and configuration in `msg-core`, beyond what the delivery-id results need.
- Sharing one directory between processes, which the repository excludes.
