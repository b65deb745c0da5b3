# VNCSSdetector, the recording and analysis pipeline

A Dafny model of the Rust half of VNCSSdetector: diag messages arrive in containers of HDLC frames,
are written to QMDL files, indexed in a manifest, analyzed by a harness of stateful analyzers while
they arrive and again from the files, exported to captures, and reported in notifications.

`dafny verify dfyconfig.toml` checks the whole project.

## How it is built

Code that changes state step by step is a class or a method, proved against a function on sequences;
what the program promises is then proved about that function, for all inputs and all runs.

- `Crc`, `Fcs`: the frame check sequence as RFC 1662 Appendix C runs it, shown to be the checksum that
  the algorithm parameters describe (the `check` and `residue` fields beside them belong to other
  parameters and are not used). Any burst of at most 16 bits changes it.
- `Hdlc`, `Frames`, `Wire`, `Diag`, `Containers`: byte stuffing (RFC 1662 section 4.2), cutting at flags,
  message layouts, containers of frames.
- `Disks`, `Qmdl`: files changed one I/O operation at a time, any of which may fail; writing and reading
  QMDL files.
- `Events`, `Imsi`, `Gsmtap`, `Harness`, `Reports`, `Analysis`, `Analyzers`: analyzers, the
  identity-request automaton, rows, reports, analyzing a recording again, and what the harness does for
  each analyzer. The RRC and NAS decoders are one arbitrary function
  from GSMTAP type and payload to an optional element, and analyzers are arbitrary step functions, so
  results about the harness hold for every choice of them.
- `Pcap`, `Check`: export to captures, and the command-line checker. `Pcap.Build` says what the build
  decides: whether 16-bit arithmetic that overflows panics or wraps, in the parser and in the writer,
  and whether an ARFCN too wide for its 14 bits is cut or refused by the serializer. The daemon and the
  analyses are modelled as release builds, in which nothing of this panics.
- `Store`, `RecordingStores`, `Recorder`, `Sessions`, `CrashSafety`, `DiagTasks`: the manifest, the task
  that handles recording commands, whole runs told from their commands, and what a crash leaves.
  `Recorder` is the specification of a command; `DiagTasks.DiagTask` is the task with its open files, on a
  disk that may fail.
- `AnalysisQueue`: request handlers, recorder, shutdown thread and analysis thread around two locks and
  two channels, as interleaved steps.
- `Notifications`: debounce and backoff over a nondecreasing clock.
- `LogMask`: log mask packing and the configuration of all log types.
- `Vectors`: bytes that the program's tests pin down.

## What came out

- Forgetting the container structure of a recording is harmless exactly when no message data that lacks
  its final flag is followed by more bytes (`Frames.Harmless`). The comment in
  `vncssdectector/lib/src/qmdl.rs:95-99` says it never matters; `Qmdl.ForgettingCanMatter` is an input
  for which it does. Under that condition, and only then, analyzing a recording again gives the rows of
  the live analysis.
- A dangling escape before the closing flag is accepted, which RFC 1662 section 4.3 calls invalid:
  `Hdlc.DanglingEscapeAccepted`. Decoding is canonical with that case and interior flags excluded.
- The unconditional decrement of the current index in `delete_entry` is right exactly when the deleted
  entry comes before the current one (`Store.KeepsCurrentIff`, `Store.LosesCurrent`). The recorder keeps
  the current entry last, so under its commands it always is.
- `delete_all_entries` removes files before it rewrites the manifest. It is safe against a crash only
  when the manifest on disk lists none of the entries deleted (`Store.DeleteAllSafeIff`). In
  every reachable state any other command may be cut short anywhere; this one may not, unless there is
  nothing to delete (`CrashSafety.CommandSafeIff`).
- The analysis thread can be blocked for ever. Whoever sends it a message holds a lock that it needs:
  a request handler both locks, the recorder and the shutdown thread the one on the store; and the
  shutdown thread can wait for a recorder that waits for that lock. `AnalysisQueue.NeverMovesIff` says
  exactly when the thread never moves again, and five lemmas reach it, each for another reason. So of
  the queue only safety is claimed.

## Model

| member | source | states |
|---|---|---|
| Crc.ChecksumMatchesParameters | vncssdectector/lib/src/diag.rs:67-78 | the register run low bit first computes the checksum that poly, init, refin, refout and xorout describe |
| Crc.BurstChangesRegister | vncssdectector/lib/src/diag.rs:67-78 | two byte strings that differ in a burst of at most 16 bits leave different registers, from any start |
| Crc.GoodFcs | vncssdectector/lib/src/hdlc.rs:82-91 | payload and two bytes leave the register at 0xf0b8 exactly when the bytes are the payload's checksum, low byte first |
| Hdlc.Encapsulate | vncssdectector/lib/src/hdlc.rs:29-54 | the loops yield payload and checksum escaped, then the flag |
| Hdlc.Decapsulate | vncssdectector/lib/src/hdlc.rs:56-94 | the loop with its escaping flag and the two pops decide as the fold over the body and the checksum test do, error by error |
| Hdlc.RoundTrip | vncssdectector/lib/src/hdlc.rs:29-94 | every byte string, the empty one included, comes back from its encapsulation |
| Hdlc.FlagOnlyCloses | vncssdectector/lib/src/hdlc.rs:32-52 | 0x7e occurs in an encapsulation only as its last byte |
| Hdlc.Canonical | vncssdectector/lib/src/hdlc.rs:56-94 | a frame without interior flag and dangling escape decodes to a byte string if and only if it is its encapsulation |
| Hdlc.DanglingEscapeAccepted | vncssdectector/lib/src/hdlc.rs:65-80 | a frame with 0x7d before its flag is accepted like the one without it, though it is no encapsulation |
| Hdlc.CheckFcsIff | vncssdectector/lib/src/hdlc.rs:82-93 | the checksum is popped and accepted exactly when the bytes are a payload followed by its checksum |
| Hdlc.CheckFcsIffGood | vncssdectector/lib/src/hdlc.rs:82-93 | the test on the popped checksum is the one-constant receiver test of RFC 1662 Appendix C |
| Hdlc.BurstRejected | vncssdectector/lib/src/hdlc.rs:82-91 | payload and checksum changed in any burst of at most 16 bits and escaped again are rejected with InvalidChecksum |
| Hdlc.AdjacentChangeRejected | vncssdectector/lib/src/hdlc.rs:82-91 | in particular any change confined to two adjacent bytes |
| Hdlc.StuffedAsRfc1662 | vncssdectector/lib/src/hdlc.rs:29-54 | an encapsulation is payload and checksum with 0x7e as 7d 5e and 0x7d as 7d 5d, bit 5 complemented, and a closing 0x7e |
| Hdlc.AcceptedAsRfc1662 | vncssdectector/lib/src/hdlc.rs:56-94 | a frame is accepted as data if and only if it ends in 0x7e, has no pair but 7d 5e and 7d 5d, and unstuffs to data and its checksum |
| Hdlc.RejectedFor | vncssdectector/lib/src/hdlc.rs:56-94 | which error every other frame gets |
| Frames.FrameLenUnique | vncssdectector/lib/src/diag.rs:91 | a frame reaches up to and including the first flag, or to the end when there is none |
| Frames.ConcatSplit | vncssdectector/lib/src/diag.rs:91 | cutting after every flag loses and adds no byte |
| Frames.SplitGivesFrames | vncssdectector/lib/src/diag.rs:91 | every piece cut off is one non-empty frame |
| Frames.GroupingIffHarmless | vncssdectector/lib/src/qmdl.rs:95-100 | cutting after joining gives the frames of the parts cut one by one exactly when no unclosed part is followed by bytes |
| Diag.MessageRoundTrip | vncssdectector/lib/src/diag.rs:123-295 | a well-formed message of any of the eight log kinds, all four RRC layouts, or a response reads back from its bytes whatever follows |
| Diag.LogLayout | vncssdectector/lib/src/diag.rs:125-136 | the header fields of a log, by byte offset and width |
| Diag.LogBodyLayout | vncssdectector/lib/src/diag.rs:131-135 | its body starts at byte 16 and gets the log type and the inner length less 12 |
| Diag.BodyKinds | vncssdectector/lib/src/diag.rs:151-235 | which log types have which body, and which NAS types are uplink |
| Diag.PacketLayout | vncssdectector/lib/src/diag.rs:238-293 | the fields of an RRC packet by byte offset, for the four ranges of header versions |
| Diag.NasLayout | vncssdectector/lib/src/diag.rs:197-209 | four version bytes, then as many bytes as the header length says, less 4 |
| Diag.ResponseLayout | vncssdectector/lib/src/diag.rs:142-148 | opcode, subopcode, status and the sixteen mask sizes by byte offset |
| Diag.CheckedRead | vncssdectector/lib/src/diag.rs:127-190 | a build that checks overflow reads what a release build reads, or panics, which it does exactly at a log whose length does not cover the headers subtracted from it |
| Containers.IntoMessages | vncssdectector/lib/src/diag.rs:87-113 | the loops give one result per frame of each message in order, errors with the frame or the payload included, or panic in such a build at a frame with such a log |
| Containers.FrameResult | vncssdectector/lib/src/diag.rs:91-109 | a frame gives its message, whatever bytes follow that, or an error with the frame or the payload |
| Containers.AllMessagesDecode | vncssdectector/lib/src/diag.rs:87-113 | the results of many containers are those of all their frames in a row |
| Containers.ContainerRoundTrip | vncssdectector/lib/src/diag.rs:87-113 | well-formed messages, serialized, framed and grouped or joined in any way, come back from their container as they were |
| Qmdl.QmdlWriter.WriteContainer | vncssdectector/lib/src/qmdl.rs:35-41 | the file grows by all message data and the counter by their length; after a failed write, by the complete ones and part of one, of which only the former are counted |
| Qmdl.QmdlReader.GetNextMessagesContainer | vncssdectector/lib/src/qmdl.rs:77-109 | the end exactly at the limit, otherwise the next frame in a container of its own |
| Qmdl.ReadAll | vncssdectector/lib/src/qmdl.rs:65-109 | a bounded reader ends, with the frames up to the end of the one that holds the last byte of the limit |
| Qmdl.ReadEndIsLimit | vncssdectector/lib/src/qmdl.rs:80-94 | it stops exactly at the limit if and only if that is a frame boundary or the end |
| Qmdl.BoundedReaderTerminatesIff | vncssdectector/lib/src/qmdl.rs:77-94 | repeated reads reach None exactly when the limit is within the stream |
| Qmdl.ForgettingContainersIff | vncssdectector/lib/src/qmdl.rs:35-41 | writing containers and reading the file back gives the same message results, errors included, if and only if they are harmless |
| Qmdl.ForgettingClosedContainers | vncssdectector/lib/src/qmdl.rs:95-100 | in particular when every message data ends in a flag |
| Qmdl.ForgettingCanMatter | vncssdectector/lib/src/qmdl.rs:95-100 | two data without flags give two results live and one from the file |
| Qmdl.SnapshotIff | vncssdectector/lib/src/qmdl.rs:77-94 | a reader bounded by an earlier size gets the messages of the earlier file exactly when that ended at a frame or nothing was appended |
| Qmdl.SnapshotOfContainersIff | vncssdectector/daemon/src/diag.rs:181-200 | it gets exactly the messages of the containers written by then if and only if, further, these are harmless |
| Imsi.ImsiRequestedAnalyzer.Transition | vncssdectector/lib/src/analysis/imsi_requested.rs:46-99 | flag, counter and state after a transition |
| Imsi.ImsiRequestedAnalyzer.AnalyzeInformationElement | vncssdectector/lib/src/analysis/imsi_requested.rs:117-184 | one element is one step of the automaton, with the event it returns |
| Imsi.StateOfTrace | vncssdectector/lib/src/analysis/imsi_requested.rs:46-184 | after any trace the state is the class of the last classified element, the counter is below 50 and no event is pending |
| Imsi.HighExactly | vncssdectector/lib/src/analysis/imsi_requested.rs:46-99 | a High event comes exactly on auth then identity, identity then disconnect, or disconnect then identity unless the carried counter stands at 49 |
| Imsi.AfterAuthNoTicks | vncssdectector/lib/src/analysis/imsi_requested.rs:49-55 | the count is zero after authentication |
| Imsi.TimeoutExactly | vncssdectector/lib/src/analysis/imsi_requested.rs:168-181 | the timeout notice comes on every fiftieth tick and never otherwise |
| Imsi.TimeoutCadence | vncssdectector/lib/src/analysis/imsi_requested.rs:82-88 | after an identity request not preceded by a disconnect, n elements without a transition raise (n + 1) / 50 timeout notices |
| Imsi.EventsExactly | vncssdectector/lib/src/analysis/imsi_requested.rs:46-184 | for every position of every trace the event with its severity and text, or none, told over the NAS and RRC elements |
| Gsmtap.TypeRoundTrip | vncssdectector/lib/src/gsmtap.rs:159-239 | type and subtype bytes are read as a GSMTAP type exactly when they are its own, where a type without subtype accepts any subtype byte |
| Gsmtap.RrcSubtypes | vncssdectector/lib/src/gsmtap_parser.rs:34-138 | the channel of every PDU number for every header version, as GSMTAP numbers it, and the two errors |
| Harness.MaxTypeIsMaximum | vncssdectector/lib/src/analysis/analyzer.rs:226-233 | the maximum severity is reached by an event, or is Informational, and none exceeds it |
| Harness.EmptyRows | vncssdectector/lib/src/analysis/analyzer.rs:217-224 | a row is empty exactly when it was analyzed and raised nothing above Informational |
| Harness.Harness.AnalyzeInformationElement | vncssdectector/lib/src/analysis/analyzer.rs:437-453 | each analyzer steps once from its own state and its event gets the packet number |
| Harness.Harness.AnalyzeQmdlMessages | vncssdectector/lib/src/analysis/analyzer.rs:391-435 | the loop is the fold over message results, one row and one packet number each |
| Harness.Harness.AnalyzePcapPacket | vncssdectector/lib/src/analysis/analyzer.rs:355-389 | one captured packet is one step on what stands at bytes 30, 40 and from 44 on, or a panic if it is too short for the slices taken |
| Harness.RunConcat | vncssdectector/lib/src/analysis/analyzer.rs:391-435 | how messages were batched makes no difference to rows and states |
| Harness.RunNumbers | vncssdectector/lib/src/analysis/analyzer.rs:393-394 | every message result takes exactly one packet number |
| Harness.DecimalReads | vncssdectector/lib/src/analysis/analyzer.rs:437-453 | the packet number in a message is in decimal without leading zeros |
| Analyzers.EachRunsAlone | vncssdectector/lib/src/analysis/analyzer.rs:391-453 | each analyzer ends in the state it reaches alone on the decoded elements, and its events in every row are those it raises alone, with the packet number |
| Analyzers.LiveRunsAlone | vncssdectector/lib/src/analysis/analyzer.rs:391-453 | the same for containers one after another |
| Analyzers.ImsiInHarness | vncssdectector/lib/src/analysis/imsi_requested.rs:117-184 | in the harness the identity-request analyzer is its automaton on the decoded elements, row by row |
| Reports.AnalysisWriter.Analyze | vncssdectector/daemon/src/analysis.rs:50-63 | the non-empty rows are added to the report in order and the highest severity is returned |
| Reports.MaxOfRowsIsMaximum | vncssdectector/daemon/src/analysis.rs:54-62 | that severity is the maximum over all rows |
| Reports.ReportedOne | vncssdectector/lib/src/analysis/analyzer.rs:217-233 | a row is reported exactly when it was skipped or has an event above Informational |
| Reports.ReportedAppend | vncssdectector/daemon/src/analysis.rs:50-63 | the report on more rows is the two reports in order |
| Reports.NotifiedIffReported | vncssdectector/daemon/src/diag.rs:206-215 | the severity of a container is above Informational exactly when it adds a row with a warning to the report |
| Analysis.LiveIsRun | vncssdectector/daemon/src/analysis.rs:50-63 | container by container the rows are those of one run over all messages |
| Analysis.ReanalysisEqualsLiveIff | vncssdectector/daemon/src/analysis.rs:127-184 | from the file, frame by frame, a fresh harness gives the rows of the live analysis if and only if the containers are harmless |
| Analysis.AnalyzeStream | vncssdectector/daemon/src/analysis.rs:150-176 | the loop adds the reported rows of the whole file to the report, or the first of them if a write fails |
| Analysis.PerformAnalysis | vncssdectector/daemon/src/analysis.rs:127-184 | the report is replaced by that of the recording's file, if entry and files exist; if something fails, at most the report changes, to its first rows |
| Analysis.ReportRebuilt | vncssdectector/daemon/src/analysis.rs:127-184 | for a recording of the run whose containers are harmless this leaves the disk as it was |
| Pcap.GsmtapHeaderFields | vncssdectector/lib/src/gsmtap.rs:241-291 | every header field can be read back from where GSMTAP puts it, the ARFCN modulo 14 bits |
| Pcap.DatagramLengths | vncssdectector/lib/src/pcap.rs:117-138 | the IP and UDP length fields are the lengths of packet and datagram as long as those fit 16 bits |
| Pcap.DatagramLayout | vncssdectector/lib/src/pcap.rs:101-150 | type, subtype and payload stand where the capture analysis looks for them |
| Pcap.DatagramHeaders | vncssdectector/lib/src/pcap.rs:116-142 | version, protocol, addresses, ports and the other constant fields of the IP and UDP headers |
| Pcap.ToDatagram | vncssdectector/lib/src/pcap.rs:116-142 | a message becomes its datagram or is refused, depending on ARFCN, length and build |
| Pcap.GsmtapPcapWriter.WriteGsmtapMessage | vncssdectector/lib/src/pcap.rs:101-150 | a written message adds one packet, whose identification counts packets modulo 16 bits; a refused one adds nothing |
| Check.Report.ProcessRow | vncssdectector/check/src/main.rs:52-77 | totals, warnings, skipped rows and the count of each reason are those of the rows processed |
| Check.WarningsCounted | vncssdectector/check/src/main.rs:52-77 | the warnings are the events above Informational in rows with a time stamp that were not skipped |
| Check.SkippedCounted | vncssdectector/check/src/main.rs:52-77 | the skipped rows, in all and for each reason |
| Check.AnalyzeQmdl | vncssdectector/check/src/main.rs:113-138 | the report is on the run over all messages of the file |
| Check.AnalyzePcap | vncssdectector/check/src/main.rs:93-111 | the report is on the run over all packets of the capture, and there is none exactly when a packet is too short for the slices taken |
| Check.Pcapify | vncssdectector/check/src/main.rs:140-168 | the capture holds exactly the messages that yield GSMTAP, in order, and the export panics exactly when a frame cannot be read or a message not be written in this build |
| Check.ExportPreservesDetection | vncssdectector/check/src/main.rs:93-168 | packet by packet the capture is skipped or gives the events of the message it came from up to the packet number, and as many warnings in all |
| Store.PositionFound | vncssdectector/daemon/src/qmdl_store.rs:355-360 | an entry is found exactly when one has the name, and it is the first |
| Store.KeepsCurrentIff | vncssdectector/daemon/src/qmdl_store.rs:361-369 | deleting another entry keeps the same recording current if and only if that entry came before it |
| Store.LosesCurrent | vncssdectector/daemon/src/qmdl_store.rs:361-369 | entries deleted after the current one, where another becomes current and where no entry is left at the index |
| Store.ManifestReplacedAtOnce | vncssdectector/daemon/src/qmdl_store.rs:307-327 | cut short anywhere, rewriting the manifest leaves the old or the new one and no other file changed |
| Store.NewEntryManifest | vncssdectector/daemon/src/qmdl_store.rs:232-250 | the same for the manifest while an entry is opened |
| Store.DeleteEntryManifest | vncssdectector/daemon/src/qmdl_store.rs:354-381 | the same for the manifest while an entry is deleted |
| Store.WriteManifestSafeIff | vncssdectector/daemon/src/qmdl_store.rs:307-327 | after a crash at any point the disk is consistent if and only if it backs every new entry |
| Store.UpdateSizeSafeIff | vncssdectector/daemon/src/qmdl_store.rs:297-305 | the same if and only if the file is at least as long as the new size |
| Store.NewEntrySafeIff | vncssdectector/daemon/src/qmdl_store.rs:232-250 | the same if and only if no entry claims bytes of the new name |
| Store.DeleteEntrySafeIff | vncssdectector/daemon/src/qmdl_store.rs:354-381 | the same if and only if no other entry has the name |
| Store.DeleteAllSafeIff | vncssdectector/daemon/src/qmdl_store.rs:383-413 | the same if and only if the manifest on disk lists none of the entries deleted |
| Store.ProgressSafe | vncssdectector/daemon/src/qmdl_store.rs:307-327 | safe operations cut short by a failure leave the disk consistent |
| RecordingStores.RecordingStore.WriteManifest | vncssdectector/daemon/src/qmdl_store.rs:307-327 | the three operations in order up to the first failure; the disk stays sound |
| RecordingStores.RecordingStore.NewEntry | vncssdectector/daemon/src/qmdl_store.rs:232-250 | the new entry is last and current with two empty files; other recordings keep theirs; whatever fails, the disk stays sound under a fresh name |
| RecordingStores.RecordingStore.CloseCurrentEntry | vncssdectector/daemon/src/qmdl_store.rs:286-294 | there is no current entry afterwards, and an error if there was none before |
| RecordingStores.RecordingStore.UpdateEntryQmdlSize | vncssdectector/daemon/src/qmdl_store.rs:297-305 | only that entry's size changes; whatever fails, the disk stays sound if the file is that long |
| RecordingStores.RecordingStore.DeleteEntry | vncssdectector/daemon/src/qmdl_store.rs:354-381 | the first entry of the name goes, then both its files; other recordings keep theirs; whatever fails, the disk stays sound |
| RecordingStores.RecordingStore.DeleteAllEntries | vncssdectector/daemon/src/qmdl_store.rs:383-413 | all entries go whose files could be removed, and only these; files of other names stay as they are |
| Recorder.AgreePreserved | vncssdectector/daemon/src/diag.rs:80-234 | under every command the task is recording exactly when there is a current entry, which is last and lists the bytes written, and nothing panics |
| Recorder.RunsKeepInv | vncssdectector/daemon/src/diag.rs:256-300 | after every run of commands, moreover, manifest and memory agree and every recording holds its containers and the report on them |
| Recorder.BeginHasInv | vncssdectector/daemon/src/qmdl_store.rs:106-117 | a recorder on a loaded consistent store starts out that way |
| Recorder.RunKeeps | vncssdectector/daemon/src/diag.rs:181-200 | from any reachable state on, a listed recording loses no byte, and a closed one keeps its size and files |
| Recorder.SnapshotReads | vncssdectector/daemon/src/diag.rs:181-200 | a reader that took the listed size gets, however much later, the messages of the containers finished then, if and only if these are harmless and ended at a frame or nothing followed |
| Sessions.RunReports | vncssdectector/daemon/src/diag.rs:80-234 | after every run, told from its commands: one notice, in order, with the highest severity of its rows, for exactly the containers that warn while a recording is on; the highest severity seen; the recordings announced; the names listed; and no file left of a name that is not listed any more |
| Sessions.RunFromStart | vncssdectector/daemon/src/diag.rs:236-302 | the same from the start on any consistent store |
| Sessions.SessionOnDisk | vncssdectector/daemon/src/diag.rs:181-204 | the recording that is on is listed last with its length, and its files hold its containers and their report |
| CrashSafety.OpsDoCommand | vncssdectector/daemon/src/diag.rs:80-234 | the I/O operations listed for a command, done in order, leave the disk that the command leaves |
| CrashSafety.CommandSafeIff | vncssdectector/daemon/src/diag.rs:256-300 | in any state that keeps the invariant, a crash anywhere in a command leaves a consistent disk, unless the command deletes all of at least one entry, which is never safe |
| CrashSafety.CrashRecovers | vncssdectector/daemon/src/qmdl_store.rs:106-117 | wherever a run is cut short inside any other command, a recorder that starts again from the disk satisfies the invariant of runs |
| DiagTasks.DiagTask.Start | vncssdectector/daemon/src/diag.rs:80-102 | a new entry is opened, the previous recording left without announcement |
| DiagTasks.DiagTask.Stop | vncssdectector/daemon/src/diag.rs:105-127 | the current recording is announced as finished and its entry closed; a panic exactly at an index past the entries |
| DiagTasks.DiagTask.Delete | vncssdectector/daemon/src/diag.rs:129-142 | a current recording is stopped first; entry list and task end as specified even if removal fails |
| DiagTasks.DiagTask.DeleteAll | vncssdectector/daemon/src/diag.rs:144-154 | the task is stopped and all entries go but those whose removal failed |
| DiagTasks.DiagTask.Write | vncssdectector/daemon/src/diag.rs:181-200 | bytes, counter and manifest entry after a container; whatever fails, the disk stays sound |
| DiagTasks.DiagTask.Record | vncssdectector/daemon/src/diag.rs:181-204 | file, counter, manifest, report and harness after a container |
| DiagTasks.DiagTask.ProcessContainer | vncssdectector/daemon/src/diag.rs:170-234 | the same with warnings; containers from elsewhere, or while stopped, change nothing |
| DiagTasks.DiagTask.RunCommands | vncssdectector/daemon/src/diag.rs:256-300 | unless an I/O operation fails the loop ends in the specified state; store and task agree even after failed deletions; and whatever fails, panic or not, without a command to delete everything the disk stays consistent |
| AnalysisQueue.AnalysisStatus.DequeueToRunning | vncssdectector/daemon/src/analysis.rs:113-119 | the first name moves from the queue to running |
| AnalysisQueue.AnalysisStatus.FinishRunningAnalysis | vncssdectector/daemon/src/analysis.rs:121-125 | the running name moves to finished |
| AnalysisQueue.AnalysisStatus.QueueQmdl | vncssdectector/daemon/src/analysis.rs:224-232 | a name is queued exactly when it is neither queued nor running |
| AnalysisQueue.AnalysisStatus.QueueAny | vncssdectector/daemon/src/analysis.rs:238-256 | of several names only the first that is neither queued nor running is queued, and none only if all are |
| AnalysisQueue.RequestLeads | vncssdectector/daemon/src/analysis.rs:224-266 | a request for a name that is neither queued nor running, finished or not, queues it and goes on to wake the thread |
| AnalysisQueue.ReceiveLeads | vncssdectector/daemon/src/analysis.rs:194-214 | what each message makes the thread do |
| AnalysisQueue.StepSafe | vncssdectector/daemon/src/analysis.rs:186-266 | no step of any party makes the analysis thread panic, and each keeps the invariant of queue, locks and channels |
| AnalysisQueue.RunSafe | vncssdectector/daemon/src/analysis.rs:186-266 | under every schedule: no dequeue from an empty queue or beside a running job, no name twice, first in first out, each taken name finished once, a wake-up pending whenever names are left over, and announced recordings marked finished in order |
| AnalysisQueue.NeverMovesIff | vncssdectector/daemon/src/analysis.rs:127-266 | the thread never moves again, whatever the others do, exactly when the lock or message it needs is kept from it by a sender without a slot, by a handler behind such a sender, or by shutdown thread and recorder waiting for each other |
| AnalysisQueue.StarvedNeverMoves | vncssdectector/daemon/src/diag.rs:105-127 | no schedule frees a thread that is kept waiting so |
| AnalysisQueue.MovesUnlessStarved | vncssdectector/daemon/src/analysis.rs:186-217 | otherwise there is a schedule after which it has moved |
| AnalysisQueue.HandlerBlocks | vncssdectector/daemon/src/analysis.rs:234-266 | reachable: a handler waits for a slot with both locks |
| AnalysisQueue.RecorderBlocks | vncssdectector/daemon/src/diag.rs:105-127 | reachable: the recorder waits for a slot with the store's lock, and no handler is involved |
| AnalysisQueue.WaitingHandlerBlocks | vncssdectector/daemon/src/analysis.rs:238-239 | reachable: a handler with the status lock waits for the recorder |
| AnalysisQueue.ShutdownBlocks | vncssdectector/daemon/src/main.rs:149-165 | reachable: the shutdown thread waits for a slot with the store's lock |
| AnalysisQueue.ShutdownAndRecorderBlock | vncssdectector/daemon/src/main.rs:149-160 | reachable: shutdown thread and recorder wait for each other |
| Notifications.NotificationWorker.Receive | vncssdectector/daemon/src/notifications.rs:77-103 | a notification updates the status of its type unless it is disabled or inside the debounce period |
| Notifications.NotificationWorker.ReceiveAll | vncssdectector/daemon/src/notifications.rs:75-111 | everything that came in is taken in order |
| Notifications.NotificationWorker.TrySend | vncssdectector/daemon/src/notifications.rs:114-151 | a status is sent exactly when due by the history of the worker, with its text, and records the outcome |
| Notifications.NotificationWorker.SendPending | vncssdectector/daemon/src/notifications.rs:113-152 | going through the statuses sends each that is pending and due |
| Notifications.StatusIsHistory | vncssdectector/daemon/src/notifications.rs:38-44 | a status says which text was accepted last, whether one was since the last success, when the last success and failure were, and the failures since |
| Notifications.LatestTextIsSent | vncssdectector/daemon/src/notifications.rs:98-102 | what is sent is the text accepted last, and it was pending |
| Notifications.SendsIffDue | vncssdectector/daemon/src/notifications.rs:114-127 | a status is sent exactly when a text is pending and the last failure, if any, is 2 to the number of failures, but at most 256, seconds ago |
| Notifications.SuccessesApart | vncssdectector/daemon/src/notifications.rs:91-97 | when all notifications of a type carry a debounce of at least d, its successful sends are at least d apart |
| Notifications.BackoffBound | vncssdectector/daemon/src/notifications.rs:118-148 | in a failing streak attempt n starts at least 2^n - 2 seconds after the first up to n = 9, then 256 seconds more for each |
| LogMask.BuildLogMaskRequest | vncssdectector/lib/src/diag.rs:379-406 | the loop builds the mask byte by byte |
| LogMask.MaskBits | vncssdectector/lib/src/diag.rs:384-399 | bit i is set exactly when it is inside the mask and its code accepted; padding is clear |
| LogMask.CodeParts | vncssdectector/lib/src/diag.rs:388 | below 4096 the code is type times 4096 plus item |
| LogMask.DiagDevice.SetLogMask | vncssdectector/lib/src/diag_device.rs:246-272 | one request is sent, and the first answer to it decides |
| LogMask.MaskSetIff | vncssdectector/lib/src/diag_device.rs:254-271 | a mask request succeeds exactly when the first answer of its kind has status 0, and fails with that status, or for want of an answer |
| LogMask.RangesTakenIff | vncssdectector/lib/src/diag_device.rs:219-243 | the same for the ranges, with the sizes of that answer |
| LogMask.DiagDevice.ConfigLogs | vncssdectector/lib/src/diag_device.rs:274-286 | the mask of every log type with codes is set in order, up to the first not confirmed; it succeeds exactly when the ranges and all masks are |
| LogMask.EnabledCodes | vncssdectector/lib/src/diag_device.rs:274-286 | the whole configuration enables exactly the accepted codes of items the device reported for some type |
| LogMask.EnabledCodesInRange | vncssdectector/lib/src/diag_device.rs:274-286 | if no type reports more than 4096, these are the accepted codes whose item is inside the range of their type |

## Left out

- The async runtime and the web server: a section that holds a lock without waiting is a single step, channels are sequences.
- Parsing a container from the device, ioctls and device start-up: containers are arbitrary values here. The newer device type repeats the log configuration of the older one.
- The RRC and NAS decoders and the stateless analyzers: arbitrary functions.
- `Timestamp::to_datetime` and everything derived from it: time stamps are raw numbers, and the export theorem does not speak of them.
- The serializer library: reads follow the declared layouts, a catch-all variant starts again at its first byte, and a length is subtracted when the field that needs it is read.
- The capture file format around packets, and its snapshot length: a capture is its sequence of packets.
- Check.ExportPreservesDetection: assumes that analyzers ignore the packet number, which holds of all in the repository.
- Harness.Harness.AnalyzeQmdlMessages: a release build; where a build that checks overflow would panic is said by `Containers.IntoMessages`.
- Pcap.GsmtapPcapWriter.WriteGsmtapMessage: time stamps are not converted, and the file written to does not fail.
- Check.Report.ProcessRow: counters are unbounded, and the printed lines are not modelled.
- Reports.AnalysisWriter.Analyze: runs the harness as its step function (`Harness.Harness.AnalyzeQmdlMessages` is proved to compute it); the metadata line of a report and the JSON text of rows are not modelled.
- Analysis.ReportRebuilt: one analysis on its own; writes by the analysis thread to the report of a recording still in progress are not interleaved with those of the recorder.
- Qmdl.QmdlReader.GetNextMessagesContainer: read errors are not modelled, and an unbounded reader, which returns empty containers for ever, is only used bounded.
- RecordingStores.RecordingStore.WriteManifest: a write is on the disk when the call returns; that the file handle is not flushed before the rename is not modelled.
- Qmdl.QmdlWriter.WriteContainer: likewise, messages still in the file handle when the manifest lists their bytes are not modelled.
- RecordingStores.RecordingStore.NewEntry: names are parameters. The source takes them from the clock in seconds and truncates files on reuse; the theorems state freshness where they need it.
- RecordingStores.RecordingStore.DeleteAllEntries: entries kept because a removal failed may lack a file, so soundness is not claimed (see `Store.DeleteAllSafeIff`), nor which of the two files a kept entry has left.
- Recorder.RunsKeepInv: every I/O operation succeeds; with failures `DiagTasks.DiagTask.RunCommands` and the methods of `RecordingStores.RecordingStore` say what is kept. The step in which the shutdown thread closes the entry behind the task's back is not a command.
- DiagTasks.DiagTask.ProcessContainer: notifications and display updates always find room in their channels; only the severities sent are recorded.
- Start and modification times, version and platform fields of manifest entries, and recovering a manifest from a directory.
- The zip download, which reopens an entry by an index taken earlier.
- AnalysisQueue.RunSafe: safety only; what an analysis does to the disk is `Analysis.PerformAnalysis`, and a read error inside an analysis, on which the thread panics, does not occur.
- AnalysisQueue.NeverMovesIff: a free lock goes to any party, not to the first that asked; requests are not cancelled while they wait; the channels to display and notifications have room; other readers of the locks let go of them without waiting; and the recorder's first command to itself has been taken. Whether there is a recording to announce is left open.
- LogMask.DiagDevice.SetLogMask: writing to and reading from the device do not fail.
- LogMask.DiagDevice.ConfigLogs: writing to and reading from the device do not fail.
- Notifications.NotificationWorker.SendPending: the failure counter is unbounded, and the HTTP client is the outcome of each attempt.
- Installer, user interfaces, displays, battery, backend and database clients.
