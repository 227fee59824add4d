# Verification of marstack-access

This project models the parts of the marstack-access SSH gateway whose correctness rests on more
than one function at a time, and proves what they promise. It is checked with
`dafny verify dfyconfig.toml`.

**Just-in-time access.** `Approval` holds the request rows, the derived states, the services and
the grant lookup; `ApprovalRaces` cuts every service call at its statements and lets any number of
calls interleave. `Rfc3339` is the calendar and the timestamp text that the lookup compares as
strings, and `Policy` and `Validate` are what a request is checked against. Expiry is never stored
as a state; all times are cut to whole seconds when they are stored.

**Sessions.** `SessionRows` holds the session table, the registry of live sessions and their
services. `Lifecycle` is one step relation for any number of proxies, kills, store failures,
crashes and restarts. `FrontDoor` composes it with `ApprovalRaces` and adds `resolve`, so that its
main theorem speaks about whole runs of the gateway: what must have happened before a session is
dialled. `Recording` is the recorder with its two copiers and whoever closes it, down to the bytes
of the file and what a player makes of them; `Start` and `Payload` are the requests
that precede a session. Only safety is claimed: nothing here says that a killed session ends.

**Audit.** `Audit` is the recorder with its bounded queue, alone and with concurrent callers,
shipping loop and close. `Json` is a lexer and grammar wide enough to contain RFC 8259, `Encoding`
is how an event is written (escaping as in section 7 of that RFC, plus what Go's encoder adds),
`JsonLines` is what can be read from a file of one record a line when writes fail, and `Trail` is
the file sink and the windowed tail. `Loki` is the grouping of a batch into streams.

**Text forms and stores.** `UriPath` and `SigV4` are the canonical request and the signing of a
request. `Identity` holds users, tokens and keys, and `Migrate` the migration loop. `Texts` and
`Binary` hold what several of them share: the byte order on strings, sorting, splitting, bytes.

How the model is built:

- A class whose fields the gateway updates in place is a class here, and its methods are proved
  against functions on values. The concurrent machines are step relations over the same functions,
  so what is proved of a function holds in both.
- One SQL statement or transaction is one atomic step, with the primary keys, unique indexes,
  foreign keys and cascades that the migrations declare. A service call is not atomic: its reads and
  its writes are separate steps.
- Strings are sequences of bytes, as Go strings are; `Instant` counts nanoseconds from the start of
  year 0.
- Clocks, random ids and secrets, dial results, disk and store failures, the order of a Go map and
  the scheduler are chosen freely by the environment: they are parameters of methods or of steps.
- SHA-256 and HMAC are function parameters. Where a claim needs them free of collisions, it says so
  (`Identity.Injective`, `SigV4.CollisionFree`, which can be met, by `SigV4.CollisionFreeExists`).
- The JSON decoder is a parameter of the tail and of the player. It is assumed to read encoded
  events and to accept nothing but JSON; `Trail.InverseReads` and `Recording.InverseReadsEvents`
  show that such decoders exist. No player is part of the gateway; the one of the model reads the
  complete lines after the header.

What turned out not to hold as one might expect, each with its exact condition:

- The grant lookup is exact for the UTC texts this service writes. A row written with a numeric
  offset is missed exactly if its local clock is not after now while it is live, and hides a live
  UTC row exactly if it has expired and its local clock is ahead (`Approval.OffsetRowIsMissed`,
  `Approval.OffsetRowShadows`).
- Timestamps are read back exactly before year 10000, and sort as time does across that bound
  exactly if the earlier year is at most the first four digits of the later one
  (`Rfc3339.ParseOfFormat`, `Rfc3339.LongYearOrder`).
- A player of a recording gets back the chunks that were recorded, and as many bytes as the counter
  says, exactly if every one of them is UTF-8 and none follows a write that left part of its line
  (`Recording.PlayedIsRecorded`, with `StrayByte`, `SplitRune` and `GluedIsLost` for inputs).
- After a close every durable audit event has been handed over or counted exactly if no call was
  between its two steps when the queue was last found empty, and none appended later
  (`Audit.ExitSettles`, `Audit.OverlapStrands`).
- Loki streams are partitioned by their labels exactly if no two events have one key and different
  labels; a bar in an action can cause that (`Loki.PartitionIffNoClash`, `Loki.BarsClash`).
- Two x-amz- headers that differ in case alone are signed under one name twice
  (`SigV4.SignedNamesDistinct`).
- A migration whose key repeats an earlier one is recorded as done and never executed
  (`Migrate.CleanRun`).
- The tail fails as a whole when one line in its window is 64 KiB or longer (`Trail.TailOfTrail`).

## Model

| member | source | states |
|---|---|---|
| Rfc3339.FormatSortsAsTime | internal/platform/approval/repository.go:92-102 | the text comparison of the grant query is sound: UTC texts of years 0 to 9999 are ordered as the instants are, second by second, and equal texts mean equal seconds (section 5.1 of RFC 3339) |
| Rfc3339.ParseOfFormat | internal/platform/approval/repository.go:108-149 | what was written with second resolution is read back as the instant cut to whole seconds, for exactly the instants before year 10000; the text of a later one is not read at all |
| Rfc3339.InRangeYears | internal/platform/approval/repository.go:92-102 | the instants before year 10000 are those whose date, worked out through the calendar, has a year of four digits |
| Rfc3339.LongYearOrder | internal/platform/approval/repository.go:92-102 | the text of a year before 10000 sorts before that of a later year, as it should, exactly if it is at most the first four digits of that year |
| Validate.NameIsPattern | internal/kernel/validate/validate.go:19-41 | the name scanner accepts exactly the strings its regular expression matches, length bounds included |
| Validate.PrincipalIsPattern | internal/kernel/validate/validate.go:79-91 | the same for principals |
| Validate.DestinationRoundTrip | internal/dataplane/sshd/destination.go:15-34 | parsing succeeds exactly on a valid principal, one colon and a valid name, gives back those two, and printing the result gives back the input |
| Validate.DestinationRefusals | internal/dataplane/sshd/destination.go:15-34 | which of the four refusals an unparsable destination gets |
| Payload.ReadStringExact | internal/dataplane/sshd/payload.go:50-61 | a payload is read exactly when it is a wire string within the limit followed by the rest that is returned; the uint32 slice bounds do not wrap for limits below 2^32 - 4 |
| Payload.WireUnique | internal/dataplane/sshd/payload.go:50-61 | two payloads that begin with a wire string and are equal begin with the same string |
| Payload.Uint32RoundTrip | internal/dataplane/sshd/payload.go:55-56 | big-endian decoding and encoding of four bytes undo each other |
| Payload.BoundedDimension | internal/dataplane/sshd/payload.go:63-68 | every dimension is between 1 and 1000 when the fallback is |
| Payload.ParsePtyDimensions | internal/dataplane/sshd/payload.go:30-40 | both dimensions are between 1 and 1000 for every byte string |
| Payload.ParsePtyRequest | internal/dataplane/sshd/payload.go:13-28 | total on all byte strings; the terminal is never empty and the dimensions stay in range |
| Payload.WindowChangeRoundTrip | internal/dataplane/sshd/payload.go:30-40 | an encoded window-change gives back its columns and rows where they are in range, and the defaults where not |
| Payload.PtyRequestRoundTrip | internal/dataplane/sshd/payload.go:13-28 | an encoded pty-req gives back terminal and size; an empty or too long terminal becomes the default |
| Payload.ExecRequestRoundTrip | internal/dataplane/sshd/payload.go:42-48 | an encoded exec gives back its command up to 4096 bytes, and nothing beyond that |
| Start.AwaitStart | internal/dataplane/sshd/session.go:94-135 | the first shell, exec, close or deadline decides; the answers given are those of the requests up to it; the terminal is the one last asked for |
| Start.AnswersReach | internal/dataplane/sshd/session.go:409-413 | answers go to exactly the requests that want a reply |
| Start.AnswersInOrder | internal/dataplane/sshd/session.go:94-135 | at most one each, in order, and a refusal for unknown requests only |
| Policy.CheckPrincipals | internal/platform/policy/service.go:82-114 | accepts exactly lists of 1 to 32 valid principals that the target accepts, and returns them strictly sorted |
| Policy.CheckedUnique | internal/platform/policy/service.go:102-113 | the accepted list depends on the set of principals given, not on their order or repetition |
| Policy.Compact | internal/platform/policy/service.go:102-104 | compaction of a sorted list is strictly sorted and has the same members |
| Policy.Repository.Insert | internal/platform/policy/repository.go:14-50 | one transaction: a taken name, a taken id or a repeated principal leaves both tables unchanged |
| Policy.Repository.Delete | internal/platform/policy/repository.go:137-147 | removes the policy and, by cascade, its principals |
| Policy.Repository.Matching | internal/platform/policy/repository.go:149-170 | answers the first match by kind and name, or none exactly if nothing matches |
| Policy.Service.Create | internal/platform/policy/service.go:27-65 | keeps the tables valid; the insert cannot meet a repeated principal, only an id collision can fail it |
| Policy.Service.Remove | internal/platform/policy/service.go:139-152 | removes exactly a stored policy with a well-formed id and keeps the tables valid |
| Policy.Service.Evaluate | internal/platform/policy/service.go:154-184 | invalid questions are refused, the others answered from the matching policy |
| Policy.MatchingUnique | internal/platform/policy/repository.go:149-170 | names are unique, so the query has one possible answer |
| Policy.AllowedIffAuthorised | internal/platform/policy/service.go:154-200 | a well-formed question is allowed exactly if some stored policy names that user, or that non-empty role, for that target and principal |
| Policy.InsertMonotone | internal/platform/policy/repository.go:14-50 | adding a policy never turns allow into deny |
| Policy.DeleteMonotone | internal/platform/policy/repository.go:137-147 | deleting a policy never turns deny into allow |
| Policy.CreationGrantsExactly | internal/platform/policy/service.go:27-65 | a creation adds exactly this: the principals given, on that target, for that user or for that role |
| Policy.DeletionLeavesExactly | internal/platform/policy/service.go:139-152 | a deletion leaves exactly what some other policy grants |
| Policy.InsertKeepsValid | internal/platform/policy/repository.go:14-50 | insertion of a checked list keeps unique names, existing parents, 1 to 32 principals each, and known roles |
| Policy.DeleteKeepsValid | internal/platform/policy/repository.go:137-147 | so does deletion |
| Policy.RunKeeps | internal/platform/policy/service.go:27-152 | in every run of creations and deletions the tables are valid and every stored policy has the checked principals of the creation that stored it |
| Approval.Repository.Insert | internal/platform/approval/repository.go:17-32 | a new id is stored, a taken one leaves the table alone |
| Approval.Repository.Decide | internal/platform/approval/repository.go:69-90 | the compare-and-set moves a pending row and reports whether it did; a zero expiry is stored as NULL |
| Approval.Repository.ActiveGrant | internal/platform/approval/repository.go:92-102 | returns a row of greatest expiry text among those selected, or none exactly if none is selected |
| Approval.Service.Create | internal/platform/approval/service.go:27-69 | succeeds exactly for valid input that a policy permits and a new id, and stores that request as pending |
| Approval.Service.Settle | internal/platform/approval/service.go:120-194 | an undisturbed approve, deny or cancel either is refused by its checks and changes nothing, or settles the row as asked |
| Approval.Service.Grant | internal/platform/approval/service.go:196-229 | refuses ill-formed questions and answers the others from the row the query returned |
| Approval.StampAfter | internal/platform/approval/repository.go:92-102 | comparing stored text with the text of now agrees with comparing the instants: cutting to whole seconds does not move the strict comparison |
| Approval.LookupIsExact | internal/platform/approval/repository.go:92-102 | over every table of texts this service writes, the fast lookup reports active exactly if some approved row for that user, target and principal is unexpired, and reports one of latest expiry |
| Approval.LookupIsSound | internal/platform/approval/service.go:196-229 | over tables with any texts at all, an active answer is an approved, unexpired row, with its reason |
| Approval.LookupRightIff | internal/platform/approval/repository.go:92-102 | over tables with any texts that parse, the answer is right exactly if no row is live or the row the query came upon is |
| Approval.OffsetRowSelected | internal/platform/approval/repository.go:92-102 | a row whose expiry is written at any offset is selected by what its local clock shows and live by the instant it stands for |
| Approval.OffsetRowIsMissed | internal/platform/approval/repository.go:92-102 | so a row that stands alone is live and not found exactly if its local clock, in seconds, is not after now while its instant is |
| Approval.OffsetRowShadows | internal/platform/approval/repository.go:92-102 | and a live UTC row is hidden by a row at an offset exactly if that one has expired and its local clock is ahead of the UTC expiry |
| ApprovalRaces.NewRowOk | internal/platform/approval/service.go:39-63 | a created request has a TTL of 0 to 12 hours and no decision |
| ApprovalRaces.CheckedIsReady | internal/platform/approval/service.go:84-194 | a call that passed the read and the checks is an admin other than the requester, or the cancelling requester, on a pending row inside its window |
| ApprovalRaces.SettledOk | internal/platform/approval/repository.go:69-90 | despite the cut to whole seconds the stored expiry is exactly the stored decision time plus the stored TTL, and the decision is before the end of the window |
| ApprovalRaces.ToldIsStored | internal/platform/approval/service.go:150-193 | what a successful caller is told is what is stored, decision time and expiry cut to whole seconds |
| ApprovalRaces.StepKeeps | internal/platform/approval/service.go:27-194 | every step of any call keeps the invariant of rows and calls, and no step changes a settled row |
| ApprovalRaces.RunKeeps | internal/platform/approval/service.go:27-194 | hence every reachable state satisfies it |
| ApprovalRaces.SettledForever | internal/platform/approval/repository.go:69-90 | over every interleaving a request leaves pending at most once: its state, decider, decision time and expiry never change again |
| ApprovalRaces.OneWinner | internal/platform/approval/service.go:128-194 | a settled request was settled by exactly one call, the one its row names; a pending one by none |
| ApprovalRaces.AuthorisedWhenRaised | internal/platform/approval/service.go:48-50 | a call past the policy check was permitted by the policies of an earlier state |
| ApprovalRaces.ApprovedRowStory | internal/platform/approval/service.go:27-164 | every approved row, in every reachable state: raised by its requester with its reason and TTL, under policies that allowed it, approved by an admin who is not the requester, inside the window, for exactly that TTL |
| ApprovalRaces.LookupInRuns | internal/platform/approval/service.go:196-229 | in every reachable state the grant lookup is exact |
| SessionRows.Repository.Insert | internal/platform/session/repository.go:18-32 | a new id is stored open, a taken one leaves the table alone |
| SessionRows.Repository.Finish | internal/platform/session/repository.go:34-49 | ends an open session and reports it; rows that ended stay as they are |
| SessionRows.Repository.CloseDangling | internal/platform/session/repository.go:51-65 | ends every open session, counts them and leaves none open |
| SessionRows.EndedOnce | internal/platform/session/repository.go:34-65 | finish and reconcile in either order end a session once; the second changes nothing |
| SessionRows.Registry.Add | internal/dataplane/sshd/registry.go:17-22 | registers the context under the id |
| SessionRows.Registry.Remove | internal/dataplane/sshd/registry.go:24-29 | removes the id and nothing else |
| SessionRows.Registry.Kill | internal/dataplane/sshd/registry.go:31-42 | true exactly if the id is registered; cancels that context and no other |
| SessionRows.TrimReason | internal/platform/session/service.go:160-166 | at most 500 bytes of the trimmed reason, all of it if it fits |
| SessionRows.Service.Open | internal/platform/session/service.go:23-65 | succeeds exactly for well-formed input and a new id, and stores that row open |
| SessionRows.Service.Close | internal/platform/session/service.go:67-81 | ends exactly an open session, with the trimmed reason |
| SessionRows.Service.Kill | internal/platform/session/service.go:127-154 | reaches into the data plane exactly for a visible, open session, and cancels at most that one |
| Lifecycle.StepKeeps | internal/dataplane/sshd/session.go:137-251 | every step of every proxy, kill and node keeps the invariant over rows, files, registry and kills |
| Lifecycle.RunKeeps | internal/dataplane/sshd/session.go:137-251 | hence every state of every run with crashes, restarts and store failures satisfies it, and no step changes an ended row |
| Lifecycle.EndedForever | internal/platform/session/repository.go:34-65 | rows are never lost and a session that ended stays exactly as it ended |
| Lifecycle.ReturnedProxies | internal/dataplane/sshd/session.go:137-262 | every path after a successful open calls finish exactly once and leaves the id out of the registry; a stored end carries the final byte count |
| Lifecycle.IdsNeverShared | internal/dataplane/sshd/recorder.go:46-50 | no two proxies hold one id even if generated ids collide, because the recording is created exclusively |
| Lifecycle.RegisterIsFresh | internal/dataplane/sshd/session.go:172-180 | add never overwrites a live entry, and a dial finds recording, row and registration in place |
| Lifecycle.OpenRowsHaveOwners | internal/platform/session/service.go:83-93 | while serving, every open row belongs to a proxy of this process whose end is not stored; it may be one that was told its row could not be inserted |
| Lifecycle.ReconcileClosesAll | internal/platform/session/service.go:83-93 | a startup that completes leaves no row open, before any session exists |
| Lifecycle.ReconcileBeforeSessions | internal/app/app.go:159-184 | between the end of one process and the first session of the next there is a reconcile |
| Lifecycle.KillFoundIt | internal/dataplane/sshd/registry.go:31-42 | a kill reports true only if the id was registered to that proxy at an earlier moment of the same process |
| Lifecycle.ReportedIsCancelled | internal/platform/session/service.go:127-154 | a reported kill has cancelled the context of the session it found |
| Lifecycle.CancelTouchesOne | internal/dataplane/sshd/registry.go:31-42 | cancelling is permanent, and a kill cancels one context |
| FrontDoor.DoorEvidence | internal/dataplane/sshd/session.go:368-398 | a call past each check of resolve was let through by that check in an earlier state, in that order, for the same identity and destination |
| FrontDoor.ProxiesHaveDoors | internal/dataplane/sshd/session.go:47-85 | every proxy was entered through a call that resolved |
| FrontDoor.LiveIsSanctioned | internal/platform/approval/service.go:27-69 | the row behind a live grant was approved by an admin other than its requester and raised under policies that allowed it |
| FrontDoor.DialIsAuthorised | internal/dataplane/sshd/session.go:47-85 | a session that reaches dial was preceded in the same call by an accepting, pinned target, a policy, and a then-live sanctioned grant; recording, row and registration exist |
| Recording.Recorder.Write | internal/dataplane/sshd/recorder.go:73-93 | writes one line of JSON with the time since the start, counts the bytes of the chunk only if the disk took all of the line, keeps what a failed write left, and refuses once closed |
| Recording.Recorder.Close | internal/dataplane/sshd/recorder.go:95-104 | closes and leaves the contents alone |
| Recording.HeaderIsRecord | internal/dataplane/sshd/recorder.go:53-66 | the header is an object on one line, whatever the terminal is called |
| Recording.EventIsRecord | internal/dataplane/sshd/recorder.go:81-86 | every event is an array on one line, whatever bytes the chunk holds |
| Recording.EventDetermines | internal/dataplane/sshd/recorder.go:81-86 | the line determines the time and, up to bytes that are not UTF-8, the chunk |
| Recording.InverseReadsEvents | internal/dataplane/sshd/recorder.go:81-86 | a decoder as assumed exists |
| Recording.WriteKeepsFile | internal/dataplane/sshd/recorder.go:73-93 | after any write the file is the header and what each write left, and the counter is the payload of the lines written |
| Recording.PlayedIsKept | internal/dataplane/sshd/recorder.go:73-93 | whatever writes failed, and wherever, a reader of complete lines gets back exactly the lines that do not follow a partial one, in order, with bytes that are not UTF-8 replaced |
| Recording.PlayedIsRecorded | internal/dataplane/sshd/recorder.go:73-93 | the chunks come back as recorded, and as many bytes as counted, exactly if every recorded chunk is UTF-8 and none follows a partial write |
| Recording.StrayByte | internal/dataplane/sshd/recorder.go:81-91 | failing input: one byte that is not UTF-8 is counted as one and comes back as three |
| Recording.SplitRune | internal/dataplane/sshd/recorder.go:81-91 | failing input: one character split over two reads, valid as a whole, does not come back |
| Recording.GluedIsLost | internal/dataplane/sshd/recorder.go:86-91 | failing input: from any open recording, the line after a partial write is counted and lost |
| Recording.StepKeeps | internal/dataplane/sshd/recorder.go:73-115 | every step of the copiers and the closer keeps the invariant, and a closed recording does not change |
| Recording.RunKeeps | internal/dataplane/sshd/session.go:296-307 | over every interleaving times do not go back, the file is what the writes left, the counter is the payload written, and each stream is written as a prefix of what its client got, behind by at most one chunk |
| Recording.RunPlays | internal/dataplane/sshd/sshd_test.go:663-716 | and in every reachable state what a reader of the file gets back is as above, with the same exact condition |
| Recording.FrozenOnceClosed | internal/dataplane/sshd/session.go:221-262 | a close freezes file and counter, so the count finish stores is the final one |
| Audit.Recorder.Record | internal/kernel/audit/audit.go:82-116 | a failed durable write ships nothing; a full queue drops the shipment and counts it; either sink may be missing |
| Audit.Recorder.Flush | internal/kernel/audit/audit.go:158-172 | hands over a non-empty batch and keeps what was accepted |
| Audit.Recorder.Receive | internal/kernel/audit/audit.go:131-138 | moves the head of the queue to the batch and keeps the batch under 64 |
| Audit.Recorder.Drain | internal/kernel/audit/audit.go:143-153 | empties queue and batch into the sink, in order |
| Audit.OrderKept | internal/kernel/audit/audit.go:125-172 | every step keeps: batches handed over, then batch, then queue are the accepted events in order |
| Audit.RunKeeps | internal/kernel/audit/audit.go:82-182 | in every reachable state that holds, durable events are accepted, dropped or in flight, and the batch is under 64 while the loop waits |
| Audit.Accounting | internal/kernel/audit/audit.go:82-116 | the numbers add up in every reachable state |
| Audit.ExitSettles | internal/kernel/audit/audit.go:143-182 | once the loop has exited, every durable event was handed over or counted as dropped exactly if, when the queue was last found empty, no call was between its two steps, and none has appended since |
| Audit.CloseDrains | internal/kernel/audit/audit.go:174-182 | so it holds whenever no Record overlaps Close |
| Audit.OverlapStrands | internal/kernel/audit/audit.go:82-182 | and from every reachable state whose loop has yet to find its queue empty it can fail: a call begun there can leave its event in the queue for good |
| Json.NoSuffixIsJson | internal/kernel/audit/tail.go:48-58 | whatever is cut off the front of the text of an object or array, the rest is not JSON, whatever its strings contain |
| Json.NoPrefixIsJson | internal/kernel/audit/tail.go:48-58 | nor is the text without its end |
| Json.GluedIsJammed | internal/kernel/audit/file.go:43-51 | an object or array written as these are, whole or cut short, followed by the start of another cannot become JSON |
| Json.JammedGrows | internal/kernel/audit/file.go:43-51 | however much more is glued on |
| Json.JammedIsNotJson | internal/kernel/audit/file.go:43-51 | and is not JSON |
| JsonLines.FoundInContent | internal/kernel/audit/tail.go:48-61 | for any sequence of whole and partial writes, a reader line by line finds exactly the records that neither are partial nor follow a partial one, and a last one that lacks only its newline |
| JsonLines.FoundInComplete | internal/dataplane/sshd/recorder.go:86-91 | the same for a reader of complete lines |
| Encoding.UnescapeOfEscape | internal/kernel/audit/file.go:44-47 | reading an escaped string gives back the string, for all byte strings, with bytes that are not UTF-8 replaced |
| Encoding.EscapeIsOk | internal/kernel/audit/file.go:44-47 | an escaped string has no raw quote, no control character and no open escape |
| Encoding.EventIsCompact | internal/kernel/audit/audit.go:23-32 | an encoded event is an object without white space made of strings |
| Encoding.FoundByKey | internal/kernel/audit/audit.go:23-32 | a reader finds each member under its own key, and the empty optional ones not at all |
| Encoding.CompactIsPrintable | internal/kernel/audit/file.go:44-48 | so its text holds no raw newline or carriage return |
| Encoding.TextUnique | internal/kernel/audit/tail.go:53-57 | the value can be told from the text, whatever follows |
| Encoding.EncodeDetermines | internal/kernel/audit/audit.go:23-32 | two events with the same text are the same event, members left out when empty included, up to stray bytes |
| Encoding.CanonOfValidEvent | internal/kernel/audit/audit.go:23-32 | events of valid UTF-8 lose nothing |
| Trail.FileSink.Append | internal/kernel/audit/file.go:39-54 | writes the events line by line, stops at the first that has no encoding or whose write fails, and says how far it got |
| Trail.Scan | internal/kernel/audit/tail.go:48-61 | the scanning loop finds exactly the events on the lines that decode, and fails exactly if a line fills the 64 KiB buffer |
| Trail.NewestFirst | internal/kernel/audit/tail.go:67-71 | the index loop reverses |
| Trail.Tail | internal/kernel/audit/tail.go:20-72 | clamps the limit, opens the window, scans, keeps the last and reverses |
| Trail.FoundAfterCut | internal/kernel/audit/tail.go:42-46 | a line cut by the start of the window yields no event and hides none after it |
| Trail.TailOfTrail | internal/kernel/audit/tail.go:42-71 | for every appended trail the tail fails exactly if a line it meets fills the buffer, and otherwise returns, newest first, the last of exactly the events wholly in the window |
| Trail.TailReturnsNewest | internal/kernel/audit/tail.go:42-71 | with lines under 64 KiB it never fails, and entry number j is event number j from the end, for min(limit, 500) entries or as many as lie wholly in the last 2^20 bytes |
| Trail.InverseReads | internal/kernel/audit/tail.go:53-57 | a decoder as assumed exists and gives back every event up to stray bytes |
| Trail.InverseReadsBack | internal/kernel/audit/tail.go:53-57 | and gives back events of valid UTF-8 exactly |
| Trail.TornWrites | internal/kernel/audit/file.go:48-50 | however many writes fail, and wherever each stops, exactly the surviving events are read back, in order |
| Trail.SurvivingAreWritten | internal/kernel/audit/file.go:48-50 | and every surviving event was written |
| Loki.Build | internal/kernel/audit/loki.go:85-114 | one stream for each key, holding in order the lines of all events with that key and the labels of the last; fails exactly if some event has no encoding |
| Loki.PartitionIffNoClash | internal/kernel/audit/loki.go:85-114 | the streams partition the batch by their labels, each event once and in order, no two streams alike, exactly if no two events have one key and different labels |
| Loki.PlainActionsNeverClash | internal/kernel/audit/loki.go:95 | actions without a bar never clash, whatever job and outcomes are |
| Loki.BarsClash | internal/kernel/audit/loki.go:95 | with a bar in an action they can |
| UriPath.EscapePathSegment | internal/kernel/objstore/sigv4.go:77-89 | the builder loop percent-encodes all but the unreserved characters |
| UriPath.CanonicalURI | internal/kernel/objstore/sigv4.go:65-75 | splitting, escaping in place and joining is encoding everything but unreserved characters and slashes, with "/" for the empty path |
| UriPath.DecodeOfEscape | internal/kernel/objstore/sigv4.go:65-89 | percent-decoding gives the path back (section 2.1 of RFC 3986) |
| UriPath.CanonicalPathDetermines | internal/kernel/objstore/sigv4.go:65-75 | two paths have one canonical form only if equal, or empty and "/" |
| SigV4.SignedHeaderNames | internal/kernel/objstore/sigv4.go:102-112 | the names are sorted and occur exactly as often as host and the x-amz- headers do, whatever order the map gives |
| SigV4.SignedNamesAre | internal/kernel/objstore/sigv4.go:102-112 | they are host, every x-amz- header in lower case, and nothing else |
| SigV4.SignedNamesDistinct | internal/kernel/objstore/sigv4.go:102-112 | free of duplicates exactly if no two x-amz- headers differ in case alone |
| SigV4.CanonicalHeaders | internal/kernel/objstore/sigv4.go:118-134 | one line of name and collapsed value for every signed name |
| SigV4.CanonicalRequest | internal/kernel/objstore/sigv4.go:54-63 | the six parts, the signed names worked out twice being the same |
| SigV4.BlockUnique | internal/kernel/objstore/sigv4.go:118-127 | header lines can be read back up to the empty line that ends them |
| SigV4.CanonicalDetermines | internal/kernel/objstore/sigv4.go:54-63 | two requests have one canonical text exactly if they agree on method, path, raw query, signed names, each signed value, the trimmed host among them, and payload hash |
| SigV4.AgreementMeans | internal/kernel/objstore/sigv4.go:102-134 | agreement means one trimmed host, one set of x-amz- names, and one value up to white space for every such header under its usual key |
| SigV4.AuthorizationIsNotSigned | internal/kernel/objstore/sigv4.go:47-51 | setting Authorization does not change what is signed |
| SigV4.Request.Sign | internal/kernel/objstore/sigv4.go:28-52 | sets three headers and no other, the date and the hash are among the signed names, and the signature is the one anyone gets from the finished request |
| SigV4.SignatureCovers | internal/kernel/objstore/objstore_test.go:255-302 | changing anything changes the signature: two signatures, under any credentials and times, are equal exactly if the secret is one to HMAC, the region and the second are the same, and the requests agree on everything in the canonical text |
| SigV4.CollisionFreeExists | internal/kernel/objstore/sigv4.go:136-147 | what that assumes of the hash and the MAC is not contradictory |
| Identity.ParseSecretInverse | internal/platform/identity/token.go:24-43 | parsing undoes printing and accepts nothing but printed secrets |
| Identity.Repository.InsertUser | internal/platform/identity/repository.go:22-47 | one transaction; a taken name and a taken id change nothing |
| Identity.Repository.DeleteUser | internal/platform/identity/repository.go:85-95 | deletes the user with its tokens and keys |
| Identity.Repository.InsertToken | internal/platform/identity/repository.go:97-113 | needs an owner, a new id and a new selector; stores the hash and the expiry to the second |
| Identity.Repository.InsertKey | internal/platform/identity/repository.go:240-276 | one transaction; which conflict is reported first |
| Identity.Repository.TokenBySelector | internal/platform/identity/repository.go:125-157 | finds the one token with the selector |
| Identity.Repository.UserByKeyFingerprint | internal/platform/identity/repository.go:313-338 | finds a key with the fingerprint, or none exactly if none has it |
| Identity.ExecKeeps | internal/platform/identity/module.go:48-77 | every statement keeps names, selectors, fingerprints and per-user key names unique and every token and key owned |
| Identity.RunKeeps | internal/platform/identity/module.go:48-77 | so does every run of statements, which every interleaving of the operations is |
| Identity.RowsAreStanding | internal/platform/identity/repository.go:85-113 | the token rows are exactly the tokens issued and since neither revoked nor deleted with their owner |
| Identity.AuthenticatesExactly | internal/platform/identity/service.go:160-190 | a secret authenticates as a user exactly if it was issued to that user, is not revoked, is not past its stored expiry, and the owner is there and enabled |
| Identity.KeyResolvesToOne | internal/platform/identity/service.go:280-303 | in every run a public key resolves to at most one identity |
| Identity.Service.CreateUser | internal/platform/identity/service.go:24-47 | succeeds exactly for a valid name and role that are free, and stores that user |
| Identity.Service.DeleteUser | internal/platform/identity/service.go:72-85 | refuses ill-formed and unknown ids, deletes the others |
| Identity.Service.MintUnusedSecret | internal/platform/identity/service.go:118-131 | the first of eight whose selector is free, or none exactly if all are taken |
| Identity.Service.IssueToken | internal/platform/identity/service.go:87-116 | hands out the printed secret of the token it stores; otherwise changes nothing and says why |
| Identity.Service.RevokeToken | internal/platform/identity/service.go:145-158 | deletes exactly a stored token with a well-formed id |
| Identity.Service.Authenticate | internal/platform/identity/service.go:160-190 | answers as the tables say |
| Identity.Service.AddKey | internal/platform/identity/service.go:217-251 | succeeds exactly for a known user, a valid name and a key free in both indexes |
| Identity.Service.RemoveKey | internal/platform/identity/service.go:265-278 | deletes exactly a stored key with a well-formed id |
| Identity.Service.ByPublicKey | internal/platform/identity/service.go:280-303 | resolves exactly to the enabled owner of the key with that fingerprint; the empty one resolves to nobody |
| Migrate.Store.Migrate | internal/store/migrate.go:22-41 | works through the list in order, skipping what is recorded, and stops early on a failure with a prefix done |
| Migrate.Store.ApplyMigration | internal/store/migrate.go:55-74 | executes and records in one step |
| Migrate.Resumed | internal/store/migrate.go:22-41 | a run of k entries over a store that has n leaves the longer of the two prefixes |
| Migrate.ScheduleIsOnePrefix | internal/store/migrate.go:22-41 | whatever the schedule of runs, failures and crashes, the store is that of one clean run of a prefix of the list |
| Migrate.CompletedIsClean | internal/store/migrate.go:22-41 | after a completed run it is that of one clean run, and further runs change nothing |
| Migrate.CleanRun | internal/store/migrate.go:22-74 | a clean run executes exactly the list if and only if no two entries share a key; otherwise some entry is skipped |
| Migrate.GrowingLists | internal/app/app.go:301-311 | when module lists grow only at their ends, each module keeps a prefix of its own list, recorded and executed in order, over any run of the longer list |

## Left out

- HTTP handlers, middleware, the CLI, the console and the site: decoding and presentation.
- The SSH transport, dialling, key exchange, host key checks, certificates: calls into x/crypto; dial is a step that succeeds or fails.
- The target module: its tables are not part of this model; targets are a map from name to accepted principals and pin, which may change at any time.
- Liveness: timeouts, tickers and the end of a killed session are events that may happen, never ones that must.
- Store failures inside the approval, policy and identity services: a call may stop between its steps, but error results of the driver are not modelled. On the session side they are.
- Listing, ordering of lists, and the role rank of the route guards: single queries and comparisons.
- Bootstrap of the first user: two calls of operations that are modelled.
- Created-at columns of users, tokens, keys and policies: stored and shown, never compared.
- Upload of finished recordings and the HTTP push to Loki: network clients.
- Errors of opening, seeking and reading the trail file, other than that it is missing.
- The digits of the times in a recording: the text of a time is any JSON number; that times do not go back is claimed of the clock readings behind them.
- Parsing of IP addresses and public keys: library calls; a key is given by its fingerprint.
- Rfc3339.ParseOfFormat: the parser reads whole seconds with `Z` or a numeric offset, not fractions of a second and not the looser forms Go accepts, none of which this gateway writes.
- Approval.Service.Settle: clock readings before year 0 are excluded, and so are stored TTLs so negative that the expiry would lie there; no request has a negative one. `ApprovalRaces` also assumes clocks at least a day before year 10000.
- SigV4.SignedHeaderNames: lowers ASCII letters only; header names outside ASCII are not valid in HTTP.
- SigV4.SignatureCovers: the access key is not part of a signature; it stands beside it in the header.
- Encoding.UnescapeOfEscape: reads the escapes the encoder writes, not `\/` and not other `\u` forms.
- Lifecycle.ReturnedProxies: says how often finish is called, not that its row is stored, which a store failure or a cancelled context can prevent until the next startup.
