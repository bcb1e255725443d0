# Glass, verified

A Dafny model of the stateful cores of Glass, a browser automation runtime with
an MCP server and two protocol clients, and proofs of what those cores promise.
`dafny verify dfyconfig.toml` checks the whole project.

| file | what it models |
|---|---|
| `Common`, `ByteText`, `FrameDecoder` | shared definitions, bytes, and the TypeScript client's push decoder for newline and `Content-Length` frames |
| `ClientTable`, `ClientHistory` | the TypeScript client's pending-request table, the class that moves it, and how each promise ends |
| `PullReader`, `FrameAgreement` | the Python client's pull reader, and that both clients read the same frames |
| `AttentionFeed` | the attention poller with its forgetful set |
| `ToolTiming`, `ToolRuntime`, `GateSharing`, `ExecutionStart` | the tool-call runtime: tasks, gate, cancellation, abort and timing, as interleaved steps |
| `DelegatePipeline` | the one-shot delegate's forwarders, bridge and bounded channels, as interleaved steps |
| `JsonTree`, `JsonBudget` | the explicit-stack budget check on parsed JSON |
| `TextOrder`, `JsonText`, `BoundedJson` | the recursive JSON decoder that charges one shared budget, and the text its result is measured by |
| `DependencyClosure`, `VersionOrder`, `BackendProfile`, `Sorting`, `BackendSelection` | backend profiles: dependency search, version ranges, validity and selection |
| `Negotiation` | capability negotiation on a normalized request |
| `ProcessTree` | the memory of a process tree |
| `TraceSummary`, `ProgressRecovery` | folding native traces and progress logs |

Code that updates state in place is modelled by classes and by methods with
loops. Each is proved against a function or a predicate that says what the
result is, and the properties are proved about that. Concurrent code is a state
machine: `Enabled` and `Do` give its steps, `Run` and `After` its runs, and the
theorems hold in every state that any run reaches. Numeric limits are
parameters wherever the proofs do not need their values.

## What the code does differently from what one might expect

- A request whose write throws stays in the pending table although its promise
  is already rejected (`UnwrittenRequestIsBoth`), and an error reply whose
  fields cannot be turned into text removes the entry without settling the
  promise (`LostForever`). `PartitionExactly` says exactly which runs keep
  every issued id in one of pending, resolved and rejected throughout, and
  `EventKeepsPartitionExactly` which single events do.
- The client's size check measures the bytes that arrive together
  (`JoiningCanTrip`), and an unreadable header stays in the buffer, so that
  every later chunk rejects the pending requests again (`DecodeContinues`).
- Version comparison is not transitive when numerals meet other components
  (`MixedVersionsRunInCircles`); `VersionsFitExactly` says for which versions.
- `select_backend` is documented as independent of the order of the profiles.
  Success and selection are; the reason for refusing a preference is not
  (`ReasonDependsOnOrder`, `ReasonOrderExactly`).
- The bounded JSON decoder charges overwritten pairs (`OverwrittenPairsCount`).
- A recovered row before the last can be interrupted when its own finish event
  says so (`InterruptedExactly`, `FinishedAsInterrupted`).
- An abort can lose the race against its task (`AbortCanLose`), and a report made
  by a drop can miss a start of execution (`LateStartIsLeftOut`).
- A `Content-Length` padded with zeros beyond 4300 digits is read by one client
  and refused by the other (`PaddedLengthsPartReaders`).

## Modelling choices

- JSON parsing is a parameter of the client (`parse`), and the budget check and
  the bounded decoder start from trees; `JsonText` is the compact text of a tree. Text is its UTF-8 bytes. A JSON object is the list of its
  fields as they are visited.
- Clocks are natural numbers that a run advances. The tokio gate is a
  first-come-first-served line with the grant apart from the next poll. A task is
  either polled or suspended; an abort ends a suspended task instead of its next
  poll, and a polled one when it comes to suspend.
- The number in a `Content-Length` header is exact. The source converts it to a
  double, which agrees up to 2^53.
- Node decodes `ascii` by dropping the high bit, and Python's `int` accepts
  signs and single underscores and, from CPython 3.11 on, at most 4300 digits;
  all of this is modelled.
- Maps and sets are walked in an arbitrary order, so results about them hold
  for every iteration order. Where the order shows, in the first validation
  error of a profile, it is that of the keys.
- A line of a native trace that is valid JSON but no object, or whose phase
  cannot be hashed, makes the reader raise; the model keeps that.

## Model

| member | source | states |
|---|---|---|
| `ByteText.Find` | clients/typescript/src/index.ts:1121-1131 | The search returns the first occurrence at or after a position, and -1 exactly when there is none. |
| `FrameDecoder.CountedFrame` | clients/typescript/src/index.ts:1120-1129 | A frame taken behind a `Content-Length` header leaves a strictly shorter suffix of the buffer. |
| `FrameDecoder.MatchIsFirst` | clients/typescript/src/index.ts:1124-1126 | The number found is that behind the first name that has one, anywhere in the header; none is found exactly when there is no such name. |
| `FrameDecoder.NextFrame` | clients/typescript/src/index.ts:1118-1135 | Every pass of the loop that yields a frame consumes at least one byte and leaves a suffix of the buffer, so the loop ends. |
| `FrameDecoder.BadHeaderExactly` | clients/typescript/src/index.ts:1120-1125 | A header is unreadable exactly when it is complete and no name in it has a number behind it. |
| `FrameDecoder.NameStable` | clients/typescript/src/index.ts:1120-1131 | Whether a buffer is read as a header is final as soon as the name or a newline is there. |
| `FrameDecoder.CountedStable` | clients/typescript/src/index.ts:1120-1129 | A decided counted frame, or an unreadable header, stays decided when bytes are appended. |
| `FrameDecoder.NextFrameStable` | clients/typescript/src/index.ts:1118-1135 | What a pass decides it decides again with more bytes behind: same body, the rest extended by the new bytes. |
| `FrameDecoder.DecodeContinues` | clients/typescript/src/index.ts:1110-1135 | Decoding may pause anywhere: bodies, rest and error of the whole stream are those of the first part followed by its rest with the new bytes. An unreadable header blocks the buffer for good. |
| `FrameDecoder.DecodeRestIsStuck` | clients/typescript/src/index.ts:1118-1135 | The leftover buffer holds no further frame. |
| `FrameDecoder.FeedIsDecode` | clients/typescript/src/index.ts:1110-1135 | For every way of cutting a stream into chunks that never trips the size check, the chunks yield the bodies and the leftover of one decoding of the whole stream. |
| `FrameDecoder.FeedFitsExactly` | clients/typescript/src/index.ts:1110-1135 | Chunks pass the size check exactly when each fits behind what the stream before it leaves in the buffer. |
| `FrameDecoder.ChunkInvariance` | clients/typescript/src/index.ts:1110-1135 | Any two such cuttings of one byte stream yield the same bodies, the same leftover and the same error state. |
| `FrameDecoder.SplittingNeverTrips` | clients/typescript/src/index.ts:1111-1117 | Splitting a chunk anywhere in a stream never makes the size check trip. |
| `FrameDecoder.JoiningCanTrip` | clients/typescript/src/index.ts:1111-1117 | Joining two chunks that pass can trip it: the check measures what arrives together, not frames. |
| `ClientTable.GlassClient.constructor` | clients/typescript/src/index.ts:520-549 | A new client has an empty buffer, no pending request, and numbers requests from 1. |
| `ClientTable.GlassClient.Request` | clients/typescript/src/index.ts:1098-1108 | A request takes the next id and enters it before the write; a write that throws rejects the promise and leaves the entry. |
| `ClientTable.GlassClient.RejectEverything` | clients/typescript/src/index.ts:1149-1152 | Every waiting promise that was not settled has failed, every settled one is as it was, nobody waits any more, and the buffer and the numbering are untouched. |
| `ClientTable.FailEach` | clients/typescript/src/index.ts:1149-1152 | The loop over the waiting entries, in any order: exactly they are added to the settled promises, as failures, and no settlement changes. |
| `ClientTable.GlassClient.Receive` | clients/typescript/src/index.ts:1110-1147 | A chunk has the effect of one decoding of buffer and chunk, or, when too much is buffered, of dropping the buffer and rejecting everything. |
| `ClientTable.GlassClient.Drain` | clients/typescript/src/index.ts:1118-1147 | The in-place loop dispatches exactly the decoded bodies, in order, rejects everything on an unreadable header, and leaves the decoder's rest. |
| `ClientTable.RunOfChunks` | clients/typescript/src/index.ts:1110-1152 | The promises do not see the chunking: after any chunks that pass the size check the table is that of dispatching the frames of the whole stream in order, rejected as a whole if an unreadable header follows. |
| `ClientTable.IssueKeeps` | clients/typescript/src/index.ts:1098-1104 | Issuing a request keeps the table sound and changes no earlier id. |
| `ClientTable.RejectAllKeeps` | clients/typescript/src/index.ts:1149-1152 | Rejecting everything keeps the table sound, and no settlement is overwritten. |
| `ClientTable.DispatchKeeps` | clients/typescript/src/index.ts:1136-1145 | Dispatching any body keeps the table sound: a promise is resolved or refused only by a body that carries its id, and nothing settled changes. |
| `ClientTable.ApplyKeeps` | clients/typescript/src/index.ts:1091-1152 | Every request, chunk, transport failure or close keeps the table sound and moves ids only forward. |
| `ClientTable.RunKeeps` | clients/typescript/src/index.ts:1091-1152 | Over every run the issued ids are 1 to nextId-1 and each is somewhere; an id leaves the table once, its settlement never changes, and it is resolved only by a message with that id. |
| `ClientTable.RepliesSettle` | clients/typescript/src/index.ts:1136-1144 | A reply for a waiting, unsettled request resolves it by a result and refuses it by a printable error, and leaves every other id where it is. |
| `ClientHistory.RunTells` | clients/typescript/src/index.ts:1091-1152 | After every run the table tells exactly what happened: the next number, who waits, and of each promise that it is resolved by a body exactly when its request was written and that body came for it with a result while it waited, refused likewise by a printable error, and failed exactly when its write threw or everyone was rejected while it waited. |
| `ClientHistory.FateMeans` | clients/typescript/src/index.ts:1136-1152 | The step-by-step fate of a promise is the ending that the happenings give it, and there is at most one. |
| `ClientHistory.AnsweredOnce` | clients/typescript/src/index.ts:1139-1144 | A body comes for a waiting id at most once, so the one that ends a promise is the first that carries its id while it waits. |
| `ClientTable.OversizeStartsAfresh` | clients/typescript/src/index.ts:1111-1117 | Too many bytes at once drop the buffer and leave nobody waiting. |
| `ClientTable.PartitionExactly` | clients/typescript/src/index.ts:1098-1152 | A run keeps each issued id in exactly one of pending, resolved and rejected after every event if and only if every request of it is written and no body dispatched on the way is an unprintable error for a request that waits just then. |
| `ClientTable.EventKeepsPartitionExactly` | clients/typescript/src/index.ts:1091-1152 | Any one event keeps the partition if and only if it goes well, which can be told before it: the write succeeds, and no body of the chunk is an unprintable error for a request that waits when its turn comes. |
| `ClientTable.BodiesKeepPartitionExactly` | clients/typescript/src/index.ts:1118-1147 | A list of bodies keeps the partition exactly when none loses a waiting request when its turn comes; otherwise some request is gone and unsettled at the end. |
| `ClientTable.RequestKeepsPartitionExactly` | clients/typescript/src/index.ts:1098-1108 | One request keeps the partition if and only if its write succeeds. |
| `ClientTable.BodyKeepsPartitionExactly` | clients/typescript/src/index.ts:1136-1145 | One body keeps the partition if and only if it is not an unprintable error for a waiting request; otherwise that request is gone and unsettled. |
| `ClientTable.CleanRunsPartition` | clients/typescript/src/index.ts:1098-1152 | Runs whose writes succeed and whose own bodies, which the events and the limit decide, carry no unprintable error have that partition after every event. |
| `ClientTable.UnwrittenRequestIsBoth` | clients/typescript/src/index.ts:1098-1108 | A request whose write throws is pending and rejected at once. |
| `ClientTable.LostForever` | clients/typescript/src/index.ts:1139-1145 | A reply whose error cannot be turned into text leaves its request neither pending nor settled, in every continuation. |
| `ClientTable.UnsentAreUnwritten` | clients/typescript/src/index.ts:1098-1108 | Which ids count as unwritten is decided by the events alone: those whose write threw, numbered in order of request. |
| `ClientTable.UnknownRepliesChangeNothing` | clients/typescript/src/index.ts:1138-1140 | A reply with an unknown, repeated or absent id changes nothing. |
| `PullReader.LineLength` | clients/python/glass_client.py:1212-1220 | A line read ends behind the first newline within the size asked for, or at that size or the end of the stream; no newline is inside. |
| `PullReader.Reader.ReadLine` | clients/python/glass_client.py:1212-1220 | Line and remaining stream join to the old stream; a newline is only the last byte of the line; and a line shorter than the size with more stream behind it ends in a newline. |
| `PullReader.Reader.Next` | clients/python/glass_client.py:1211-1247 | The in-place reader returns the message, or the failure, that the pure reader defines, and leaves the stream right behind a message. |
| `PullReader.MessagesAreSmall` | clients/python/glass_client.py:1211-1243 | A message is never above the limit, and what is left is a proper suffix of the stream. |
| `PullReader.StopsMean` | clients/python/glass_client.py:1219-1225 | A header block that does not end is cut short exactly when the whole stream is within the limit, and too large otherwise. |
| `PullReader.FirstLineDecides` | clients/python/glass_client.py:1212-1216 | Only an empty stream counts as closed, and an over-long first line as too large. |
| `PullReader.BodiesAreChecked` | clients/python/glass_client.py:1237-1241 | A counted body is refused exactly when its length is missing, unreadable, negative or above the limit, cut short exactly when the stream is, and otherwise exactly that long. |
| `PullReader.SignsCount` | clients/python/glass_client.py:1229 | A sign before the digits is read, and a minus turns the number. |
| `FrameAgreement.TitleLength` | clients/typescript/src/index.ts:1123-1126 | The regular expression finds the number of a well-formed length line in any case and padding, whatever header lines follow. |
| `FrameAgreement.TitleAnnounces` | clients/python/glass_client.py:1226-1236 | The Python header scan finds the same number, unless it has more digits than Python converts, and then it fails. |
| `FrameAgreement.HeaderReadsToEnd` | clients/python/glass_client.py:1218-1225 | Reading a header line by line stops exactly behind its first empty line. |
| `FrameAgreement.PushReadsOne` | clients/typescript/src/index.ts:1118-1135 | The push decoder recovers the body of any well-formed frame and stops right behind it. |
| `FrameAgreement.BeginningsWait` | clients/typescript/src/index.ts:1118-1135 | No proper beginning of a well-formed frame is taken for a frame or an error. |
| `FrameAgreement.PullReadsOne` | clients/python/glass_client.py:1211-1247 | The pull reader recovers the body of any well-formed frame, a line without its surrounding white space, and stops right behind it. |
| `FrameAgreement.PaddedLengthsPartReaders` | clients/python/glass_client.py:1226-1241 | A counted frame is read by the push decoder however its number is padded, and by the pull reader if and only if the number has at most 4300 digits. |
| `FrameAgreement.PushReadsAll` | clients/typescript/src/index.ts:1118-1135 | Round trip: decoding a list of encoded frames yields their bodies with nothing left over. |
| `FrameAgreement.PullReadsAll` | clients/python/glass_client.py:1211-1247 | Round trip: reading a stream of encoded frames to its end yields their bodies. |
| `FrameAgreement.ReadersAgree` | clients/python/glass_client.py:1211-1247 | For every list of well-formed frames in any mix, and every chunking that passes the size check, both clients recover that list and agree up to surrounding white space. |
| `FrameAgreement.FrameByFrameFits` | clients/typescript/src/index.ts:1110-1117 | Such a chunking exists whenever each frame fits the limit. |
| `AttentionFeed.Watch` | clients/typescript/src/index.ts:786-801 | The polling loop calls back exactly what the step-by-step feed calls back over all pages. |
| `AttentionFeed.OfferKeeps` | clients/python/glass_client.py:774-785 | One item keeps: the set is the set of the order list, the list is the window of the latest callbacks, duplicate-free and within the limit. |
| `AttentionFeed.FeedIsBounded` | clients/typescript/src/index.ts:786-801 | That invariant, and that callbacks for one id are more than the limit apart, hold after every sequence of items. |
| `AttentionFeed.OthersBetween` | clients/typescript/src/index.ts:791-798 | Between two callbacks for one id at least as many distinct other ids as the limit were called back. |
| `AttentionFeed.FirstOccurrencesMeans` | clients/typescript/src/index.ts:791-798 | The poller that never forgets calls back each wanted id exactly once. |
| `AttentionFeed.ForgettingIsInvisible` | clients/python/glass_client.py:774-785 | With no more wanted ids than the limit, the forgetful poller makes exactly the callbacks of the one that never forgets, in order. |
| `AttentionFeed.ForgettingShowsExactly` | clients/typescript/src/index.ts:791-798 | The forgetful poller makes the callbacks of the one that never forgets if and only if every repeated wanted id is among the last first occurrences, as many as the limit, before it. |
| `AttentionFeed.ForgettingShowsBeyondLimit` | clients/typescript/src/index.ts:791-798 | For every limit, one id more than the limit and then the first again is enough for a repeated callback. |
| `JsonBudget.PushFields` | crates/glass-browser/src/json_limits.rs:38-41 | The field loop moves names and values from what is pending to what is accounted without losing weight, nodes or height. |
| `JsonBudget.Visit` | crates/glass-browser/src/json_limits.rs:17-45 | One node is accounted and its children pushed with nodes, weight and height conserved; a refusal means more nodes than the limit. |
| `JsonBudget.CheckValueBudget` | crates/glass-browser/src/json_limits.rs:7-51 | Accepts exactly when the recursive node count and height are within limits and the saturated recursive weight is within the byte limit; a refusal names a limit that is exceeded; visited plus stacked nodes never pass the node limit; the loop ends. |
| `JsonBudget.ItemsRemaining` | crates/glass-browser/src/json_limits.rs:20-29 | Pushing the elements of an array conserves nodes, weight and the greatest depth. |
| `BoundedJson.Budget.Charge` | crates/glass-browser/src/browser_backend.rs:568-581 | A charge within the limit is added; any other fails and leaves the budget alone. |
| `BoundedJson.DecodeKey` | crates/glass-browser/src/browser_backend.rs:370-420 | A key is accepted exactly when its length and the budget allow it, and costs its length. |
| `BoundedJson.Decode` | crates/glass-browser/src/browser_backend.rs:425-446 | With any budget already spent, a value is accepted exactly when it fits and its recursive cost still fits the budget; on success the value is the denoted one and the budget grew by that cost. |
| `BoundedJson.DecodeArray` | crates/glass-browser/src/browser_backend.rs:648-676 | The same for arrays, whose loop stops at the entry limit and looks one element further. |
| `BoundedJson.DecodeObject` | crates/glass-browser/src/browser_backend.rs:678-718 | The same for objects, counting pairs rather than distinct keys. |
| `BoundedJson.DeserializeBoundedJson` | crates/glass-browser/src/browser_backend.rs:721-733 | The whole decoder accepts exactly the inputs that fit, whose cost fits and whose decoded value, written as text, is within the limit; it spends exactly the recursive cost. |
| `BoundedJson.InsertMeans` | crates/glass-browser/src/browser_backend.rs:678-718 | Inserting into the ordered map replaces the field of that key and keeps every other. |
| `BoundedJson.LastPairWins` | crates/glass-browser/src/browser_backend.rs:678-718 | A decoded object holds for each key the value of its last pair, in key order, and nothing else. |
| `BoundedJson.DecodedIsCanonical` | crates/glass-browser/src/browser_backend.rs:563-718 | Decoding yields ordered, duplicate-free objects, never costs more again, and still fits wherever the input did. |
| `BoundedJson.CanonicalIsFixed` | crates/glass-browser/src/browser_backend.rs:563-718 | A value with ordered, duplicate-free objects decodes to itself. |
| `BoundedJson.DecodesAgain` | crates/glass-browser/src/browser_backend.rs:721-733 | Round trip: an accepted value, serialized in map order, is accepted again and decodes to itself. |
| `BoundedJson.TextReadsBack` | crates/glass-browser/src/browser_backend.rs:76-85 | Round trip through the text: the decoded value, written compactly and read, is itself and decodes to itself. |
| `JsonText.ReadsBack` | crates/glass-browser/src/browser_backend.rs:76-85 | A strict reader recovers every value from its serialized text and stops right behind it, so separators, quotes and escapes are all there. |
| `BoundedJson.OverwrittenPairsCount` | crates/glass-browser/src/browser_backend.rs:678-718 | Overwritten pairs are charged: an input can be refused although the value it denotes is accepted. |
| `DependencyClosure.ValidateClosure` | crates/glass-browser/src/browser_backend.rs:1161-1191 | From a capability the search returns the first defect in the order of the dependencies; it succeeds exactly when every dependency chain from it is declared, strong enough, repetition-free and avoids the current path; the visiting set is always the path, is restored on success, and bounds the recursion; a failure names a real defect. |
| `DependencyClosure.ValidateDependencies` | crates/glass-browser/src/browser_backend.rs:1120-1122 | Running it from every declared capability succeeds exactly when the graph is acyclic and every dependency is declared and strong enough, in any order of capabilities, and fails with the first defect in that order. |
| `DependencyClosure.SearchesExactly` | crates/glass-browser/src/browser_backend.rs:1120-1122 | Whatever the order, the searches find no defect if and only if the graph is acyclic and all dependencies are sound. |
| `DependencyClosure.SatisfiesMeans` | crates/glass-browser/src/browser_backend.rs:838-847 | A support level satisfies exactly itself and the weaker ones in the declared order. |
| `DependencyClosure.ClosedExactly` | crates/glass-browser/src/browser_backend.rs:1120-1122 | The searches succeed from all capabilities if and only if no walk returns to its start and all dependencies are sound. |
| `DependencyClosure.ReturnIsCycle` | crates/glass-browser/src/browser_backend.rs:1166-1171 | Meeting a capability of the current path proves a cycle. |
| `VersionOrder.SplitRejoins` | crates/glass-browser/src/browser_backend.rs:993-994 | Splitting loses nothing: components hold no dot, hyphen or plus, and rejoin with the separators, which are such, to the version. |
| `VersionOrder.CompareVersionStrings` | crates/glass-browser/src/browser_backend.rs:992-1008 | The loop over paired components computes the recursive comparison. |
| `VersionOrder.VersionsFlip` | crates/glass-browser/src/browser_backend.rs:992-1008 | On all strings: swapping the sides flips the answer, and every version equals itself. |
| `VersionOrder.VersionsMean` | crates/glass-browser/src/browser_backend.rs:992-1008 | A version is less exactly when it comes before: by the first component that differs, as numbers if both are and as text otherwise, or as the one that runs out first. |
| `VersionOrder.NumericVersionsChain` | crates/glass-browser/src/browser_backend.rs:992-1008 | On versions whose components are all u64 numerals the order is transitive, with equality exactly when both steps are equal. |
| `VersionOrder.RangesAreConvex` | crates/glass-browser/src/browser_backend.rs:975-989 | A numeric range contains every numeric version between two it contains. |
| `VersionOrder.ContainsExactly` | crates/glass-browser/src/browser_backend.rs:975-989 | A range contains exactly the versions of its own family that are neither before its minimum nor after its maximum, and an unknown version of its family. |
| `VersionOrder.OrderedRangesContainTheirEnds` | crates/glass-browser/src/browser_backend.rs:967-989 | A range whose ends pass validation contains both ends, whatever the strings. |
| `VersionOrder.NonEmptyExactly` | crates/glass-browser/src/browser_backend.rs:967-989 | For numeric ends a range contains a numeric version if and only if validation finds the ends in order. |
| `VersionOrder.MixedComponentsExactly` | crates/glass-browser/src/browser_backend.rs:995-1006 | Two numerals compare transitively with every non-numeral if and only if their order as text is their order as numbers. |
| `VersionOrder.ComponentsChainExactly` | crates/glass-browser/src/browser_backend.rs:995-1006 | Any three components compare as one order if and only if no two numerals whose text is in another order have the third between them. |
| `VersionOrder.VersionsFitExactly` | crates/glass-browser/src/browser_backend.rs:992-1008 | Any three versions compare as one order if and only if they are consistent at the first place where their components are not all equal. |
| `VersionOrder.MixedVersionsRunInCircles` | crates/glass-browser/src/browser_backend.rs:992-1008 | 9 < 10 < 1a < 9, and a range with its ends out of order contains 1a. |
| `BackendProfile.ValidateProfile` | crates/glass-browser/src/browser_backend.rs:1093-1142 | No error exactly when the profile is well stated, its dependency graph is acyclic and every dependency is met; otherwise the first error in the order of the source's checks. |
| `BackendProfile.ErrorsMean` | crates/glass-browser/src/browser_backend.rs:1093-1142 | The ordered list of checks has no first error if and only if the profile is valid. |
| `BackendProfile.RequestErrorsMean` | crates/glass-browser/src/browser_backend.rs:1248-1287 | The ordered checks of a request have no first error if and only if the request is valid. |
| `BackendSelection.StrongerScoresHigher` | crates/glass-browser/src/browser_backend.rs:1528-1538 | A profile at least as strong in every capability never scores lower, and ties only when no capability differs. |
| `BackendSelection.EligibleMeans` | crates/glass-browser/src/browser_backend.rs:1440-1484 | The staged rejection is absent exactly when every single requirement is met. |
| `BackendSelection.RejectionsMean` | crates/glass-browser/src/browser_backend.rs:1440-1476 | A valid profile is rejected for the first that holds: another Glass version, a level below the minimum in the written order, a browser outside its range, or an unmet requirement. |
| `BackendSelection.FirstUnmetIsFirst` | crates/glass-browser/src/browser_backend.rs:1463-1475 | The unmet requirement that is reported is the first one. |
| `BackendSelection.PrecedesIsTotal` | crates/glass-browser/src/browser_backend.rs:1504-1514 | Precedence by certification, score, id and version is a total preorder on all profiles, so that sorting by it is defined. |
| `BackendSelection.CollectIds` | crates/glass-browser/src/browser_backend.rs:1417-1435 | The first pass finds a duplicate exactly when two valid profiles share an id, and otherwise lists each valid id once. |
| `BackendSelection.CollectEligible` | crates/glass-browser/src/browser_backend.rs:1437-1484 | The second pass collects exactly the eligible profiles and remembers the last rejection of the preferred id, with the validation error of an invalid profile. |
| `BackendSelection.FindPreferred` | crates/glass-browser/src/browser_backend.rs:1486-1495 | The preferred profile is found exactly when an eligible one has that id. |
| `BackendSelection.SelectBackend` | crates/glass-browser/src/browser_backend.rs:1406-1526 | Succeeds exactly when the request is valid, the list is neither empty nor too long nor ambiguous, and some profile is eligible (and preferred, if one is stated); the selection precedes every eligible profile, a preference is never replaced, and the result passes its own validation. |
| `BackendSelection.SelectedIsBest` | crates/glass-browser/src/browser_backend.rs:1504-1514 | Without a preference no eligible profile is of a higher level in the written order, none of the same level weighs more, and none of the same level and weight has a smaller id. |
| `BackendSelection.ScoreCounts` | crates/glass-browser/src/browser_backend.rs:1528-1538 | The score is four for each available, two for each partial and one for each restricted capability, over all capabilities. |
| `BackendSelection.RequiredAreDeclared` | crates/glass-browser/src/browser_backend.rs:1463-1476 | Every required capability of an eligible profile is declared there at the required level or a stronger one. |
| `BackendSelection.SelectedIsCertified` | crates/glass-browser/src/browser_backend.rs:1453-1455 | An eligible profile is not below the required certification level in the written order. |
| `BackendSelection.OneBest` | crates/glass-browser/src/browser_backend.rs:1504-1519 | The best profile is unique. |
| `BackendSelection.OrderDoesNotMatter` | crates/glass-browser/src/browser_backend.rs:1406-1526 | Permuting the profiles preserves success and failure and, on success, the selected profile, the reason and the considered ids. |
| `BackendSelection.ReasonOrderExactly` | crates/glass-browser/src/browser_backend.rs:1419-1495 | The whole result, the reason of a failure included, is the same for every order of the profiles if and only if the request does not fail on its preference or all profiles with the preferred id are rejected for the same reason. |
| `BackendSelection.ReasonDependsOnOrder` | crates/glass-browser/src/browser_backend.rs:1419-1495 | A valid request and two invalid profiles with the preferred id whose two orders report two different validation errors. |
| `ProcessTree.AddChildren` | crates/glass-browser/examples/scorecard.rs:499-504 | One round adds all children of a process once each, in any order of the table, and only descendants of the root. |
| `ProcessTree.Members` | crates/glass-browser/examples/scorecard.rs:496-506 | For every parent map, cycles included, the loop ends with exactly the descendants of the root, each once. |
| `ProcessTree.SumRss` | crates/glass-browser/examples/scorecard.rs:507-512 | The sum over a duplicate-free list is the sum over its set. |
| `ProcessTree.TreeRss` | crates/glass-browser/examples/scorecard.rs:496-512 | The result counts the memory of each process of the tree exactly once. |
| `ProcessTree.ClosedHoldsTheTree` | crates/glass-browser/examples/scorecard.rs:496-506 | A list that holds the root and the children of all its members holds every descendant. |
| `ToolTiming.ReportsAddUp` | products/glass-core/parallel.rs:384-411 | dispatch + handler <= total <= dispatch + handler + 1 when execution started, dispatch = total and handler = 0 otherwise; durations are present exactly when the total fits in 64 bits. |
| `ToolTiming.MillisMeans` | products/glass-core/parallel.rs:403-411 | Milliseconds are whole millions of nanoseconds, rounded down. |
| `ToolTiming.TimingGuard.constructor` | products/glass-core/parallel.rs:350-377 | A captured guard is armed and has reported nothing. |
| `ToolTiming.TimingGuard.ExecutionStarts` | products/glass-core/parallel.rs:212-214 | Only the first start of execution is kept. |
| `ToolTiming.TimingGuard.Finish` | products/glass-core/parallel.rs:380-445 | The first finish reports and disarms, later ones do nothing; the handler time is handed back if it fits. |
| `ToolTiming.TimingGuard.Drop` | products/glass-core/parallel.rs:448-453 | Dropping reports only if nothing was reported before. |
| `ToolTiming.HandlerTimeIsReported` | products/glass-core/parallel.rs:386-445 | The handler time handed back is the one in the report. |
| `ToolTiming.OneReport` | products/glass-core/parallel.rs:379-453 | However often a guard is finished, it reports exactly once, at the first finish. |
| `ToolRuntime.TaskMoveKeeps` | products/glass-core/parallel.rs:196-243 | Every step of a task keeps the readiness count and the abort bookkeeping. |
| `ToolRuntime.JoinKeeps` | products/glass-core/parallel.rs:248-282 | So does every way the outer future takes over a finished task: result, fatal error, panic, cancellation. |
| `ToolRuntime.OuterMoveKeeps` | products/glass-core/parallel.rs:246-295 | So does every step of the outer future, with the flag load, the finished test and the abort apart. |
| `ToolRuntime.ActKeepsGate` | products/glass-core/parallel.rs:205-228 | Every step keeps the gate exclusive between writers and readers and the waiting line exact. |
| `ToolRuntime.StepKeeps` | products/glass-core/parallel.rs:196-295 | Every step of any call, of a new call or of the clock keeps the whole invariant. |
| `ToolRuntime.RunKeeps` | products/glass-core/parallel.rs:124-296 | The invariant holds in every state that any interleaving reaches. |
| `ToolRuntime.ReadyExactlyOnce` | products/glass-core/parallel.rs:196-282 | In every interleaving a call announces readiness at most once; once exactly if it was aborted or was admitted and ended non-fatally, never if it ended fatally; an aborted answer means the check saw neither the terminal flag nor a finished task. |
| `ToolRuntime.OneTimingReport` | products/glass-core/parallel.rs:286-291 | Each direct call has exactly one timing report once its guard is finished, on return or drop, each code-mode call none, and every report adds up, whenever execution starts between the clock read and the cell read. |
| `ExecutionStart.ReportsTellStart` | products/glass-core/parallel.rs:210-214 | The report of a direct call that returned says that execution started if its handler ended, and that it did not if the call was turned away. |
| `ToolRuntime.GateIsSafe` | products/glass-core/parallel.rs:205-228 | Two calls are in their handlers together only if both support parallel execution. |
| `ToolRuntime.FreeGateAdmits` | products/glass-core/parallel.rs:205-209 | Whenever nobody holds the gate and calls wait, the first in line can be admitted. |
| `GateSharing.GrantsExactly` | products/glass-core/parallel.rs:205-209 | In every reachable state the gate is granted exactly to the first in line, if nobody holds it or if it and all holders run in parallel. |
| `GateSharing.ManyTogether` | products/glass-core/parallel.rs:205-228 | For every number some run has that many parallel calls in their handlers at once. |
| `GateSharing.ServedInOrder` | products/glass-core/parallel.rs:205-209 | As long as a call waits, in any continuation, no call behind it in line gets the gate. |
| `GateSharing.JoinersGoLast` | products/glass-core/parallel.rs:205-209 | Whoever joins the line stands behind everyone who waits. |
| `ToolRuntime.SomeTaskCanMove` | products/glass-core/parallel.rs:196-243 | No interleaving deadlocks: while a task has not ended, some task can be brought on, by its own step, a poll and a step, or a grant. |
| `ToolRuntime.AbortFreesGate` | products/glass-core/parallel.rs:257-260 | In every continuation an aborted or dropped call makes at most as many task moves as its rank, at most 18; until its task has ended it has one to make; and then it neither holds the gate nor waits. |
| `ToolRuntime.AbortIsRequested` | products/glass-core/parallel.rs:257-258 | A call that waits for its abort or was dropped has requested the abort. |
| `ToolRuntime.AbortedInLineNeverEnters` | products/glass-core/parallel.rs:257-260 | A call aborted while suspended in line never enters its handler, and its next task move leaves it neither holding nor in line. |
| `ToolRuntime.StruckNeverRuns` | products/glass-core/parallel.rs:257-260 | A task aborted while suspended stays where it is, but for a grant, until its next move cancels it. |
| `ToolRuntime.AnsweredCallsHoldNothing` | products/glass-core/parallel.rs:246-295 | An answered call holds neither the gate nor a place in line. |
| `ToolRuntime.AbortCanLose` | products/glass-core/parallel.rs:251-259 | A run in which the polled task finishes between the check and the abort: the result is the answer, announced once. |
| `ToolRuntime.LateStartIsLeftOut` | products/glass-core/parallel.rs:383-391 | A run in which execution starts between the two reads of a report, which then says it did not start. |
| `DelegatePipeline.UpstreamKept` | products/glass-core/deleg.rs:314-385 | Every step keeps: what passed the forwarder is, in order, what the session emitted without the hidden kinds. |
| `DelegatePipeline.TakenKept` | products/glass-core/deleg.rs:266-295 | Every step keeps: the bridge takes nothing after the first end of the turn. |
| `DelegatePipeline.DeliveryKept` | products/glass-core/deleg.rs:266-295 | Every step keeps: what was delivered is a prefix of what the bridge took, and all of it while the caller listens. |
| `DelegatePipeline.CausesKept` | products/glass-core/deleg.rs:266-385 | Every step keeps: a shutdown has a cancellation behind it, from the parent or from the end of the turn. |
| `DelegatePipeline.CapacitiesKept` | products/glass-core/deleg.rs:179-204 | Every step keeps the three channels within capacity. |
| `DelegatePipeline.SubmissionsKept` | products/glass-core/deleg.rs:354-400 | Every step keeps: ops that entered the channel are submitted, in hand or waiting, in order, and a shutdown has submitted exactly what its place requires. |
| `DelegatePipeline.OpsAreConserved` | products/glass-core/deleg.rs:266-400 | In every run the ops the forwarder submitted, the one in its hands and those that wait are the initial input and then the bridge's request; a shutdown that has stopped has submitted one Interrupt and then one Shutdown; and draining stops at the first end of the turn. |
| `DelegatePipeline.QuietSessionHasInput` | products/glass-core/deleg.rs:387-400 | Once nothing moves and nobody cancelled, the initial input has been submitted. |
| `DelegatePipeline.DrainedKept` | products/glass-core/deleg.rs:354-370 | Every step keeps: a drain consumes nothing behind the first end of the turn it meets. |
| `DelegatePipeline.VisibleMeans` | products/glass-core/deleg.rs:333-348 | Exactly the events of the other kinds are visible, each as often as it was emitted. |
| `DelegatePipeline.CutMeans` | products/glass-core/deleg.rs:272-294 | The cut is a prefix that ends with the first TurnComplete or TurnAborted, or is everything. |
| `DelegatePipeline.RunKeeps` | products/glass-core/deleg.rs:179-400 | The whole invariant holds in every state of every run. |
| `DelegatePipeline.CallerSeesPrefix` | products/glass-core/deleg.rs:266-385 | In every run the caller's events are a prefix of the session's events without the four hidden kinds, cut after the first TurnComplete or TurnAborted, and the channels stay within capacity. |
| `DelegatePipeline.NothingIsLost` | products/glass-core/deleg.rs:266-385 | While the parent does not cancel and the caller listens, every visible event is at the caller, in a channel or in a task's hands; after the end of the turn exactly the cut is. |
| `DelegatePipeline.QuietCallerHasAll` | products/glass-core/deleg.rs:266-385 | The pipeline does not stall: once no task can move, that caller has received the whole cut. |
| `DelegatePipeline.InternalStepsLower` | products/glass-core/deleg.rs:266-400 | Every step of the machinery leaves less work, so it cannot go on forever. |
| `DelegatePipeline.CallerGetsAll` | products/glass-core/deleg.rs:266-385 | From every state of every run without a cancelling parent and with a listening caller, a bounded number of steps of the machinery, in any order, ends with the whole cut received. |
| `DelegatePipeline.FewSubmissions` | products/glass-core/deleg.rs:279-400 | The op forwarder submits a prefix of input and Shutdown, a shutdown a prefix of Interrupt and Shutdown, so there are at most one Interrupt and two Shutdowns. |
| `Negotiation.Validate` | crates/glass-browser/src/capabilities.rs:114-143 | A manifest is valid exactly when no declared capability is enabled with a blocking status or has an unknown one. |
| `Negotiation.FindGreatestCommon` | crates/glass-browser/src/capabilities.rs:312-316 | The version found is the greatest in both lists; none is found exactly when they are disjoint. |
| `Negotiation.AgreeOnSchemas` | crates/glass-browser/src/capabilities.rs:304-338 | Every requested schema gets its greatest common version, or the refusal names a schema that has none. |
| `Negotiation.LatestSchemas` | crates/glass-browser/src/capabilities.rs:327-338 | Without requested schemas every schema with a version gets its latest. |
| `Negotiation.AgreeOnCapabilities` | crates/glass-browser/src/capabilities.rs:340-386 | Exactly the requested, declared and not withheld capabilities are agreed, or the refusal names a required one that is missing, disabled or withheld. |
| `Negotiation.Negotiate` | crates/glass-browser/src/capabilities.rs:278-394 | Agreement exactly when the manifest is valid, the protocol is offered, each requested schema has a common version and each required capability is provided; a refusal is justified. |
| `Negotiation.RequiredCapabilitiesWork` | crates/glass-browser/src/capabilities.rs:368-386 | Every required capability of an agreement is present, enabled, and available, available uncertified or experimental. |
| `Negotiation.NothingExperimentalUnasked` | crates/glass-browser/src/capabilities.rs:375-384 | No experimental capability is agreed on without the opt-in. |
| `Negotiation.StatusesAgree` | crates/glass-browser/src/capabilities.rs:359-367 | An agreed capability has the manifest status or, without one, is available if enabled and unavailable on the platform if not. |
| `Negotiation.WideningOnlyHelps` | crates/glass-browser/src/capabilities.rs:304-326 | Adding versions to requested schemas never loses an agreement, lowers a version or changes the capabilities. |
| `Negotiation.MissingRequestAgrees` | crates/glass-browser/src/capabilities.rs:283-293 | A missing request agrees exactly on valid manifests, on every capability, and on the latest version of every schema. |
| `Negotiation.OneAnswer` | crates/glass-browser/src/capabilities.rs:278-394 | The contract determines success and the whole agreement. |
| `TraceSummary.ReadLines` | scripts/run-native-journey-corpus.py:278-323 | The loop ends with exact counters and longest durations, or stops exactly when a line raises. |
| `TraceSummary.SumOpen` | scripts/run-native-journey-corpus.py:325-330 | Open phases by stage are the sums over keys of starts minus completions where positive, in any order of the keys. |
| `TraceSummary.Rank` | scripts/run-native-journey-corpus.py:331-343 | The list holds every table entry once, from the largest amount down, ties by stage. |
| `TraceSummary.RankingGoesDown` | scripts/run-native-journey-corpus.py:331-343 | Larger amounts come first, and among equal amounts the stage that is first as text. |
| `TraceSummary.SummariesAreBounded` | scripts/run-native-journey-corpus.py:331-349 | At most 12, 12 and 16 stages are shown; counts and total are at most 10,000. |
| `TraceSummary.LongestIsShown` | scripts/run-native-journey-corpus.py:336-339 | Every completed stage is shown with its longest time unless twelve stages are shown and none is shorter. |
| `TraceSummary.Summarize` | scripts/run-native-journey-corpus.py:276-349 | The summary shows the twelve longest stages by wall and CPU time, the sixteen most open stages capped at 10,000 each, and their capped total. |
| `TraceSummary.CountPermuted` | scripts/run-native-journey-corpus.py:303-308 | The counters depend only on the multiset of lines. |
| `TraceSummary.OpenPermuted` | scripts/run-native-journey-corpus.py:325-330 | So do the open phases of every stage. |
| `TraceSummary.OrderDoesNotMatter` | scripts/run-native-journey-corpus.py:276-349 | The whole summary, raising included, depends only on the multiset of lines. |
| `ProgressRecovery.IndexEvents` | scripts/run-native-journey-corpus.py:527-534 | The dictionaries hold the last start and the last finish of each index. |
| `ProgressRecovery.Recover` | scripts/run-native-journey-corpus.py:535-583 | The rows are the finished steps up to the first unfinished index, then one interrupted row if that step had started, or the setup row if nothing came of a started batch. |
| `ProgressRecovery.OneRecovery` | scripts/run-native-journey-corpus.py:535-583 | The log determines the rows. |
| `ProgressRecovery.RowsAreInOrder` | scripts/run-native-journey-corpus.py:535-583 | Rows carry 0, 1, 2, ... in order, apart from the setup row. |
| `ProgressRecovery.FinishedRowsRepeat` | scripts/run-native-journey-corpus.py:537-553 | A finished row repeats an event of its index, with an error kind exactly for an error. |
| `ProgressRecovery.InterruptedRowTells` | scripts/run-native-journey-corpus.py:554-582 | The extra row is interrupted, carries the kind and no time, and is for the step that was started, or for the setup of a started batch. |
| `ProgressRecovery.InterruptedExactly` | scripts/run-native-journey-corpus.py:537-569 | A row before the last is interrupted if and only if its own last finish event says so. |
| `ProgressRecovery.OnlyLastIsInterrupted` | scripts/run-native-journey-corpus.py:537-569 | When no finish event reports an interruption, only the last row can be interrupted. |
| `ProgressRecovery.FinishedAsInterrupted` | scripts/run-native-journey-corpus.py:537-553 | A log in which a row before the last is interrupted. |

## Left out

- Sockets, subprocesses, JSON text, UTF-8 and the internals of tokio: parameters or modelled primitives only.
- The typed helpers of both clients, which only forward to `call`, and the Python request loop, which reads until its id comes.
- What the transport does after `close`: whether a later write throws is an input of each request.
- A poller callback that throws, and the sleep between polls.
- A task that the async runtime cancels by itself at shutdown: only an abort cancels a task here.
- Submissions of the delegate that fail: `submitted` counts what was sent to the session, accepted or not.
- The 500 ms limit of the delegate's drain: it may end at any step.
- The `portability` field of capability descriptors, which nothing checks.
- The wording of messages: a validation error is its subject and its complaint, a rejection its kind, and each has its own text in the source.
- Normalizing a negotiation request from JSON, the constraints copied into an agreement, and the mapping of a status to its negotiated form.
- The recursion limit of serde_json's own parser, its tolerance for other spellings of a text, and how numbers are rendered: a number is its serialized digits.
- JsonBudget.CheckValueBudget: asks for at least one node and limits below the largest `usize`, because the source's limits are such constants.
- Overflow of the 64-bit sum of process memory, and reading the process table.
- Rounding microseconds to milliseconds and the regular expressions on trace fields: lines come parsed and checked.
- A progress log that cannot be read, and the message texts of its rows.
- Response truncation (ctx.rs), lifecycle notifications (life.rs), connection policy (connection.rs), updates and diagnostics (update.rs, diagnostics.rs), the backend dispatcher and the per-type contract validators: glue, finite tables, or code that rests on crates outside this repository.
