# Verification of the multisig hub

This project models the RGB multisig hub, the server through which the `n` cosigners of
a multisig wallet propose operations, vote on them and record which ones they have
processed, and proves properties of that model with Dafny.

The hub keeps a log of operations in a database. A cosigner may *post* an operation when
none is pending and it has processed all the earlier ones. Some operation types are approved at
once; the others collect one ACK or NACK per cosigner and are *approved* when the ACKs
reach a threshold `t`, *discarded* when the NACKs make that impossible. A cosigner may
*respond* to the operation that follows the last one it has processed, and may *mark* any
decided operation as processed. Beside the log the hub keeps two address counters, a
register of transfer statuses and a directory of content-addressed files. All writes go
through one lock and one transaction each; reads take no lock.

`dafny verify dfyconfig.toml` checks the whole project.

## Layers

The central result is a chain of refinements: each layer below refines the one above it.

| layer | modules | what it is |
|---|---|---|
| abstract machine | `Approval`, `History`, `Decisions`, `Progress`, `Processing`, `ByteArithmetic` | the log as a sequence of operations with votes and marks; invariants, decisions, progress, order of processing, and the u8 arithmetic of the decision |
| tables | `Forms`, `Tables`, `Requests`, `Scans`, `Refinement`, `Effects`, `Ledger`, `Registers`, `Capacity`, `Guarantees` | the database rows, the queries and staged writes of each handler; every request on the tables is one step of the abstract machine or none, and writes stated rows |
| running service | `HubService`, `FileStore`, `Reading`, `Hex` | the handlers and loops as imperative code on a `Hub` object, proved against the table layer; the operation view read without the lock |
| concurrency | `Locking` | any number of tasks, interleaved read by read and write by write, dying at any point |
| surroundings | `Startup`, `Api`, `Routes` | first start, restarts, authentication, the watch-only allow-list, and what each route does and answers |

`Requests.Next` is what a handler does next, given the answers of the queries it has made
so far: another read, a refusal, or a transaction. `Requests.Exec` runs a handler without
interference, and `Scans.Valid` is the invariant of the committed tables: `Scans.Sane`, and
a configuration that fits u8 arithmetic. A cosigner index that reaches a handler is a
configured one, because authentication takes it from the cosigner map
(`Api.CallWellFormed`); that is the meaning of `Requests.WellFormed`, together with the
iteration order `keys` of the cosigner map being some enumeration of it. Clock readings and
content digests are parameters. The state reached is always that of `Locking.Linearizable`,
so every statement about `Valid` tables is one about every reachable committed state. A
panic is an error reply `Panic`, and a failing call of the database or the file system the
reply `Internal`, which a `Hub` gives only when it is `faulty`: when such calls can fail.

## What the code does not do

Places where the code and what one might expect of it differ. Each is stated with the exact
condition under which the expectation holds.

- **Order of processing.** The documentation (`README.md:41-44`) asks for operations to be
  processed in order; the mark handler (`src/routes.rs:475-495`) does not check it.
  `Guarantees.SkippingIsServed` gives requests, none refused, after which a cosigner has
  processed operation 2 without operation 1 and has voted on operation 3;
  `Guarantees.RowsInOrderIffMarksInTurn` shows that the rows of a cosigner stay in order iff
  each of its accepted marks is for the operation after its last processed one.
- **Empty type part.** The post handler looks at the first byte of the `operation_type` part
  without looking at its length (`src/routes.rs:553`), so an empty part panics the request.
  `Refinement.EmptyTypePanics` is such a request; `Refinement.PanicsExactly` shows that in any
  run a request panics iff it is a post that meets no pending and no unprocessed operation
  and whose form has an empty type part before any part that would be refused. Nothing else
  panics, and a panic changes no table.
- **Number of cosigners.** The configuration validator (`src/startup.rs:107-120`) sets no
  upper bound on the cosigners, while the decision truncates their number to u8 and counts
  votes in u8. `ByteArithmetic.DecisionRightIffFits`: with overflow checks the decision is
  right on every tally iff there are at most 255 cosigners; with wrapping arithmetic iff
  `n - t <= 254`. `Capacity.ConfigFitsIff` states it of the handlers: the configuration fits
  iff no run of requests from the first start on panics or stores a status that the votes do
  not deserve. The other table-level results are for configurations that fit.
- **First start.** It makes three separate writes. `Startup.FirstStartRecoversIff`: it can be
  repeated after a failure iff the xpubs are distinct and it died before the first write or
  not at all; `Startup.BrickedForGood` and `Startup.AddresslessForGood` show what becomes
  of the others.
- **Files outside the files directory.** `/getfile` joins the given name to the files
  directory as it is (`src/routes.rs:384`), and authentication writes watch-only requests to
  the log file (`src/auth.rs:150`). So a cosigner that asks for a path to the log is told of
  watch-only requests (`Api.LogShowsWatchOnly`). `Api.WatchOnlyIsInvisible`: watch-only
  requests leave no other trace, and replies to cosigners are the same without them iff no
  cosigner reads the log after one; `Api.InvisibleToPlainNames`: they are the same when every
  file id a cosigner asks for is a plain name.
- **Watch-only users.** The address bump handler does not look at its user; only the route
  allow-list keeps watch-only users from it (`Api.OnlyBumpIsOpen`,
  `Api.AllowListExcludesBump`).
- **Hex keys.** The decoder drops an odd last digit, so a root public key of 65 hex digits
  passes the length check as well as one of 64 (`Hex.CheckKeyLength`).
- **File lists.** An operation view attributes every file of the operation to its initiator,
  response PSBTs included, and lists those of the other cosigners a second time
  (`src/routes.rs:250-283`). `Reading.ViewListsFiles` gives the list entry by entry.

## Model

| member | source | states |
|---|---|---|
| Approval.PostKeepsInv | src/routes.rs:521-699 | an accepted post keeps the global invariant: only the newest operation may be pending, and its initiator has processed all the earlier ones |
| Approval.RespondKeepsInv | src/routes.rs:769-871 | an accepted vote keeps it: the status is the one the tally decides, approved operations have exactly t ACKs and discarded ones exactly n - t + 1 NACKs |
| Approval.MarkKeepsInv | src/routes.rs:475-503 | an accepted mark keeps it: pending operations have no processed mark |
| Approval.RunKeepsInv | src/routes.rs:464-885 | the global invariant holds after every run of posts, votes and marks |
| History.RunGrows | src/routes.rs:464-885 | over any run types, initiators and seeds never change, Approved and Discarded are absorbing, and votes and marks are never altered or removed |
| History.SuccessesAreBounded | src/routes.rs:464-885 | with k accepted posts at most 2nk votes and marks are ever accepted |
| Decisions.EarlyDecisionIsExact | src/routes.rs:837-871 | a voted operation is Approved iff every completion of the missing votes has t ACKs, Discarded iff none has, Pending iff both kinds of completion exist |
| Decisions.AllVotedIsDecided | src/routes.rs:837-871 | once all cosigners have voted the operation is decided |
| Decisions.PendingMissesAVote | src/routes.rs:837-871 | a pending operation still misses the vote of some cosigner |
| Decisions.DecisionFollowsIntent | src/routes.rs:779-871 | for fixed intended votes, whatever is requested in whatever order, a decision is Approved iff the intended ACKs reach the threshold |
| Decisions.OrderDoesNotMatter | src/routes.rs:779-871 | giving every cosigner its say, in any order, with marks and any other requests in between and late votes being refused, always ends in the decision of the intended tally |
| Progress.NonVoterCanVote | src/routes.rs:774-802 | every non-voter on the pending operation can vote at once or after one mark of the operation before |
| Progress.InitiatorCanVoteAtOnce | src/routes.rs:527-535 | the initiator of the pending operation has voted or can vote at once |
| Progress.Settle | src/routes.rs:769-871 | two steps per missing vote settle the pending operation |
| Progress.CatchUp | src/routes.rs:475-503 | with nothing pending, one mark per operation makes a cosigner ready to post |
| Progress.AnyoneCanPost | src/routes.rs:464-707 | from every reachable log of k operations every cosigner has a run of at most 2n + k + 1 successful steps ending in its post |
| Processing.WhoHasProcessedWhat | src/routes.rs:527-535 | the initiator of an operation has processed all the earlier ones; a voter has processed the one before |
| Processing.MarkInTurnIff | src/routes.rs:475-495 | an accepted mark keeps the cosigner in order iff it is for the operation after its last processed one |
| Processing.InOrderIffMarksInTurn | README.md:41-44 | over any run a cosigner processes in order iff each of its marks is in turn |
| Processing.SkippingIsAccepted | README.md:41-44 | a run from the empty log, accepted in full, in which a cosigner processes 2 without 1 and votes on 3 |
| HubTypes.Config.Threshold | src/utils.rs:73-87 | the threshold table has no entry exactly for the auto-approved types, and the coloured threshold exactly for the voted types that move RGB assets |
| ByteArithmetic.FittingDecision | src/routes.rs:842-863 | with a fitting configuration, the u8 fold, truncation and subtraction neither panic nor wrap wrongly on any tally one vote after Pending |
| ByteArithmetic.DecisionRightIffFits | src/startup.rs:107-120 | the u8 decision is the ideal one on every such tally iff n <= 255 with overflow checks, iff n - t <= 254 with wrapping |
| Capacity.VoteGoesWrong | src/routes.rs:837-871 | a vote on which u8 arithmetic does not take the ideal decision panics the handler or stores another status than the machine's |
| Capacity.ConfigFitsIff | src/startup.rs:107-120 | the configuration fits iff in every run of requests from the first start on nothing panics and the tables stand for what the approval machine does |
| Forms.ParsesIffAcceptable | src/routes.rs:537-615 | a form is read to its end iff each part is good by itself and at most one is a PSBT; it has a type and a PSBT exactly when it has such parts |
| Forms.FileTypeOf | src/routes.rs:567-580 | each of the five file names stands for its own type, and no other name is a file |
| Forms.TypeOf | src/routes.rs:159-176 | each code from 1 to 8 stands for its own operation type, and no other code for any |
| Forms.FormHolds | src/routes.rs:549-608 | an accepted form has the type and the seed of its last such parts, its file parts one for one and in order under the types of their names, and its only PSBT; nothing else |
| Forms.RefusedForFirstBad | src/routes.rs:544-614 | a form is refused exactly for its first bad part: a panic on an empty type, an invalid type on an unknown code, an invalid request on a bad seed, an unknown, empty or second PSBT file, or another field |
| Forms.PanicsIffEmptyType | src/routes.rs:549-554 | reading a form panics iff an empty type part comes before any part that would be refused |
| Scans.PendingScan | src/database/mod.rs:241-247 | the pending query answers whether the log has a pending operation |
| Scans.UnprocessedScan | src/database/mod.rs:249-259 | the unprocessed query answers whether some operation lacks the cosigner's mark |
| Scans.LastProcessedScan | src/database/mod.rs:160-172 | filter, descending order and first row give the largest operation the cosigner marked, 0 if none |
| Scans.LastOperationScan | src/database/mod.rs:174-180 | descending order and first row give the number of operations, none if there are none |
| Scans.EntryIs | src/database/mod.rs:126-136 | the row of a cosigner and operation is found, and is the only one |
| Scans.OperationIs | src/database/mod.rs:214-221 | an operation is found by its number exactly when the number is between 1 and the number of operations |
| Scans.TallyScan | src/routes.rs:838-849 | the ACK/NACK fold over an operation's rows counts the cosigners on each side of the vote |
| Refinement.PostEffect | src/routes.rs:637-702 | the transaction of a post leaves one operation row numbered max + 1, one file row per upload and one fresh row per cosigner |
| Refinement.PostPlan | src/routes.rs:521-632 | a post is committed exactly when its form is read and the machine allows it, panics exactly on an empty type part that is reached, and is refused otherwise |
| Refinement.PostRefines | src/routes.rs:637-702 | the tables after a post stand for the log with the operation appended, and are valid |
| Refinement.RespondPlan | src/routes.rs:769-802 | a response is committed exactly when the machine allows it, on the caller's own row; the row lookup never fails |
| Refinement.SettleIsExact | src/routes.rs:837-871 | the status computed in u8 from the staged rows is the ideal decision on the votes cast plus the new one |
| Refinement.RespondEffect | src/routes.rs:804-874 | the staged writes of a response add its PSBT row, replace the caller's row and set the decided status |
| Refinement.RespondRefines | src/routes.rs:804-874 | the tables after a response stand for the log with that vote, and are valid |
| Refinement.MarkPlan | src/routes.rs:475-495 | a mark is committed exactly when the operation is decided and not yet marked by the caller |
| Refinement.MarkRefines | src/routes.rs:497-503 | the tables after a mark stand for the log with that mark, and are valid |
| Refinement.BumpEffect | src/routes.rs:324-352 | a bump returns and moves the chain asked for by the count; zero count and u32 overflow change nothing |
| Refinement.TransferEffect | src/database/mod.rs:261-298 | a set inserts a row for a free batch, returns the existing row on the same answer, and is refused on another |
| Refinement.ExecRefines | src/routes.rs:464-946 | every request on valid tables is one step of the approval machine if it succeeds and none if it is refused, keeps the tables valid, and panics exactly on an empty type part that is reached |
| Refinement.RunRefines | src/routes.rs:464-946 | a run of requests on the tables is a run of the approval machine |
| Refinement.PanicsExactly | src/routes.rs:521-554 | in any run a request panics iff it is a post that meets no pending and no unprocessed operation and whose form has an empty type part before any refused part |
| Refinement.NoPanic | src/routes.rs:784-859 | a run without such posts has no panic: no missing row or threshold, no u8 overflow or underflow |
| Refinement.EmptyTypePanics | src/routes.rs:549-554 | the first post of any cosigner, with an empty type part, panics and changes nothing |
| Effects.PostWrites | src/routes.rs:637-702 | an accepted post appends one operation with the type, seed and time of the request, one blank row per cosigner, and one file row per file part under its digest and the type of its name, the PSBT last |
| Effects.RespondWrites | src/routes.rs:804-874 | an accepted response writes the vote, its time and the pointer to its PSBT to the caller's row, adds the one PSBT row under the digest of the whole upload, and changes at most the operation's status beside |
| Effects.ResponsePsbtStays | src/routes.rs:808-835 | after any later requests the PSBT row and the caller's pointer to it are there, and what is stored under its digest is the PSBT, unless digests collide |
| Effects.MarkWrites | src/routes.rs:497-503 | an accepted mark writes its time to the caller's row and nothing else |
| Effects.RespondOutcome | src/routes.rs:769-802 | which response is refused for which reason, in the order of the checks |
| Registers.OneBump | src/routes.rs:324-352 | only a successful bump moves a chain, by the range it hands out, and never to 2^32 |
| Registers.AddressesTile | src/routes.rs:317-353 | over any run of all requests, the ranges handed out on a chain tile the distance its next index moved |
| Registers.EveryAddressOnce | src/routes.rs:317-353 | from the first start on, the ranges handed out on a chain are disjoint, in order, and issue exactly the indices below the next one |
| Registers.CurrentIsLastIssued | src/routes.rs:355-377 | the reported current index is the last one handed out, none if none was |
| Registers.SetIsWriteOnce | src/database/mod.rs:269-297 | a set succeeds iff the batch is free or has the same answer; it reports the registered row, a conflict changes nothing, other batches are untouched |
| Registers.StatusStaysForGood | src/routes.rs:887-947 | a registered status stays the same over any run |
| Registers.RegisterAgreement | src/routes.rs:887-947 | after a successful set, all later successful sets and reads of the batch return the same row |
| Ledger.RunGrows | src/routes.rs:464-946 | over any run rows only gain: identities, votes with time and PSBT, mark times, file rows and transfer rows are never rewritten |
| FileStore.StoredOnce | src/utils.rs:59-71 | identical content is stored under one name |
| FileStore.StoredIsPosted | src/routes.rs:656-669 | what is stored under the digest of a content is that content, unless another content has the same digest |
| Locking.MoveKeepsConsistent | src/routes.rs:516-707 | in any interleaving the lock holder stays on its way to the result of an uninterrupted run, and the log of replies explains the tables |
| Locking.MoveKeepsFiles | src/routes.rs:656-686 | after any step, the death of a task included, each committed file row's file exists, each file hashes to its name, none has changed |
| Locking.CommittedTablesMoveOn | src/routes.rs:213-313 | between two moments the committed tables move by whole requests and files only appear |
| Locking.Linearizable | src/routes.rs:464-885 | any number of concurrent requests, failing anywhere, leave tables and replies that the logged requests give one at a time in log order; each request is logged at most once, and exactly once when it ran to its end |
| Locking.ServedWhenIdle | src/routes.rs:464-885 | a request that arrives at an idle service can run to its end: it takes effect, persists its files, is logged with its reply and is released |
| Locking.HolderCanFinish | src/routes.rs:514-707 | in every reachable state the task that holds the lock can finish by its own turns and free the lock |
| Locking.WaitingCanBeServed | src/routes.rs:517-519 | from any state with a free lock a waiting request can run to its end, with the effect and reply of an uninterrupted run |
| Locking.EveryWaitingCanBeServed | src/routes.rs:517-519 | in every reachable state any waiting request can be served after at most the turns of the lock holder |
| Locking.AbortLeavesNoTrace | src/routes.rs:514-702 | a task that dies leaves the committed tables, the files, the log and everyone else as they are, and frees its lock |
| Locking.LogRespectsTime | src/routes.rs:517-519 | a request that was released before another one arrived comes before it in the log |
| Locking.NoTornPost | src/routes.rs:517-707 | in every interleaving there are never two pending operations, nor an operation missing a cosigner's row |
| Locking.LockIsNeeded | src/routes.rs:518-535 | two posts checked on the same tables and both committed would leave two pending operations, which the lock prevents |
| Reading.ViewSucceeds | src/routes.rs:218-283 | however reads and writes interleave, no lookup of a view misses: not the initiator, a voter, the operation, a PSBT row or a file |
| Reading.ViewShows | src/routes.rs:230-312 | every field of a view but its files, in terms of the rows and logs that its reads saw |
| Reading.ViewShowsOwnRow | src/routes.rs:236-247 | the viewer is shown the response and the time of processing of its own row |
| Reading.ViewListsFiles | src/routes.rs:249-283 | a view lists, one for one and in order, the operation's own file rows under the initiator's xpub, then the PSBTs that the rows of the other cosigners refer to, under their own xpubs, each with the size of the stored file |
| Reading.NeverAheadOfTheVotes | src/routes.rs:213-313 | however reads and writes interleave, a view saying Approved shows exactly t ACKs, one saying Discarded exactly n - t + 1 NACKs; the sides are disjoint and agree with the viewer's own response |
| HubService.Hub.PersistTempFile | src/routes.rs:658-662 | the content is stored under its digest, and no stored file changes |
| HubService.Hub.StageFiles | src/routes.rs:656-670 | one file row per upload, each backed by a stored file, or failure with only files added |
| HubService.Hub.StageStatuses | src/routes.rs:688-699 | one fresh row per cosigner in map order |
| HubService.Hub.PostOperation | src/routes.rs:510-707 | the handler has the outcome of the specified post and takes exactly that step of the machine; an accepted post leaves the rows its form says, and the content of every file part stored; only a failing call makes it fail otherwise, with the tables unchanged |
| HubService.Hub.CheckResponse | src/routes.rs:769-802 | the checks refuse exactly the responses the machine does not allow, and find the caller's own row |
| HubService.Hub.StageVote | src/routes.rs:807-835 | the staged tables hold the PSBT row and the vote in the caller's row |
| HubService.Hub.SettleStaged | src/routes.rs:837-871 | counting the staged rows in u8 gives the operation the status its votes deserve in ideal arithmetic, and changes nothing else |
| HubService.Hub.RespondToOperation | src/routes.rs:709-885 | the handler takes exactly the specified voting step or leaves the tables unchanged; an accepted response leaves the vote and the PSBT row in the tables and the whole PSBT in the files; the reply is the view of the committed tables, or an error if reading it fails after the commit |
| HubService.Hub.MarkOperationProcessed | src/routes.rs:464-508 | the handler takes exactly the specified marking step, writing the time to the caller's row, or leaves the tables unchanged |
| HubService.Hub.BumpAddressIndices | src/routes.rs:317-353 | the handler has the outcome of the specified bump |
| HubService.Hub.PutTransferStatus | src/routes.rs:892-927 | the handler has the outcome of the specified set; a success answers the xpub, acceptance and time of the registered row, which are the caller's xpub and answer and the present time when the batch was free |
| HubService.Hub.GetTransferStatusInfo | src/routes.rs:928-946 | the answer is the xpub, acceptance and time of the registered row, none if the batch is free |
| HubService.Hub.GetOperationByIdxWithFiles | src/routes.rs:213-314 | read while others commit, the result is the view of three successive snapshots unless a call fails; the initiator, the voters, the rows and the files it expects are there |
| HubService.PostOutcome | src/routes.rs:521-632 | which post is refused for which reason, in the order of the checks |
| HubService.MarkOutcome | src/routes.rs:475-495 | which mark is refused for which reason, in the order of the checks |
| HubService.Hub.EntriesWithCosigners | src/database/mod.rs:138-158 | the rows of an operation, each with its cosigner's xpub, or an error exactly when a cosigner is missing |
| HubService.Hub.FindMine | src/routes.rs:236-247 | the viewer's row, if the viewer is a cosigner |
| HubService.Hub.CollectSides | src/routes.rs:285-294 | the xpubs of the cosigners on each side of the vote |
| HubService.Hub.ReadResponseFile | src/routes.rs:268-282 | the PSBT row of an entry read earlier still exists, with its file |
| HubService.Hub.GetCurrentAddressIndices | src/routes.rs:355-377 | for every history of requests that can have led to the tables, the answer is the last index handed out on each chain |
| Startup.Validate | src/startup.rs:107-120 | exactly the files with at least two cosigners and thresholds between one and their number are accepted |
| Startup.Daemon.StartDaemon | src/startup.rs:198-296 | the start, write by write, has the specified result |
| Startup.Daemon.SetCosigners | src/database/mod.rs:48-56 | all cosigners are numbered from 1 in order, or none is inserted when an xpub repeats |
| Startup.MapsAreInverse | src/startup.rs:276-280 | the maps from index to xpub and back are inverse to each other |
| Startup.FixedIsSound | src/startup.rs:107-120 | a completed first start has distinct xpubs, at least two cosigners, and 1 <= t <= n |
| Startup.RestartChangesNothing | src/startup.rs:216-231 | a restart writes nothing, succeeds iff thresholds and xpub set agree, in any order, and then runs the same configuration; otherwise it says which of the two changed |
| Startup.FirstStartRecoversIff | src/startup.rs:232-275 | a first start succeeds, or can be repeated, exactly under a stated condition on xpubs and on when it died |
| Startup.BrickedForGood | src/startup.rs:225-230 | with only the configuration row written, no valid configuration file ever starts the directory |
| Startup.AddresslessForGood | src/database/mod.rs:182-192 | without the address row, every later bump panics |
| Startup.ConfigurationIsForLife | src/startup.rs:216-280 | after a completed first start, over any restarts and periods of service cut short anywhere, the running configuration stays the same, the tables valid, and no file is lost |
| Startup.DeploymentIsForLife | src/startup.rs:198-296 | from an empty directory, the first configuration file alone decides both thresholds and the cosigner of each number, whatever service, crashes and restarts follow |
| Api.OnlyBumpIsOpen | src/auth.rs:66-79 | past authentication a watch-only user changes nothing except possibly through the bump route |
| Api.AllowListExcludesBump | src/auth.rs:18-28 | the bump route is not on the allow-list |
| Api.WatchOnlyIsInvisible | src/auth.rs:127-161 | deleting all requests of non-cosigners from a run leaves the same tables and files, and the same replies to cosigners iff no cosigner reads the log file after a watch-only request |
| Api.InvisibleToPlainNames | src/routes.rs:384-387 | the replies to cosigners are the same when every file id they ask for is a plain name |
| Api.LogShowsWatchOnly | src/auth.rs:149-151 | a cosigner that asks for a path to the log file is told of a watch-only request |
| Api.ServeKeepsHealthy | src/auth.rs:127-137 | whoever asks for whatever, the tables stay valid and the files complete, and only a cosigner's allowed post with an empty type part that is reached panics; no read does |
| Routes.AuthenticatedIff | src/auth.rs:127-137 | a cosigner's token names a configured xpub and stands for its number, a watch-only token names none, and no other is accepted |
| Routes.TurnedAway | src/auth.rs:152-160 | without an accepted token nothing changes, and a watch-only user outside the five routes leaves a line in the log only |
| Routes.PostServed | src/routes.rs:510-707 | a served post is accepted exactly when the machine allows it, with the caller's number and its form; then its rows and files are there and the answer is the new number, else an error with the tables unchanged |
| Routes.RespondServed | src/routes.rs:709-885 | the same of a response: then its vote, its time and its PSBT are written, and the answer is the view of the operation |
| Routes.MarkServed | src/routes.rs:464-508 | the same of a mark: then its time is written |
| Routes.BumpServed | src/routes.rs:317-353 | a served bump answers the next index of its chain and moves that chain alone by the count, or is refused |
| Routes.SetServed | src/routes.rs:892-927 | a set of a free batch answers the caller's xpub, its answer and the time; a later one that agrees the registered status; one that does not is refused |
| Routes.SetIsForCosigners | src/routes.rs:892-896 | a set by a watch-only user is forbidden and changes nothing |
| Routes.StatusServed | src/routes.rs:928-946 | whoever is let in is answered the registered status of a batch, or none |
| Routes.AnswersAgree | src/routes.rs:887-947 | whatever is requested in between, every later read of the batch and every later set that agrees is answered what the successful set was; a set that does not agree is refused |
| Routes.LastProcessedServed | src/routes.rs:408-421 | a cosigner is told the largest operation it has marked in the log |
| Routes.InfoServed | src/routes.rs:442-462 | the last operation's number is the number of operations, and the user is told who it is taken for |
| Routes.AddressesServed | src/routes.rs:355-377 | each chain is answered the index before its next one, none if none was handed out |
| Routes.OperationServed | src/routes.rs:423-440 | every existing operation, and no other, is shown to whoever is let in, as the view for that user |
| Routes.FileServed | src/routes.rs:379-405 | a plain name is answered the content stored under it, or not found |
| Routes.ServeAllGrows | src/routes.rs:317-947 | over any mix of requests by anyone the tables stay valid and move by whole calls, and stored files stay |
| Routes.UploadIsServed | src/routes.rs:379-405 | whatever is requested in between, each file of a successful post and the PSBT of a successful response can be downloaded under its digest, byte for byte, unless digests collide |
| Hex.HexStrToVec | src/utils.rs:36-53 | Some iff every character is a hex digit; then one byte per pair of digits, an odd last digit dropped |
| Hex.RoundTrip | src/utils.rs:36-53 | the lower- or upper-case encoding of any bytes is valid and denotes only those bytes |
| Hex.CheckKeyLength | src/auth.rs:81-87 | the length check passes exactly the strings of 64 or 65 hex digits |
| Guarantees.StoredDecisionIsExact | src/routes.rs:837-871 | the stored status of a voted operation is Approved, Discarded or Pending iff all, none or some of the completions of the stored votes reach the threshold |
| Guarantees.OutcomeFollowsIntent | src/routes.rs:779-871 | for any run of requests, the stored outcome follows the intended votes |
| Guarantees.OrderOfVotesDoesNotMatter | src/routes.rs:779-871 | requests that give every cosigner its say, in any order and with marks and other requests in between, always store the decision of the intended tally |
| Guarantees.ProcessingDiscipline | src/routes.rs:527-535 | in the rows: initiators have processed all before, voters the one before |
| Guarantees.RowsInOrderIffMarksInTurn | README.md:41-44 | over any run of requests the rows of a cosigner stay in order iff each of its accepted marks is for the operation after its last processed one |
| Guarantees.SkippingIsServed | README.md:41-44 | seven requests from the first start on, none refused, after which a cosigner has processed 2 without 1 and voted on 3 |
| Guarantees.AnyoneCanGetToPost | src/routes.rs:464-707 | from every valid state at most 2n + k + 1 requests, none refused, let any cosigner post |
| Guarantees.ReplyKinds | src/routes.rs:464-946 | a reply of each kind comes exactly from a successful request of that kind |
| Guarantees.WorkIsBounded | src/routes.rs:464-885 | with k accepted posts, at most 2nk responses and marks are answered with success |
| Guarantees.UploadsStayAvailable | src/routes.rs:656-686 | each uploaded file of an accepted post stays listed under its operation with the type its name stands for, and its content stays stored under its digest, whatever is requested later |
| Guarantees.EveryAckHasItsPsbt | src/routes.rs:769-835 | behind every ACK there is a stored response PSBT of the same operation |
| Guarantees.ReaderIsNeverAhead | src/routes.rs:213-313 | in every interleaving of the system, a reader without the lock gets a view that shows the votes that decided it |

## Left out

- HTTP routing, JSON parsing, CORS, tracing and shutdown. A post is the list of its form
  parts, each already read; the form of a response is a value, since each of its defects
  gives the same refusal as a form without a request body. Temporary file errors while a form
  is read are not modelled.
- Token cryptography and expiry: the facts of a verified token are the input of `Api.Authenticate`.
- sea-orm and SQLite: tables are row sequences, a transaction is a staged copy of them that is
  committed or dropped, an insert gets the number after the largest one, and a single-statement
  update counts as a transaction of one write. Foreign keys are not stated.
- SHA-256: the digest is a function, and collisions appear as a premise where they matter.
- Durability across power loss: a file is stored in one step.
- Locking.MoveKeepsFiles: does not cover uploads still being written, which lie in the files
  directory under temporary names; they are not part of this model.
- The clock: times are arbitrary values, stored once, and nothing is said about their order.
- i32 row numbers: they are unbounded here, so running out of them is not modelled.
- Version, port, command line and curve checks.
- PSBT, consignment and fascia contents: opaque bytes.
- Tables are values, replaced as a whole at a commit; aliasing of rows plays no part.
- The log file is a list of lines, one for each request that authentication lets in; its other
  lines and its daily change of name are not modelled.
- HubService.Hub.PostOperation: the lock is not part of the class, where nothing runs beside a
  writing handler; what the lock gives is `Locking.Linearizable`. The same holds for the other
  writing methods.
- HubService.Hub.OtherRequests: stands for the interference a reader meets; only its contract is
  used, and `Locking.CommittedTablesMoveOn` is the reason that contract is right.
- Guarantees.OutcomeFollowsIntent: does not say that a decision is reached, since cosigners may
  never vote; `Guarantees.OrderOfVotesDoesNotMatter` does, when all of them have their say.
