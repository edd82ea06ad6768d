# File transfer: a verified model

A file arrives, a row in `file_metadata` tracks it, its bytes go to a store, and a worker is told
about it.  This project models that path and proves what holds over every run of it.

| file | what it models |
|---|---|
| `Domain.dfy`, `Records.dfy` | the vocabulary of `internal/domain`: files, metadata, rows, and the mutable record object |
| `UploadProtocol.dfy` | `UploadMultipleParallel` as a step relation: any number of overlapping calls, each an errgroup whose goroutines share one table, one store and one notification pipeline |
| `UploadInvariants.dfy` | what every step keeps |
| `UploadGuarantees.dfy` | what holds over whole runs: rows, errors, endings, order of calls, compensation, termination, the store |
| `SerialUpload.dfy`, `UploadEquivalence.dfy` | `UploadMultipleSerial`, and the parallel upload against it and against itself |
| `LocalStore.dfy`, `LocalOverlap.dfy` | `LocalRepository.Save`: create, copy loop, deferred close; and several Saves of one name at once, write by write |
| `ChunkPump.dfy` | the goroutine that pumps gRPC chunks into an unbuffered pipe, and the pipe |
| `UploadHandler.dfy` | the gRPC handler: pump, local store and parallel upload running together |
| `LocalUpload.dfy` | the parallel upload over the local store, its Saves taken apart, against the protocol in which a Save is one event |
| `TextCleaning.dfy` | `Chunker.split` up to the library splitter: backtracking regex, rewrite, strip, in place |
| `MetadataQuery.dfy` | the SQL repository (INSERT, UPDATE, `FindAll`'s numbered placeholders) and `FetchMetadataList` |
| `InMemoryRepository.dfy` | the map of shared record objects |
| `FileListing.dfy` | `ListFiles`, with int64 ids printed and parsed as UUIDs |
| `PubSub.dfy` | the Pub/Sub worker: handler, wrapper, subscribe loop, and redelivery |

In the state machines an event carries every choice the environment makes (which goroutine moves,
which id the sequence gives, how a call is answered), so a lemma about all sequences of events is
a lemma about all interleavings, faults and allocators.  A call that reports an error may still
have taken effect: its reply can be lost after the statement was committed.  A call on a context
can fail with the context's error only when that context is done.

## What the proofs show about the code

Where comments or documents say something else, the model follows the code.

- **Lost replies.** Besides the five endings one would list for a file (no row; row Failed; row
  Pending after a failed Save and a failed rollback; row Pending, file saved; row Completed, file
  saved) there is a sixth: a Pending row whose INSERT was committed but reported as failed.
  `HowFilesEnd` proves that the six are all there are, and `EveryEndingHappens` that each happens.
  A Completed row can also belong to a call that returned an error (`CompletedDespiteError`);
  `HowFilesEnd` gives the exact condition for nil.  Without lost replies the five endings remain
  and nil means all completed (`HowFilesEndLossless`).
- **A failing Close is lost.** The comment at internal/infra/local/local_repository.go:35 says the
  deferred function assigns the error of Close to the result.  The result is not named, so it
  does not.  A nil from Save means the bytes are there exactly when Close kept them
  (`LocalRepository.Save`, `LoseCloseError`); the same condition appears in `SuccessMeansStored`.
- **Overlapping Saves of one name mix.** Each local Save writes at an offset of its own, so two at
  once can leave a file that neither wrote (`MixedFile`).  A Save that begins is sure to leave a
  whole file exactly when no other Save of the name is in progress (`WholeExactlyWhenIdle`).  With
  distinct names that is always so (`DistinctNamesAreExclusive`), and then the local files are what
  the protocol's store says (`FilesAreTheStore`, `LocalEqualsSerial`).
- **Notifications say Pending.** A notification goes out only for a Completed row, but its payload
  is built from a record whose status nobody updates (`NotificationsSayPending`).
- **`SaveMetadata` is not idempotent**, although internal/domain/repository.go:37 promises it: the
  statement inserts no id, so `ON CONFLICT (id)` never fires and each call adds a row.
- **`FindAll` never asks `rows.Err()`.** A connection that breaks between rows yields a shorter
  list without an error (`FindAll`, `ListCutShort`).
- **The pump can be left for ever.** Nobody closes the reading end.  Once Save is over, or Create
  failed and Save is never called, the pump goroutine can end exactly when it is not in the middle
  of a Write (`AbandonedPumpCanEnd`), and it can be left there (`PumpIsAbandoned`).
- **The server acknowledges what the handler gave back.** The handler alone loses no message
  (`HandlerAloneLosesNothing`); the wrapper's `finally` acknowledges after every outcome, so one
  failed delivery removes the message (`ServerLosesFailedMessage`).  `WhenAMessageLeaves` is the
  exact condition for both.
- **`start` schedules two subscribe loops** and `stop` cancels only the last (`StartThenStop`).
- **Ids outside 1 .. 2^48 - 1 all print as the zero UUID** (`SameUuid`).
- **One record object stored twice breaks the in-memory repository** (`Create`, `StoreTwice`), and
  its `UpdateStatus` changes nothing (`UpdateIsForgotten`).
- The comment at internal/handler/grpc/file_handler.go:43 speaks of a limit of 1 GB in `NewFile`;
  there is none (internal/domain/file.go:18-31).  The repository's own top-level README (line 115)
  speaks of a rollback of the stored file; no code calls `Delete`.

## Model

| member | source | states |
|---|---|---|
| UploadInvariants.StepKeepsInv | internal/usecase/file_interactor.go:59-122 | every step of every goroutine, of errgroup and of Wait keeps the whole invariant: phase, row status and save outcome of each goroutine agree; goroutines belong to their group; the first error is recorded before cancellation; notifications are for Completed rows |
| UploadInvariants.RunKeepsInv | internal/usecase/file_interactor.go:59-122 | the invariant holds in every state of every run of overlapping calls, with any faults |
| UploadInvariants.StepKeepsWorkers | internal/usecase/file_interactor.go:67-112 | a goroutine's row is its own, describes its file, and its status is the one its program counter implies, whatever the other goroutines do |
| UploadInvariants.StepKeepsGroups | internal/usecase/file_interactor.go:61-119 | errgroup: error recorded once, context cancelled exactly after that, Wait returns the recorded error with all goroutines finished |
| UploadInvariants.StepKeepsNotes | internal/usecase/file_interactor.go:98-104 | every notification sent names the sender's row, which is and stays Completed, its file and its tenant |
| UploadGuarantees.RowsOnlyAdvance | internal/usecase/file_interactor.go:82-94 | between any two moments of a run an uploaded row is unchanged or has gone from Pending to Completed or Failed with only its update time changed; rows of others are untouched, none is deleted |
| UploadGuarantees.StatusChangesOnce | internal/usecase/file_interactor.go:82-94 | a row whose status has changed is final |
| UploadGuarantees.RowsStartPending | internal/usecase/file_interactor.go:70-77 | a row appears only by Create, under the id given to it, as Pending, with the time of that call |
| UploadGuarantees.BeginIsKept | internal/usecase/file_interactor.go:59-67 | from its beginning to the end of the run a call keeps the tenant and the files it was given, one goroutine for each file in their order |
| UploadGuarantees.ErrorIsGenuine | internal/usecase/file_interactor.go:61-119 | if the parent context was never done, the error returned is a fault, not a cancellation, that a goroutine of this very call met in one of its own calls in this run |
| UploadGuarantees.CancelledByFirstError | internal/usecase/file_interactor.go:60-61 | the context is cancelled exactly when a goroutine has recorded the first error and got past the once, or the call has returned |
| UploadGuarantees.CancelledSiblingIsCompensated | internal/usecase/file_interactor.go:60-87 | a run of two files: the first one's Create fails, the cancellation reaches the second one's Save, its row is still set to Failed, and the first error is returned |
| UploadGuarantees.FirstErrorWins | internal/usecase/file_interactor.go:115-119 | the error handed to errgroup first is kept by every later step and is the one Wait returns |
| UploadGuarantees.NoReportNoError | internal/usecase/file_interactor.go:60-61 | as long as no goroutine has returned an error, none is recorded |
| UploadGuarantees.HowFilesEnd | internal/usecase/file_interactor.go:67-121 | when the call returns no goroutine is running and each file is in exactly one of six endings; the result is nil iff every file is saved with its row Completed and no reply to a Completed update was an error |
| UploadGuarantees.EveryEndingHappens | internal/usecase/file_interactor.go:67-121 | for each of the six endings there is a run of one file that ends so, returning nil for the completed one and an error for the others |
| UploadGuarantees.CompletedDespiteError | internal/usecase/file_interactor.go:90-94 | a run of one file whose update was carried out and its reply lost: an error is returned, the file is saved and its row Completed |
| UploadGuarantees.HowFilesEndLossless | internal/usecase/file_interactor.go:67-121 | if no reply is lost, five endings remain and the result is nil iff every file is saved and completed |
| UploadGuarantees.NilMeansCompleted | internal/usecase/file_interactor.go:67-112 | one goroutine returns nil iff its file is saved, its row Completed and its update was answered |
| UploadGuarantees.CompletedAfterSave | internal/usecase/file_interactor.go:81-94 | a Completed row was completed by its own goroutine's update, at the time it shows, which came after that goroutine's successful Save |
| UploadGuarantees.SavedHasEvent | internal/usecase/file_interactor.go:82-87 | what a goroutine is recorded to have saved is what one of its Save calls stored |
| UploadGuarantees.NotifyAfterCompleted | internal/usecase/file_interactor.go:90-104 | a notification is attempted only when the goroutine's row is already Completed |
| UploadGuarantees.NothingAfterNotify | internal/usecase/file_interactor.go:98-111 | after its notification a goroutine makes no further call, so each file is notified at most once |
| UploadGuarantees.NilMeansNotified | internal/usecase/file_interactor.go:98-111 | with a pipeline, a goroutine returns nil only after its notification was attempted |
| UploadGuarantees.NotificationsSayPending | internal/usecase/file_interactor.go:70-101 | every notification that went out names a Completed row, its file and the tenant (or the default one), and carries the status Pending |
| UploadGuarantees.NotesAreSent | internal/usecase/file_interactor.go:98-104 | the log of notifications is exactly the attempts that the pipeline carried out, answered or not, in their order |
| UploadGuarantees.NotificationsArrive | internal/usecase/file_interactor.go:98-104 | a goroutine has a notification in the log iff an attempt of it was carried out, and then it has one |
| UploadEquivalence.FaultFreeNotifies | internal/usecase/file_interactor.go:98-104 | a fault-free call with a pipeline sends exactly one notification for each file, with its name, the id of its row and the tenant, and no others |
| UploadGuarantees.FailedSaveIsCompensated | internal/usecase/file_interactor.go:82-87 | after a failed Save the rollback call is made, in a cancelled group too; it cannot fail by cancellation; and the row ends Failed, with the time of that call, iff it took effect |
| UploadGuarantees.RestingIsFinal | internal/usecase/file_interactor.go:67-112 | from the moment a goroutine has made its last call to the end of the run, its row in the table and the outcome of its Save stay exactly as they are |
| UploadGuarantees.AtMostFourCalls | internal/usecase/file_interactor.go:67-112 | a goroutine makes at most four calls of repositories and pipeline in any run |
| UploadGuarantees.RunsAreBounded | internal/usecase/file_interactor.go:63-116 | a run without new calls is no longer than the work left |
| UploadGuarantees.SomeStepIsEnabled | internal/usecase/file_interactor.go:63-116 | no deadlock: while a call has not returned, a step other than a new call or an outside cancellation is possible |
| UploadGuarantees.CallsReturn | internal/usecase/file_interactor.go:116-121 | a run that can only be continued from outside has seen every call return |
| UploadEquivalence.CallCanReturn | internal/usecase/file_interactor.go:63-121 | from every reachable state, whatever has failed, each call can still return without any further fault |
| UploadEquivalence.FaultFreeRunExists | internal/usecase/file_interactor.go:59-122 | for every list of files and every earlier table and store there is a complete fault-free run that stores every buffer as it is |
| UploadGuarantees.SavedFileIsStored | internal/usecase/file_interactor.go:82 | whoever used a name before, the last Save that wrote under it decides what a store of whole objects holds there |
| UploadGuarantees.UnwrittenNameStays | internal/usecase/file_interactor.go:82 | a name under which no Save of the run wrote is as it was before the run |
| SerialUpload.UploadMultipleSerial | internal/usecase/file_interactor.go:158-168 | whatever each Save answers and leaves: nil iff all succeed; otherwise the first failure is the one reported; the store is that of the Saves up to there, one after another, and of none after it |
| SerialUpload.StoresLast | internal/usecase/file_interactor.go:158-168 | after the serial loop, ended or failed, the last Save of a name that left anything decides what is under it |
| SerialUpload.StoresKeep | internal/usecase/file_interactor.go:158-168 | a name under which no Save left anything is as it was |
| SerialUpload.ReplayLookup | internal/usecase/file_interactor.go:158-168 | with distinct names, the serial loop leaves each file's own bytes under its name and every other name as it was |
| UploadEquivalence.FaultFreeEnds | internal/usecase/file_interactor.go:59-122 | without faults every interleaving returns nil with every file saved and completed |
| UploadEquivalence.ParallelIsSerializable | internal/usecase/file_interactor.go:59-122 | for a store that replaces whole objects: without faults, names repeated or not, the store is the one the serial loop leaves for the same files in the order of the saves, which lists each file once |
| UploadEquivalence.ReplayIgnoresOrder | internal/usecase/file_interactor.go:158-168 | with distinct names the serial loop leaves the same store for every order of the files |
| UploadEquivalence.ParallelEqualsSerial | internal/usecase/file_interactor.go:59-168 | with distinct names every fault-free interleaving that stores buffers as they are leaves exactly the store of the serial upload, and nil |
| UploadEquivalence.ParallelFailsLikeSerial | internal/usecase/file_interactor.go:59-168 | with Save faults on some names as the only faults, the parallel upload fails iff the serial one does for the same files and names, which is iff some file has such a name; and its error is such a Save fault |
| UploadEquivalence.FinalRow | internal/usecase/file_interactor.go:70-94 | after a fault-free run each file has a Completed row of its own with its name, size, source and tags |
| UploadEquivalence.TableIsOldAndOwned | internal/usecase/file_interactor.go:59-122 | at any time the table is the old rows, untouched, and the rows the uploads inserted, with no id in common |
| UploadEquivalence.RowsAreConfluent | internal/usecase/file_interactor.go:63-113 | two fault-free interleavings leave the same rows up to times and a one-to-one renaming of the new ids |
| UploadEquivalence.NewIdsAreConsecutive | internal/infra/inmemory/memory_repository.go:26-40 | with the in-memory allocator the new ids are exactly the next n numbers, in every fault-free interleaving |
| LocalStore.LocalRepository.Save | internal/infra/local/local_repository.go:28-49 | for any reader, full disk or failing Close: the file holds the longest part of what the reader delivered that fits, less what Close loses, whatever the reply; each error is reported exactly for its cause, and nil iff the file was created, everything fitted and the reader ended in end of file; no other file changes |
| LocalStore.PayloadSplit | internal/infra/local/local_repository.go:43 | the copy loop may be cut at any read: what is delivered before and after adds up |
| LocalStore.SuccessStoresPayload | internal/infra/local/local_repository.go:35-48 | a Save that returns nil read to the end of file, and the file holds all of it iff Close kept it |
| LocalStore.LoseCloseError | internal/infra/local/local_repository.go:35-41 | a Save of one byte whose Close fails: it answers nil and the file is empty |
| LocalOverlap.ExclusiveSavesAreWhole | internal/infra/local/local_repository.go:28-49 | step by step (open, write, close), when Saves of one name do not overlap the file is always what the last of them has written |
| LocalOverlap.WholeExactlyWhenIdle | internal/infra/local/local_repository.go:28-49 | whatever has happened to the file before, a Save that begins is sure to leave the whole of what some Save wrote iff no other Save of the name is in progress at that moment |
| LocalOverlap.MixedFile | internal/infra/local/local_repository.go:29-43 | two overlapping Saves of one name that leave the shorter payload followed by the rest of the longer one |
| LocalOverlap.WriteAtIs | internal/infra/local/local_repository.go:43 | byte by byte: a write puts its chunk at its offset, keeps what is outside it, and fills a gap with zeros |
| LocalOverlap.WrittenIs | internal/infra/local/local_repository.go:28-49 | each Save has written exactly the chunks it was given, in order, and is in progress until it is closed |
| LocalUpload.DistinctNamesAreExclusive | internal/usecase/file_interactor.go:63-82 | in a run of the upload with its Saves taken apart into open, writes and close, no two Saves of a name overlap if no two goroutines have files of one name |
| LocalUpload.FilesAreTheStore | internal/usecase/file_interactor.go:82 | where Saves of a name do not overlap, such a run is, seen from outside, a run of the protocol in which a Save is one event, and every file of which no Save is in progress holds what that run's store says |
| LocalUpload.SavesCarryTheChunks | internal/usecase/file_interactor.go:82 | the Save event that such a run amounts to is said to have stored exactly the chunks its goroutine was given to write, with success iff no error ended it |
| LocalUpload.EveryRunIsLocal | internal/usecase/file_interactor.go:59-122 | every run of the protocol, with whatever its Saves left, is one of the upload over the local store |
| LocalUpload.LocalEqualsSerial | internal/usecase/file_interactor.go:59-168 | one fault-free call with distinct names over the local store leaves, however the writes interleave, exactly the files of the serial upload |
| ChunkPump.StepKeepsOk | internal/handler/grpc/file_handler.go:56-87 | every step of pump, pipe and reader keeps: bytes received are bytes read plus the rest of the chunk being written; the close reason is the first one; end of file is read only after a clean close |
| ChunkPump.ReaderHasPrefix | internal/handler/grpc/file_handler.go:66-86 | at every step the bytes read are a prefix of the chunks that the messages of the run carried, in order, short by at most the one being written; they are all of them once the reader has seen the end, and it sees an end of file only if the stream has ended, an error only if the stream has broken with it |
| ChunkPump.BrokenStreamIsSeen | internal/handler/grpc/file_handler.go:57-75 | if a Recv of the run failed, the pipe is closed with that error for good, the deferred Close notwithstanding, and the reader gets that error and not an end of file |
| ChunkPump.RunIsTrue | internal/handler/grpc/file_handler.go:66-86 | the chunks taken, the error remembered and a clean close are those of the messages of the run |
| ChunkPump.OtherMessagesIgnored | internal/handler/grpc/file_handler.go:77-85 | messages without a chunk make no difference to the state the run ends in |
| ChunkPump.WriteNeverFails | internal/handler/grpc/file_handler.go:77-84 | the branch for a failed pipe write is never taken |
| ChunkPump.StoppedPumpCanFinish | internal/handler/grpc/file_handler.go:56-87 | once the reader has stopped, the pump can finish iff it is not in a Write |
| UploadHandler.RunOk | internal/handler/grpc/file_handler.go:26-117 | every step of the composed handler, among any other uploads, keeps: what the goroutine saved is what the copy loop made of the pipe's answers |
| UploadHandler.SuccessMeansStored | internal/handler/grpc/file_handler.go:56-116 | if the handler replies success, the stream has ended and not broken, and the row is Completed with the announced name and size; and if earlier uploads of the name had their Saves behind them and none began since, the store holds all chunks that the messages carried, in order, iff the store's Close kept them |
| UploadHandler.SaveLeavesPrefix | internal/handler/grpc/file_handler.go:56-107 | whatever the reply: without a rival the name holds what it held before, until Save has created the file and ended, and then as much of the beginning of the stream as was read and fits |
| UploadHandler.ReplyIsVerdict | internal/handler/grpc/file_handler.go:97-116 | a reply comes only after the upload call has returned, and is success iff it returned nil |
| UploadHandler.CheckFirst | internal/handler/grpc/file_handler.go:35-47 | the first message is admitted iff it is metadata with a name, a tenant and a size that is not negative |
| UploadHandler.StepsAreTrue | internal/handler/grpc/file_handler.go:56-107 | the handler's pump is the pump run by the messages and reads among its steps, and its disk the one Save has met |
| UploadHandler.EveryStreamCanSucceed | internal/handler/grpc/file_handler.go:26-117 | for every list of chunks, after any earlier uploads, there is a run whose messages carry exactly them and in which the handler replies success |
| UploadHandler.ReplyIsReachable | internal/handler/grpc/file_handler.go:56-116 | from every state the handler can get to, whatever has failed, a continuation without new uploads or outside cancellations ends in a reply |
| UploadHandler.BrokenStreamNeverSucceeds | internal/handler/grpc/file_handler.go:66-116 | a run in which a Recv failed is never answered with success |
| UploadHandler.AbandonedWriteIsStuck | internal/handler/grpc/file_handler.go:77-107 | a pump in a Write when Save is over or will not be called stays there in every continuation |
| UploadHandler.AbandonedPumpCanEnd | internal/handler/grpc/file_handler.go:56-107 | once Save is out of the way the pump goroutine can end iff it is not in a Write |
| UploadHandler.PumpIsAbandoned | internal/handler/grpc/file_handler.go:56-107 | from every start there is a run that leaves the pump in a Write for good: one chunk arrives and Create fails |
| TextCleaning.StarFindsLongest | python_rag_worker/app/infra/chunker.py:22 | a greedy star that gives characters back one at a time ends before the last newline it can reach |
| TextCleaning.GreedyFindsLongest | python_rag_worker/app/infra/chunker.py:22 | the match of the backtracking engine at a position is the longest text there that starts and ends with a newline with blanks between; there is none iff no such text exists |
| TextCleaning.MatchHere | python_rag_worker/app/infra/chunker.py:22 | one try of the regex finds that longest match |
| TextCleaning.Sub | python_rag_worker/app/infra/chunker.py:22 | the leftmost scan squeezes every maximal run of blanks: what precedes its first newline and follows its last is kept, with one newline between, and everything else is kept |
| TextCleaning.CopyStep | python_rag_worker/app/infra/chunker.py:22 | where there is no match, the squeezed text keeps the character and goes on |
| TextCleaning.MatchStep | python_rag_worker/app/infra/chunker.py:22 | where there is a match, the squeezed text has one newline and goes on after the longest match |
| TextCleaning.CleanAll | python_rag_worker/app/infra/chunker.py:18-24 | after the loop every document of the list holds the cleaning of what it held before, even if the list names it more than once |
| TextCleaning.NoDoubleIsNoMatch | python_rag_worker/app/infra/chunker.py:22 | the regex matches nowhere iff any two newlines have something other than blanks between them |
| TextCleaning.CleanIsFinal | python_rag_worker/app/infra/chunker.py:20-24 | after one pass the regex matches nowhere and the text neither starts nor ends with a blank |
| TextCleaning.CleanTwice | python_rag_worker/app/infra/chunker.py:20-24 | cleaning twice is cleaning once, for every text |
| TextCleaning.CleanIsPart | python_rag_worker/app/infra/chunker.py:20-24 | the cleaned text is one piece of the rewritten one with only blanks cut off at its ends, and a text in which the regex matches nowhere is not rewritten |
| TextCleaning.CollapseKeepsTokens | python_rag_worker/app/infra/chunker.py:22 | the rewrite keeps every word and, of every gap, whether it holds a newline |
| TextCleaning.CleanKeepsText | python_rag_worker/app/infra/chunker.py:20-24 | cleaning keeps the sequence of words, and an inner gap holds a newline iff it did before; only the outer gaps go |
| MetadataQuery.Repository.Create | internal/infra/sql/metadata_ops.go:13-41 | a fresh id, one new row with the record's fields and the time of the call, id and creation time written into the record on success only; on a lost reply the row exists and the record knows nothing of it |
| MetadataQuery.Repository.SaveMetadata | internal/infra/sql/metadata_ops.go:46-89 | saving any record, saved before or not, adds a row under a fresh id and changes no other: the conflict clause never fires |
| MetadataQuery.Repository.UpdateStatus | internal/infra/sql/metadata_ops.go:92-105 | exactly the row of that id gets the status and a new update time; a missing id is no error |
| MetadataQuery.Repository.BuildQuery | internal/infra/sql/metadata_ops.go:116-134 | placeholders are $1 to $n, each once, n arguments; evaluating the statement with them answers the search on every table scan |
| MetadataQuery.QueryPlaceholders | internal/infra/sql/metadata_ops.go:121-134 | with or without tags the placeholders are 1 to n in order, n the number of arguments |
| MetadataQuery.QueryMeaning | internal/infra/sql/metadata_ops.go:116-134 | the statement with its arguments is the limit and offset window of the arranged matches, or an error of the server for a negative limit or offset |
| MetadataQuery.ArrangedIsArrangement | internal/infra/sql/metadata_ops.go:125-133 | for every scan order the rows arranged are exactly those holding all requested tags, each once, newest first |
| MetadataQuery.Repository.FindAll | internal/infra/sql/metadata_ops.go:109-165 | an error iff there is no connection, the query is refused, the server rejects it in time, or a row of the page cannot be scanned before the connection breaks; otherwise row i of the list is row offset + i of the arranged matches, and the list is short of the page only where the connection broke |
| MetadataQuery.ListCutShort | internal/infra/sql/metadata_ops.go:146-164 | a table of one row, a search that matches it and a connection that breaks before it: an empty list and no error |
| MetadataQuery.FetchMetadataList | internal/usecase/file_interactor.go:126-154 | the same for the limit clamped to 100 from above and replaced by 10 when not positive; at most 100 rows for any requested limit |
| MetadataQuery.PagesArePrefix | internal/usecase/file_interactor.go:126-154 | the first n windows at 0, L, 2L, ... are the first n times L rows, without gap or repeat |
| MetadataQuery.PagesCoverTheSearch | internal/usecase/file_interactor.go:126-154 | with the clamped limit, enough pages of a fixed table give every matching row exactly once, newest first |
| InMemoryRepository.Repository.Create | internal/infra/inmemory/memory_repository.go:26-40 | the object itself is stored under the next id; the ids stay 1 to nextID with each object carrying its own, iff the object was not stored before; then the stored objects are the old ones and this one |
| InMemoryRepository.CreateAll | internal/infra/inmemory/memory_repository.go:26-40 | after Creates of any list of distinct new objects the repository is consistent, holds the old objects and then these in order, and every old object is under its old id |
| InMemoryRepository.StoreAndFind | internal/infra/inmemory/memory_repository.go:26-63 | distinct objects stored in a new repository are found under 1 to n, nothing under any other id; the same object is found after more are stored; FindAll lists each of them once and nothing else |
| InMemoryRepository.UpdateIsForgotten | internal/infra/inmemory/memory_repository.go:55-63 | an update that reports success leaves the record found under that id as it was stored |
| InMemoryRepository.Repository.FindAll | internal/infra/inmemory/memory_repository.go:47-53 | in whatever order the map is ranged over, every stored object is listed, and in a consistent repository none twice |
| InMemoryRepository.StoreTwice | internal/infra/inmemory/memory_repository.go:26-40 | one object stored twice: both ids lead to it and it shows the second |
| UuidText.ToHexLength | internal/handler/http/file_handler.go:67 | a number has at most k hex digits iff it is below 16 to the k |
| UuidText.TwelveDigits | internal/handler/http/file_handler.go:67 | padded to twelve digits the text denotes the number, and twelve digits suffice iff it is below 2 to the 48 |
| UuidText.IdTextParses | internal/handler/http/file_handler.go:67-68 | the printed text is a UUID (section 4 of RFC 9562) iff 0 <= id < 2^48, and then its low 48 bits are id and the others zero |
| UuidText.UuidOfId | internal/handler/http/file_handler.go:67-69 | every other id, negative ones included, comes out as the zero UUID |
| UuidText.SameUuid | internal/handler/http/file_handler.go:67-69 | two int64 ids share a UUID iff they are equal or neither is in 1 .. 2^48 - 1 |
| FileListing.ListFiles | internal/handler/http/file_handler.go:32-87 | an error iff the search failed; otherwise element i shows row i of the newest matches, every one with all requested tags, at most 100 and twenty unless a limit is given, short only where the rows end or the connection broke |
| PubSub.HandleMessageCore | python_rag_worker/app/api/pubsub_handler.py:56-107 | success iff the payload is an object with a file name that is a string and not empty and a tenant that is truthy, and the pipeline returned success; a cancellation passes through iff such a payload's pipeline is cancelled; everything else is a failure |
| PubSub.ProcessMessage | python_rag_worker/app/api/pubsub_handler.py:25-54 | one acknowledge after success, one give-back after failure, none otherwise; and exactly when an exception or a cancellation, of the pipeline or of the request itself, gets out |
| PubSub.SafeProcess | python_rag_worker/app/api/pubsub_server.py:161-187 | the handler's request, if any, then one acknowledge; no exception gets out, and a cancellation exactly when the handler or the last request was cancelled |
| PubSub.ServerManager.Start | python_rag_worker/app/api/pubsub_server.py:58-109 | succeeds iff a look-up succeeds after none but NotFound answers; two loops have been scheduled then, one if it raises, and the first may have failed meanwhile |
| PubSub.ServerManager.Stop | python_rag_worker/app/api/pubsub_server.py:189-197 | only the remembered loop is cancelled, and nothing happens if it has ended |
| PubSub.ServerManager.SubscribeLoop | python_rag_worker/app/api/pubsub_server.py:137-154 | for every response taken before the stop or a failure of the stream, one task per message, each at its place in the order |
| PubSub.TasksAreDeliveries | python_rag_worker/app/api/pubsub_server.py:142-154 | the messages a loop makes tasks for are deliveries the broker can make, each adding one running task |
| PubSub.StartThenStop | python_rag_worker/app/api/pubsub_server.py:58-197 | for every course of the look-ups and failure of the loops: after a successful start stop cancels only the last loop, and nothing if that one has failed; the first stays scheduled unless it has failed |
| PubSub.StepKeepsInv | python_rag_worker/app/api/pubsub_handler.py:40-54 | over overlapping deliveries: each task's requests so far are the ones its stage implies, and a message is gone iff an applied acknowledge of one of its deliveries is in the log |
| PubSub.WhenAMessageLeaves | python_rag_worker/app/api/pubsub_server.py:161-187 | over all redeliveries a message has left the broker iff some delivery acknowledged it after a successful pipeline run, or finished in the server's finally block, and the request took effect |
| PubSub.HandlerAloneLosesNothing | python_rag_worker/app/api/pubsub_handler.py:40-54 | with the handler alone a message has left the broker iff a handled delivery of it had an accepted payload, a successful pipeline run and an acknowledge that took effect |
| PubSub.EachDeliveryOnce | python_rag_worker/app/api/pubsub_handler.py:40-107 | each handled delivery acknowledges iff the pipeline succeeded, gives back iff the payload is bad or the pipeline raises or does not succeed, and asks nothing if the prologue raises or the pipeline is cancelled; in the server one more acknowledge follows |
| PubSub.ServerLosesFailedMessage | python_rag_worker/app/api/pubsub_server.py:173-180 | a concrete delivery whose pipeline fails: given back, then acknowledged, and gone |

## Left out

- A missing metadata repository: the rollback at internal/usecase/file_interactor.go:85 uses it unconditionally, so the model assumes there is one.
- UploadEquivalence.ParallelIsSerializable: for repeated names it is about a store that replaces whole objects, as cloud storage does; what overlapping local Saves leave is modelled apart, in `LocalOverlap` and `LocalUpload`.
- UploadGuarantees.SavedFileIsStored: likewise takes each Save as one write of a whole object.
- File names are compared as they are; two names that the local store's path joining maps to one path are not told apart from distinct files.
- LocalUpload.FilesAreTheStore: a Close keeps what was written; what a failing Close loses is in `LocalStore`.
- Each file has its own reader; two files that share one reader are not modelled.
- UploadHandler.SuccessMeansStored: says nothing about the stored bytes when an earlier upload of the name was still before the end of its Save, or another began, since local Saves of one name can then mix.
- MetadataQuery.Repository.FindAll: returns entries as values; the fresh record objects of the source are not modelled, and the tenant has no column.
- SQL is modelled by the meaning of its clauses, not by its text; PostgreSQL internals, indexes, migrations, isolation of concurrent statements are not part of this model.
- TextCleaning.CleanAll: the characters that `\s` and `strip` remove are one parameter that contains the newline; the library splitter that follows is not modelled.
- UuidText.UuidOfId: the parser is modelled for the lengths the printed text can have; google/uuid and fmt are not part of this model.
- InMemoryRepository.Repository.Create: the lock is modelled by whole methods as steps; the unlocked iteration of `FindAll` beside other calls, and overflow of the int64 counter, are not.
- PubSub.ServerManager.LoopEnds: a loop that ends also closes the client it shares with the other loop; what the other loop then meets is only its own possible failure.
- PubSub.ServerManager.SubscribeLoop: when the stop is seen and when the stream fails are parameters; the request generator, the waits and the time limits are not modelled.
- Clocks, ids, faults and cancellations are parameters of events or methods.
- Fairness: the model says a call's goroutines always have a step left until it returns and can take only boundedly many; that a repository answers at all is the environment's part.
- Cloud storage, the notifiers, routing, configuration, logging, trace ids and status conversions: calls that succeed or fail, or one-branch facts.
- `UploadSingle`, which never advances a status, `UploadMultipleSerial`'s tenant argument, which it ignores, and HTTP paging, which always starts at offset 0.
- `Delete`: nothing calls it.
