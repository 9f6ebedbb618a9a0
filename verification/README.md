# A verified model of qptools

qptools is a 9P2000 client and file server. This project models the parts of it that hold state,
and proves what they promise in every run:

| module | models |
|---|---|
| `ServerTags`, `FlushPromise`, `RequestTable` | the server's pending requests: register, respond, flush, version |
| `ClientTransport` | the client's tag allocator and response channels |
| `EndToEnd`, `DitchSafety` | client, two FIFO wires and server together; when Ditch is safe |
| `FidTable`, `FidServer` | the server's fid table and the handles in it |
| `FidAgreement` | the client's fid pool against the server's fid table |
| `Walking` | `FilePath` and `walkTo` |
| `PathCleaning` | the command line client's `parsepath` |
| `Permissions`, `SetStat` | permission checks; `setStat` with its rollback |
| `TreeShape`, `Synthetic` | the in-memory tree, as a store over whole runs and as objects |
| `MixDir` | union directories |
| `Buffers` | file content in a slice, and reading a whole file |
| `StatCodec`, `Listing` | the stat layout of stat(5), directory reads and their parser |
| `Broadcast` | the fan-out queue |

Where the program changes state in place there is a class, or a method with the program's loop, and
its contract ties every call to a function on plain values. What is promised over whole runs is
proved about those functions. Where goroutines overlap, the values form a transition system with one
step per critical section, and a run is any sequence of enabled steps: `ServerTags` (one step per
stretch under `tagLock`), `ClientTransport` (one per stretch under `queueLock`), `FidTable` (requests
split where they give up one lock before they take the next), `FidAgreement` and `Broadcast`.
Clocks, the network and the answers of arbitrary trees are parameters or choices of the run.

## What the code does against what is asked of it

* `version` replaces the tag map and leaves the requests in it uncancelled. The table is exact right
  after that, being empty; it stays exact, in every run whose later resets are harmless, if and only if
  no handler that can still respond under a tag is in flight (`ServerTags.ResetStaysExactIff`). Just then
  flush(5) is kept as well: otherwise a handler deletes a later request's entry in some run, and that
  request is answered after the Rflush that was to silence it (`FlushPromise.ResetStaysSilentIff`;
  `ServerTags.ResetInFlightBreaksFlush` is such a run from the beginning).
* A response that is too big is replaced by nothing at all: the request is never answered, and its tag
  stays registered (`FlushPromise.OversizeNeverAnswered`).
* A Tflush sent under the very tag that it names cancels itself and is not answered
  (`FlushPromise.FlushAnsweredIff`).
* stat(5) wants a failing wstat to change nothing. `SetStat.FailureIsUndoneIff` gives the exact
  condition, `SetStat.ReadOnlyStays` an input on which it fails, `SetStat.NilParentIff` when a file
  without a parent crashes the rollback, and `SetStat.RootTruncationCrashes` an input on which it does.
* A rename in a wstat goes by name: for a fid whose file has left its parent, it renames whatever has
  taken the name (`SetStat.RenamesItselfIff`).
* Two things let client and server disagree about fids: an `attach` that installs the fid and then
  fails on the root's Qid, and a call for a new fid that is flushed and ditched, whose caller frees
  the fid although the server has installed it or will, or another call holds it.
  `FidAgreement.DivergesIff` says exactly which steps do harm.
* A clunk between the two halves of an open loses the handle for good: `FidTable.LeaksIff` names all
  steps that lose a handle, `FidTable.ClunkDuringOpenLeaks` is such a run.
* A walk from a fid to itself dereferences nil, with fidLock held for good, when a clunk, remove or
  cleanup has taken the fid away since the walk began (`FidTable.MissingAfterRemoval`,
  `FidTable.JammedForever`, `FidTable.ClunkDuringWalkJams`).
* `remove` deletes by name. On a fid whose file has left its parent it deletes whatever has taken the
  name (`TreeShape.RemoveHitsAnotherIff`). On a fid whose file is still there it deletes another file
  only for a directory created under the empty name, which calls itself "/"
  (`TreeShape.RemoveTakes`, `TreeShape.RemoveDeletesItIff`, `TreeShape.NamelessRemove`).
* `Open` tests OWRITE as a bit, so OTRUNC truncates for OWRITE and OEXEC and not for ORDWR, and with
  OEXEC it empties the file for a user without write permission, against open(5)
  (`Buffers.TruncationNeedsWriteIff`).
* `rmFid` answers ErrNoSuchFid whether the fid was there or not.
* Cleaning a path lexically keeps every walk that completes, but may also make one complete that
  would not (`PathCleaning.RawCompletesIff`, `PathCleaning.CleanMayComplete`).
* `Ditch` does not check that the request is dead. `DitchSafety.DitchSafeIff` says exactly when it does
  no harm later on, and `DitchSafety.DitchedTooEarly` is a run in which it makes a response answer the
  wrong request.

## Model

| member | source | states |
|---|---|---|
| ServerTags.NegotiatedIs | fileserver/fileserver.go:340-348 | The size is the lesser of asked and suggested; version refuses just a size below the minimum that is not above the suggestion |
| ServerTags.ArrivalDoes | fileserver/fileserver.go:1072-1111 | What a message does first: a Tversion under NOTAG with an acceptable size resets, a Tflush drops its old tag, all others respond; only those with a goroutine leave the server loop free |
| ServerTags.CollisionDoesNothingElse | fileserver/fileserver.go:236-244 | A request on an occupied tag takes the entry over and can only respond; all other requests, entries and messages stay as they are |
| ServerTags.SafeStep | fileserver/fileserver.go:231-323 | In every state any client can bring about, an entry of fs.tags is a live, unanswered request under its own tag, and each response belongs to one request with that tag |
| ServerTags.ExactStep | fileserver/fileserver.go:231-323 | Every critical section keeps the table exact: the registered, uncancelled, unanswered requests and no others, under their own tags |
| ServerTags.ExactRun | fileserver/fileserver.go:283-323 | The table is exact after any interleaving in which no Version resets it while a handler can still respond |
| ServerTags.ResetStaysExactIff | fileserver/fileserver.go:365-368 | After a Version reset the table is exact, and it stays so in every run with quiet resets if and only if no handler that can still respond under a tag was in flight |
| ServerTags.StaleDelete | fileserver/fileserver.go:304-318 | From any reset with such a handler in flight: Rversion is sent, a request takes the tag, the old handler responds, and its delete takes away the new request's entry |
| ServerTags.RespondRemovesOwnEntry | fileserver/fileserver.go:304-318 | The delete in respond removes the responder's own entry and no other, in every run with quiet resets |
| ServerTags.OneReplyEach | fileserver/fileserver.go:308-318 | No request is answered twice |
| ServerTags.LaterRun | fileserver/fileserver.go:231-323 | Over any run `cancelled` never reverts, a cancelled request gains no response, no request changes its tag, and nothing written is taken back |
| ServerTags.CancelledForever | fileserver/fileserver.go:308-318 | A request cancelled before it was answered is never answered, whatever happens later |
| ServerTags.FlushedNeverAnswered | fileserver/fileserver.go:524-535 | flush(5), any client and any tag reuse: the request that a Tflush finds under its old tag is cancelled and never answered |
| ServerTags.DisplacedNeverAnswered | fileserver/fileserver.go:236-244 | A request displaced by a newcomer on its tag is flushed: cancelled and never answered |
| ServerTags.FencedRun | fileserver/fileserver.go:304-318 | Once a Tflush has had its turn, every earlier request under the old tag is cancelled, or was answered before the Rflush |
| ServerTags.NothingAfterRflush | fileserver/fileserver.go:524-535 | After the Rflush no response to any earlier request on the old tag is written |
| ServerTags.ResetInFlightBreaksFlush | fileserver/fileserver.go:365-368 | A concrete run with a reset while a handler is in flight, after which an answer follows the Rflush that should have prevented it |
| ServerTags.SizesKept | fileserver/fileserver.go:263-266 | Between resets the message size is constant and no longer message is written |
| ServerTags.NegotiatedSizeRespected | fileserver/fileserver.go:340-374 | After a successful Version the size is at most what the client asked for and what the server suggests, below the minimum only if the suggestion is, and every message fits it |
| FlushPromise.FencedIsSilent | fileserver/fileserver.go:524-535 | In a fenced state no response written after an Rflush answers an earlier request on the flushed tag |
| FlushPromise.ResetStaysSilentIff | fileserver/fileserver.go:365-368 | After a Version reset the promise of flush(5) stands in every run with quiet resets if and only if no handler that can still respond under a tag was in flight |
| FlushPromise.StaleAnswer | fileserver/fileserver.go:304-318 | From any reset with such a handler in flight, a run ends with an answer after its Rflush |
| FlushPromise.DoneUnanswered | fileserver/fileserver.go:283-323 | In every run, a request whose handler is done without a response is never answered |
| FlushPromise.AnsweredIff | fileserver/fileserver.go:283-323 | respond answers its request if and only if the message fits and the request has not been cancelled; if it does not fit, the table is as before |
| FlushPromise.OversizeNeverAnswered | fileserver/fileserver.go:287-297 | A request whose response is too big is never answered in any run, and its tag stays in use |
| FlushPromise.FlushAnsweredIff | fileserver/fileserver.go:524-535 | The respond of a Tflush answers it if and only if it does not name the tag it was sent under |
| RequestTable.FileServer.Begin | fileserver/fileserver.go:1072-1073 | A message gets a fresh, uncancelled requestState with its tag |
| RequestTable.FileServer.Register | fileserver/fileserver.go:231-248 | The real map and flags move as `ServerTags.Registered` says: NOTAG is not registered, a collision is reported, and with overwriting the old request is cancelled and replaced |
| RequestTable.FileServer.Flush | fileserver/fileserver.go:526-531 | The request under the old tag, if any, is cancelled and leaves the map; nothing else changes |
| RequestTable.FileServer.Respond | fileserver/fileserver.go:283-323 | A response that fits and is not cancelled goes out on the connection once and its tag is freed; an oversize one changes nothing, and its tag stays registered |
| RequestTable.FileServer.Version | fileserver/fileserver.go:332-374 | A tag other than NOTAG, or too small a size, is refused without effect; otherwise the tag map is emptied, no request is cancelled, and the size is the lesser of asked and suggested |
| ClientTransport.AllocatedDisciplined | client/transport.go:139-142 | Allocating a tag keeps every queued channel open, empty and under its own tag |
| ClientTransport.FinishedDisciplined | client/transport.go:85-110 | The channel that a delivery picks is open and empty, so the send under queueLock neither blocks nor panics, and afterwards it has carried exactly one message and is closed |
| ClientTransport.DistinctTagsDistinctChannels | client/transport.go:139-158 | Channels queued under different tags are different |
| ClientTransport.FreeTagIff | client/transport.go:118-127 | Pigeonhole: a tag in 0..0xFFFE is free just when fewer than 0xFFFF are in use, or 0xFFFF with NOTAG among them |
| ClientTransport.TurnsCount | client/transport.go:132-137 | A round over the ordinary tags visits them one after the other, none twice |
| ClientTransport.Transport.Scan | client/transport.go:129-143 | The circular search finds the first free tag from nextTag on, if there is one at all |
| ClientTransport.Transport.Tag | client/transport.go:112-146 | Tag succeeds if and only if some tag in 0..0xFFFE is free, returns the next free one in turn, never NOTAG, and never fails with ErrUnexpectedTagPoolDepleted |
| ClientTransport.Transport.TakeTag | client/transport.go:150-160 | TakeTag succeeds just when the tag is free, and then queues a fresh channel under it |
| ClientTransport.Transport.Received | client/transport.go:98-110 | A response is put, alone, on the channel queued under its tag, which is closed and forgotten; an unknown tag is an error without effect |
| ClientTransport.Transport.Ditch | client/transport.go:85-96 | Ditch puts a nil, alone, on the channel, and closes and forgets it; an unknown tag is an error without effect |
| ClientTransport.Transport.Await | client/transport.go:175 | The sender gets what was put on its channel, and waits as long as nothing was |
| EndToEnd.NeverInUse | fileserver/fileserver.go:236-244 | With well-behaved use of tags the server never takes its TagInUse branch |
| EndToEnd.ResponseFindsItsChannel | client/transport.go:98-110 | The response at the head of the wire finds the channel its request was sent on |
| EndToEnd.StepKeeps | client/transport.go:85-176 | Every step of client, wires and server keeps the joint invariant |
| EndToEnd.EndToEndMatching | client/transport.go:85-176 | In every interleaving, the response put on a channel answers the request sent on that channel, no tag collides at the server, no response is unknown to the client, and each channel carries at most one message |
| EndToEnd.InFlightIsQueued | client/transport.go:163-176 | A request on the wire, pending, or answered but unread keeps its own channel queued under its tag |
| EndToEnd.NotRevived | fileserver/fileserver.go:283-323 | Once nothing of a request is left in flight, no step brings anything back |
| EndToEnd.DitchKeeps | client/transport.go:85-96 | Ditching a tag on which nothing was sent, or whose request has nothing in flight, keeps the joint invariant |
| DitchSafety.DitchSafeIff | client/transport.go:178-183 | In every reachable state, ditching a tag keeps the end-to-end guarantees in all continuations if and only if nothing was sent on it, or nothing of what was sent is in flight |
| DitchSafety.Threatened | client/transport.go:178-183 | Any request that is live when its tag is ditched leads, in some continuation, to an unknown tag, a collision or a mismatch |
| DitchSafety.DitchedTooEarly | client/transport.go:85-110 | A concrete run in which a tag is ditched and taken again, and the new request gets the old response |
| FidTable.StepOwned | fileserver/fileserver.go:409-426 | Every critical section keeps ownership: a handle is open in the one fidState it was opened into, or has left it and been closed once |
| FidTable.HandleLife | fileserver/fileserver.go:936-955 | In every interleaving a handle is in at most one fidState, is closed at most once, and is unclosed exactly while some fidState holds it |
| FidTable.Installs | fileserver/fileserver.go:397-713 | auth, attach and the end of a walk put one fid in the table, with the location and the handle it should have, and leave the others as they are |
| FidTable.LeaksIff | fileserver/fileserver.go:715-767 | The steps that leave an open handle outside the table are exactly an open or create finishing after its fid is gone, and a cleanup that an open has overtaken |
| FidTable.LostForever | fileserver/fileserver.go:169-183 | A handle whose fidState has left the table is never closed by anything later |
| FidTable.CleanupClosesAll | fileserver/fileserver.go:169-183 | When every open handle is in the table, cleanup closes all of them, once, and empties the table |
| FidTable.SerialStep | fileserver/fileserver.go:653-772 | With one request at a time, every step keeps all open handles in the table |
| FidTable.SerialHandles | fileserver/fileserver.go:653-981 | With one request at a time, the handles opened and not closed are exactly those in fs.fids, none is left when the table is empty, and no walk meets a missing fid |
| FidTable.ClunkDuringOpenLeaks | fileserver/fileserver.go:715-772 | A concrete run in which a clunk comes between the two halves of an open and the handle is lost |
| FidTable.WalkGoesOnIff | fileserver/fileserver.go:555-572 | A walk comes to install a fid if and only if the old fid has a location and no handle and the names could be walked |
| FidTable.GoneIff | fileserver/fileserver.go:936-981 | A step takes a fid out of the table if and only if it is a clunk or remove of it, or the end of a cleanup |
| FidTable.MissingAfterRemoval | fileserver/fileserver.go:681-707 | When a walk comes to replace a fid that was there and finds it missing, a clunk, remove or cleanup came in between |
| FidTable.JammedForever | fileserver/fileserver.go:692-698 | After a walk has dereferenced nil the table never changes again, and no handle in it is ever closed |
| FidTable.ClunkDuringWalkJams | fileserver/fileserver.go:692-698 | A concrete run: a clunk between the two halves of a walk from a fid to itself |
| FidServer.FileServer.Auth | fileserver/fileserver.go:397-438 | auth refuses NOFID and a fid in use, and otherwise installs a fid without a location that owns the new handle it opened |
| FidServer.FileServer.Attach | fileserver/fileserver.go:440-522 | attach installs a fid at the root exactly when the fid is new and not NOFID, the service has a root, and the afid is an open, authenticated one if there is an AuthFile and NOFID if there is none; a failing Qid leaves it installed |
| FidServer.FileServer.Open | fileserver/fileserver.go:715-772 | open stores a new handle, and leaves the location alone, exactly when the fid is known, has a location and no handle, a directory is not opened for writing, and the file's answers allow it |
| FidServer.FileServer.Create | fileserver/fileserver.go:774-843 | create moves the fid from the directory to the new file, with a new handle, exactly when the fid is known, unopened and at a directory, the name is not "." or "..", and all answers allow it |
| FidServer.FileServer.Walk | fileserver/fileserver.go:653-713 | walk installs the new fid at the location that walkTo reached, unopened, also in place of the old one; it refuses NOFID, an unknown or open old fid and a new fid in use |
| FidServer.FileServer.Clunk | fileserver/fileserver.go:936-960 | clunk takes the fid out of the table and closes its handle, if any, once |
| FidServer.FileServer.Cleanup | fileserver/fileserver.go:169-183 | The loop over the fids closes exactly the handles in the table and then empties it |
| FidAgreement.Client.GetFid | client/client.go:59-80 | getFid returns the least free fid, never NOFID, and fails only when every fid is taken |
| FidAgreement.Client.RmFid | client/client.go:83-91 | rmFid frees the fid and no other, and answers ErrNoSuchFid in any case |
| FidAgreement.StepKeeps | client/client.go:264-352 | Every step of overlapping calls but the harmful ones keeps the server's fids within the client's |
| FidAgreement.DivergesIff | client/client.go:264-352 | While all is well, a step leads to disagreement, at once or in a continuation that does no further harm, if and only if it is an attach failing on its Qid, or gives up on a call for a new fid that is undecided, installed, or held by another call |
| FidAgreement.ServerSteps | fileserver/fileserver.go:397-713 | What the agreement's machine takes auth, attach, walk, clunk and remove to do to the server's fids is what the fid table's functions do |
| FidAgreement.FidsAgree | client/client.go:264-352 | In every run without such steps the server's fids are a subset of the client's, a fid from getFid is absent from the server until the request is decided, and none is refused as in use |
| FidAgreement.QidFailure | fileserver/fileserver.go:507-516 | After an attach that failed on its Qid, for whatever fid, the server has the fid and the client thinks it is free |
| FidAgreement.RefusedNext | fileserver/fileserver.go:450-453 | The next call that takes such a fid is refused as in use |
| FidAgreement.GivenUp | client/client.go:101-123 | Giving up on a harmful call leads to disagreement: the server installs the fid after it was freed, has it already, or another call frees it under its next owner |
| FidAgreement.FlushedWalkDisagrees | client/client.go:276-295 | A concrete run: a Twalk is flushed and ditched before the server installs the fid |
| Walking.WalkConcat | fileserver/fileserver.go:574-635 | Walking a ++ b is walking a and then b: same completion, same location, the qids one after the other |
| Walking.QidCount | fileserver/fileserver.go:637-643 | A complete walk yields one qid per name, a stopped one fewer |
| Walking.WalkGrounded | fileserver/fileserver.go:574-627 | A walk never leaves its attach root, and every file above it was entered from the one below |
| Walking.NameLeads | fileserver/fileserver.go:606-634 | A name leads from a directory to the file that its Walk answers with, or that the arrival there diverts to, with that file's qid; a failing Qid ends the walk in an error |
| Walking.DotsLead | fileserver/fileserver.go:578-588 | "." stays, ".." goes one down and stays at the root, with the qid of the file there |
| Walking.NameFails | fileserver/fileserver.go:594-618 | Each way in which a name leads nowhere, with its error |
| Walking.FilePath.Parent | fileserver/utils.go:24-31 | Parent is the file that ".." leads to, the root being its own parent |
| Walking.FilePath.Clone | fileserver/utils.go:34-40 | Clone copies the location into memory of its own |
| Walking.FilePath.Append | fileserver/fileserver.go:625-627 | Appending extends the location, in place while the array has room and in a new array otherwise |
| Walking.StepFrom | fileserver/fileserver.go:574-635 | The loop body on the shared slice takes the step of the fold, and the file that is carried along stays the top of the location |
| Walking.WalkTo | fileserver/fileserver.go:542-651 | walkTo computes the fold on the old location and modifies nothing that existed, in particular not the old location; the result is a new state with all qids, no state with fewer and at least one, or an error |
| PathCleaning.CleanIsClean | cmd/9pc/main.go:70-83 | A cleaned path has no "." or empty component, and ".." only as a prefix |
| PathCleaning.CleanIdempotent | cmd/9pc/main.go:70-83 | Cleaning twice is cleaning once |
| PathCleaning.CleanPreservesWalk | cmd/9pc/main.go:70-83 | If the server can walk the raw components to the end, it can walk the cleaned ones, and ends on the same location stack |
| PathCleaning.RawCompletesIff | cmd/9pc/main.go:70-83 | The raw components can be walked to the end if and only if the cleaned ones can and each component that cleaning loses can be taken from where the cleaned ones before it lead |
| PathCleaning.CleanMayComplete | cmd/9pc/main.go:70-83 | Two ways to lose a failure: a removed name that does not exist, and a "." where the Qid cannot be had |
| PathCleaning.SplitPieces | cmd/9pc/main.go:68-69 | Splitting cuts at the slashes and nowhere else, and joining undoes it |
| PathCleaning.ParsePath | cmd/9pc/main.go:64-85 | parsepath's loop computes the cleaned components, and reports whether the path is absolute |
| PathCleaning.ParseAgain | cmd/9pc/main.go:64-85 | Parsing a cleaned path that was joined again changes nothing |
| Permissions.MayWriteIsPermCheck | fileserver/trees/utils.go:134-155 | The write permission used throughout is PermCheck for OWRITE: the owner's bit for the owner, the world's for anyone else |
| Permissions.OfWordInjective | fileserver/utils.go:83-85 | Taking a mode word apart loses nothing, so comparing modes is comparing words |
| Permissions.AccessOnBytes | fileserver/trees/utils.go:143 | The access of an open mode is the two low bits of its byte |
| Permissions.OwriteOnBytes | fileserver/trees/syntheticfile.go:235 | The test for OWRITE is one of the lowest bit |
| Permissions.OtruncOnBytes | fileserver/trees/syntheticfile.go:235 | The test for OTRUNC is one of its bit |
| Permissions.AppendOnlyOnWords | fileserver/trees/syntheticfile.go:245 | A file is append-only by its DMAPPEND bit |
| Permissions.PermCheckOnWords | fileserver/trees/utils.go:134-155 | The check on the parts of a mode is the program's test of one or two bits at an offset |
| Permissions.DirOnWords | fileserver/utils.go:92 | On words, setting DMDIR and merging a new mode with the old DMDIR are what they are on the parts |
| Permissions.NoModeOnWords | fileserver/utils.go:83 | The value that leaves the mode alone is the word of all ones |
| Permissions.LimitedOnWords | fileserver/trees/syntheticdir.go:230 | The mask expression with 0777 limits every right by the directory's and changes no other bit |
| Permissions.LimitedReadWriteOnWords | fileserver/trees/syntheticdir.go:233 | The mask expression with 0666 limits reading and writing and changes no other bit |
| SetStat.FailureIsUndoneIff | fileserver/utils.go:42-118 | A refused wstat of a file in its parent leaves everything as it was if and only if a condition on the file and the request holds that can be told before the call |
| SetStat.AllOrNothing | fileserver/utils.go:91-116 | stat(5): a wstat that leaves the UID alone, keeps owner-write and does not replace an empty GID changes all or nothing |
| SetStat.SuccessIsComplete | fileserver/utils.go:91-117 | A wstat that succeeds has made every requested change and no other: kind, MUID and the parent's owner and mode are as before, and so is DMDIR |
| SetStat.SucceedsIff | fileserver/utils.go:42-117 | A wstat of a file in its parent succeeds if and only if nothing unchangeable is changed, the length is not extended, faked or a directory's, and the owner, the writers of the file and of the parent may make the changes, with the permissions as they are by then |
| SetStat.RequestedIsDone | fileserver/utils.go:91-117 | After a success each field is what the request says, or as before where it says to leave it alone; the mode but for its directory bit |
| SetStat.NewModeOnWords | fileserver/utils.go:92 | The new mode is the program's expression on words |
| SetStat.StatOnWords | fileserver/trees/syntheticdir.go:108-122 | What stat shows: the permissions, with DMDIR for a directory, and the length of the content unless it is faked |
| SetStat.NilParentIff | fileserver/utils.go:109-115 | On a file without a parent the rollback goes through nil exactly when nothing before the truncation is refused, and a fake length or the earlier changes make the truncation fail |
| SetStat.RootTruncationCrashes | fileserver/utils.go:109-115 | An input for it: the owner of a root file takes the write permission away and shortens the file |
| SetStat.RenamesItselfIff | fileserver/utils.go:102-107 | A successful rename gives the request's file its new name if and only if that file stands under its old name in the parent; otherwise the file there gets it |
| SetStat.ReadOnlyStays | fileserver/utils.go:102-107 | Taking owner-write away together with a rename to a taken name leaves the file read-only |
| SetStat.RenameBack | fileserver/utils.go:102-115 | Renaming there and back restores the parent's tree |
| TreeShape.CreatedPermLimited | fileserver/trees/syntheticdir.go:215-243 | open(5): a new directory passes no check that its parent or the requested mode would not, a new file no check for reading or writing |
| TreeShape.CreatedPermOnWords | fileserver/trees/syntheticdir.go:228-234 | The permissions of a new file are the program's mask expressions on words |
| TreeShape.CanRemoveIff | fileserver/trees/syntheticdir.go:200-202 | A file may always be removed, and a directory if and only if nothing is inside it |
| TreeShape.CreateMakes | fileserver/trees/syntheticdir.go:215-243 | Create adds one file with the next ID under the name; a directory is empty, owned as its parent is, with limited permissions |
| TreeShape.RightsDecide | fileserver/trees/syntheticdir.go:73-105 | Whether a user may create in a directory is decided by the owner and mode it was last given |
| TreeShape.StepKeeps | fileserver/trees/syntheticdir.go:215-319 | Create, Rename and Remove keep: each key is its file's name, and leads to a younger file created in that directory |
| TreeShape.Shape | fileserver/trees/syntheticdir.go:215-319 | After any run from one root: key equals name, each file is in at most one entry, a child's ID lies between its directory's and the counter |
| TreeShape.NoCycles | fileserver/trees/utils.go:23-29 | No chain of entries leads from a directory back to itself |
| TreeShape.RemoveTakes | fileserver/fileserver.go:990-998 | On a file still in its parent, remove takes away that file, or nothing, as the permissions say; only for a directory under the empty name it takes away the entry "/" instead; nothing else changes |
| TreeShape.RemoveDeletesItIff | fileserver/trees/syntheticdir.go:32-39 | When parent and file permit it, a file still in its parent goes if and only if it is not a directory under the empty name |
| TreeShape.NamelessRemove | fileserver/fileserver.go:793-796 | A concrete run: a directory "" and a file "/" are created, and removing the directory deletes the file |
| TreeShape.RemoveHitsAnotherIff | fileserver/fileserver.go:990-998 | On a file that has left its parent, remove takes away exactly the other file that now has its name, if that may be removed, keeps all the rest, and else does nothing |
| TreeShape.StaleRemove | fileserver/fileserver.go:990-998 | A concrete run: create, remove and create again under one name, after which a remove through the first fid deletes the second file |
| Synthetic.SyntheticFile.SetMode | fileserver/trees/syntheticfile.go:175-187 | Only the owner, with write permission, changes the mode |
| Synthetic.SyntheticFile.SetOwner | fileserver/trees/syntheticfile.go:154-172 | A writer changes the UID and GID that are given and no others |
| Synthetic.SyntheticFile.SetLength | fileserver/trees/syntheticfile.go:121-138 | A writer cuts the content to a prefix; it is never extended, nor cut under a fake length |
| Synthetic.SyntheticDir.SetMode | fileserver/trees/syntheticdir.go:93-105 | As for a file, with DMDIR kept |
| Synthetic.SyntheticDir.SetOwner | fileserver/trees/syntheticdir.go:73-90 | As for a file |
| Synthetic.SyntheticDir.WalkAgreesWithList | fileserver/trees/syntheticdir.go:322-337 | Walk finds a file under a key exactly when List has an entry for it, which then is the only one and that file's stat |
| Synthetic.SyntheticDir.Create | fileserver/trees/syntheticdir.go:215-243 | A writer creates a file or directory under a free name, with the next ID, the directory's owner and group, and limited permissions |
| Synthetic.SyntheticDir.Remove | fileserver/trees/syntheticdir.go:294-319 | Remove takes the named entry away, and no other, exactly when there is one, the user may write the directory, and the entry is no directory with entries |
| Synthetic.SyntheticDir.Rename | fileserver/trees/syntheticdir.go:263-290 | Rename moves one entry and renames its file exactly when the entry exists, the new name is free and the user may write the directory; every other file is untouched, and a refusal changes nothing |
| Synthetic.SyntheticDir.List | fileserver/trees/syntheticdir.go:148-168 | A reader gets each entry's stat once, in some order, whatever the keys |
| Synthetic.EnumeratedAt | fileserver/trees/syntheticdir.go:148-168 | In a list of the entries a key has one place, with its stat, or none |
| Synthetic.SetStat | fileserver/utils.go:42-118 | setStat on the objects changes the file and its parent as `SetStat.SetStat` says, rollback included |
| MixDir.MixDir.Walk | fileserver/trees/mixdir.go:110-126 | Walk finds Top's file, or else Bottom's; it fails for a user who may not search Top, or not Bottom when Top lacks the name |
| MixDir.MixDir.List | fileserver/trees/mixdir.go:23-47 | Whatever the keys, List gives each name of a file once, with a stat of Top's if Top has one of that name |
| MixDir.MixDir.ListAgreesWithWalk | fileserver/trees/mixdir.go:23-47 | When keys are names, a name has exactly one entry in List if Walk finds it, that file's stat, and none otherwise |
| Buffers.WriteThenRead | fileserver/trees/syntheticfile.go:43-73 | A write replaces the range at min(offset, length), or at the end when append-only, and keeps every other byte |
| Buffers.WritesWhereAsked | fileserver/trees/syntheticfile.go:47-68 | A write at the offset stays there and may reach beyond the end; one beyond the end, or append-only, goes to the end |
| Buffers.ReadsWhatIsThere | fileserver/trees/syntheticfile.go:27-39 | A read is a prefix of what follows the offset, as long as asked for or as there is |
| Buffers.Content.ReadAt | fileserver/trees/syntheticfile.go:22-40 | A read returns the lesser of the buffer's length and what remains, nothing at or past the end; the bytes are the content's, and the rest of the buffer is left alone |
| Buffers.Content.WriteAt | fileserver/trees/syntheticfile.go:43-73 | Overwriting in place, growing into spare capacity and moving to a bigger array all show the written sequence; DetachedHandle has the same code |
| Buffers.Content.Open | fileserver/trees/syntheticfile.go:216-247 | Open succeeds exactly when PermCheck allows the mode, empties the content exactly for OTRUNC with the OWRITE bit, and gives the handle the flags of the modes in which the server serves reads and writes |
| Buffers.ServedRights | fileserver/fileserver.go:866-922 | The server's mode checks let nobody write without write permission, nor read without read permission but by OEXEC; the handle does not look at its flags |
| Buffers.TruncatesOnBytes | fileserver/trees/syntheticfile.go:235 | Truncation is the program's test of two bits of the mode's byte |
| Buffers.TruncationNeedsWriteIff | fileserver/trees/syntheticfile.go:226-238 | A mode that truncates is open only to users with write permission if and only if it is not OEXEC with OTRUNC |
| Buffers.Run | fileserver/trees/syntheticfile.go:22-73 | Over any history of writes, cuts and truncating opens the slice shows one abstract sequence; stale spare bytes are never visible |
| Buffers.Read | fileserver/fileserver.go:874-892 | The capped read returns the bytes at the offset up to the count, the message size or the end, whichever comes first, and its Rread always fits the message size |
| Buffers.ReadAll | client/wrapper.go:60-77 | ReadAll through the capped read terminates with exactly the file content, whatever the two message sizes, so long as a read can carry a byte |
| StatCodec.StatRoundTrip | utils/utils.go:11-28 | A stat is read back as it was, and its size prefix says how long it is |
| StatCodec.LittleEndian | utils/utils.go:14 | The least significant byte of a number comes first |
| StatCodec.Layout | utils/utils.go:11-28 | A stat's bytes are the fields of stat(5) in their order and widths, after the size |
| Listing.ParsePrinted | utils/utils.go:11-28 | Parsing the printed entries gives the list back, for any size-prefixed codec |
| Listing.ParseGarbled | utils/utils.go:11-28 | After entries followed by bytes that are none, what was parsed comes back with an error, or there is a crash if one byte is left at the end of the array |
| Listing.Readdir | utils/utils.go:11-28 | The loop that reslices the buffer computes the recursive parser, with what was parsed before an error, and crashes exactly when a single byte is left at the end of the array |
| Listing.FitsUnique | fileserver/trees/listhandle.go:50-73 | How many whole entries a read hands out is determined by the sizes alone |
| Listing.ListHandle.ReadAt | fileserver/trees/listhandle.go:36-76 | A read hands out whole entries, as many as fit, keeps the others for later, takes a new snapshot at offset 0 only, and fails when not even one fits |
| Listing.ReadAll | client/wrapper.go:60-77 | For reads of any sizes ReadAll terminates; it succeeds, with the whole listing of the first snapshot, if and only if each read is large enough for the next entry, and otherwise fails at the first that is not, with the entries before |
| Listing.ListingRoundTrip | client/wrapper.go:80-87 | What Readdir makes of a printed listing is the list of stats it was printed from |
| Listing.ReaddirFid | client/wrapper.go:80-87 | Client Readdir over server reads yields exactly the directory's stats just when each of them fits a read |
| Broadcast.WithoutIs | fileserver/trees/broadcastfile.go:150-159 | deregister removes the handle and keeps the order of the others |
| Broadcast.StepKeeps | fileserver/trees/broadcastfile.go:77-159 | Every step of overlapping pushes, reads, opens and closes keeps the delivery count of each message at each listener |
| Broadcast.ExactlyOnce | fileserver/trees/broadcastfile.go:140-147 | However pushes overlap, a message pushed after a listener's Open reaches it exactly once, and an earlier one never |
| Broadcast.ListenerWindow | fileserver/trees/broadcastfile.go:36-98 | When pushes do not overlap, what a listener fetched followed by its queue is the contiguous part of the push log since its Open, until its Close |
| Broadcast.BroadcastHandle.ReadAt | fileserver/trees/broadcastfile.go:36-74 | A read takes the oldest message, even one that is too big for the buffer, terminates after Close, and waits without effect while there is none |
| Broadcast.BroadcastFile.Open | fileserver/trees/broadcastfile.go:114-137 | A readable open registers a new listener behind the others |
| Broadcast.BroadcastFile.Push | fileserver/trees/broadcastfile.go:140-147 | Push queues the message for every registered listener |
| Broadcast.BroadcastFile.Close | fileserver/trees/broadcastfile.go:85-159 | Close empties and marks the handle, and takes it and no other off the list |

## Left out

* `die`, `handlePanic`, I/O errors, deadlock and liveness: only safety is stated. `respond` can reach `cleanup` while its caller holds `fidLock`, and `BroadcastHandle.Close` and `Push` take their locks in opposite orders.
* NOTAG requests other than Version, requests before the first Version, and a client's Version in the middle of an end-to-end run: the end-to-end theorem is about one session.
* `FlushAll`'s unsynchronised window between reading the pending tags and ditching them, and the gap in `Send` between finding the channel and writing the request: in the end-to-end runs Ditch comes after the Rflush, while the tag still stands for the flushed request, or before anything was sent, and Send is one step.
* The encoder and decoder of messages: messages are datatypes with a size. Only the stat layout is written out, after stat(5); its strings are byte sequences.
* The contents of walk, stat, read and write requests in the tag and fid machines: their outcomes are choices of the run, so the theorems hold for every tree.
* Usernames and open modes of fidStates in `FidTable`: they decide only whether an open succeeds, which is a choice of the run.
- Walking.WalkTo: the tree's answers do not change during a walk, since Walk and Arrived are functions.
* The refinement of a whole heap of `SyntheticDir` objects to the store of `TreeShape`: each single operation is tied to the same functions on a directory's entries that the store uses.
* `SyntheticDir.Add` in `TreeShape`, whose runs start from one root: it need not keep key and name equal.
* A directory that is an entry of its own, and a setStat whose file is its own parent: the program would take one lock twice.
* Timestamps, version counters, open counts and counter overflow; `LockedFile`; the pass-through methods of `MixDir`.
* Offsets that are negative as int64, and a server that suggests a message size below 11 bytes, whose capped read asks for a negative count.
* Overlapping tree operations: each operation on a directory or file, and setStat as a whole, is one step. `SyntheticDir.Remove` looks at a child directory's entries without the child's lock, so a create may slip in between its check and its delete.
* A connection that breaks under a call: `Send`'s own errors, after which `Walk` keeps its fid.
* Being woken up from a wait on an empty queue: a read that waits is a read that comes back later.
* `WrappedFid.WriteAt` over several chunks, whose chunk length is not reduced for the last one, and `parseCommandLine`, which drops the last word after a closing quote.
* `ProxyFile`, `exportfs`, `ramfs`, `Dial`, readline and logging: operating system, network and user interface.
