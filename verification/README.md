# Verified model of the storage node

This project models the storage node's store engine (`src/store/`, `src/protocol.rs`) and three
protocols around it - the master pointer between nodes, the pairing hub, and the base64url text of a
noise frame - and proves what they promise to their users:

* **Every copy is accounted for.** Over every run, the copies of every content in the official tree and
  the recycle bin are those there before, plus exactly what commits reported, less what the removing
  operations removed and what was overwritten in the bin; and the removing operations report just the
  bytes they freed.
* **Uploads are faithful.** Chunks in any order, overlapping or repeated, across restarts and
  re-begins, give the content they agree on; what is committed is what reads back.
* **Requests get what they ask for.** For every request of the protocol: who is let in, whose files it is
  about, what it changes and what it is answered, error codes included, are stated of `handle` itself in the
  protocol's own words - the ids a commit names and the turn each of its uploads takes, which chunks are
  accepted, which bytes a read gives, whose file a delete recycles.
* **Crashes are safe.** A crash between any two file-system actions of a begin, of a whole batch
  commit or of a whole staging collection leaves no part file without its meta file and no copy
  unaccounted for, and all of the above holds of runs with such crashes in them.
* **A batch commit is two-phase**, delete and restore undo each other, listings of spaces and of the bin
  miss nothing, and the collectors remove exactly what has expired.
* **Private reads trace back** to a grant the local user issued or to a recent seeding call.
* **One writer per epoch**, whatever happens to the fan-out messages, as long as no two nodes migrate
  to the same epoch.
* **An accepted pairing** presented the hub's own code and was accepted by a decision made for it.

## How it is laid out

The file system is a map from paths (segments below the store root) to nodes: a directory, a file's
bytes, or the typed content of a staging `.json` file. Renames move whole subtrees and follow POSIX.
SHA-256, the text of a JSON file, the calendar, the clock, drawn ids and the order in which
directories are read are parameters. Each operation is a function on values (`Staging`, `Recycle`,
`Maintenance`, `ImportAuth`, `Host`); the lemmas are about these functions. The store's own steps -
loops, fields updated in place, early returns - are methods on classes, each proved equal to its
function: `WriteOps`, `BrowseOps`, `GcOps`, `MaintOps` and `Service` over the class `Locals.Local`,
with `ImportAuth.ImportAuthority`, `Cursors.DeviceCursors`, `Master.PointerFile`,
`Pairing.PairingHub` and `Pairing.AcceptChannel`.

| files | what they hold |
|---|---|
| `Wrappers`, `Paths`, `Suffix`, `FileSystem`, `Layout` | results and error codes, path strings, the `~<ms>` suffix, the file system, what counts as stored |
| `Recycle`, `RecycleLaws`, `RestoreLaws` | moving to the bin and back under canonical paths |
| `Tidiness`, `TwoMoves`, `RestoreNames`, `RestoreAnywhere`, `RestoreCases`, `WholeTrees` | recycle.restore under any path: places, its two moves, its names, when it is safe, special spellings, whole spaces and devices |
| `Staging`, `StagingLaws`, `CommitLaws`, `BatchLaws`, `Provenance`, `Fidelity`, `Sessions` | uploads: invariant, batch commit, provenance, end-to-end content, ids that devices share |
| `Crash`, `CrashRuns` | begin, commit and staging collection one action at a time, and cut off anywhere |
| `Maintenance`, `DirSize`, `StoreStats`, `Listing`, `BinList`, `ListedRestores` | collectors, purge, wipe, sizes, stats, listings of spaces and of the bin |
| `StoreRun`, `Host`, `HostRun`, `Trees`, `Opening` | runs of the store, and of a node with `handle`, authorisation, cursors and master pointer; opening a root |
| `Protocol`, `ImportAuth`, `AuthTrace` | access check, import grants, histories |
| `Requests`, `Looking`, `Uploading`, `Committing`, `Deleting`, `Showing`, `Steering`, `Beside` | `handle` request by request: who gets in; list, meta and read; begin and chunk; commit; delete, restore; stats, the bin; imports, cursors and the pointer; what happens beside requests |
| `Master`, `Network`, `Pairing`, `Cursors`, `Base64Url` | the smaller protocols |
| `Locals`, `WriteOps`, `BrowseOps`, `GcOps`, `MaintOps`, `Service` | the store as an object |

## Where the promises stop

Each of these is a lemma with the exact condition, or a lemma for the case that fails.

* Normalising a path is not idempotent: `./~x` becomes `~x`, which is then refused
  (`Paths.RenormalizeIff`); move_to_recycle normalises again, so it refuses an item at such a path.
* Recycling a file replaces an older recycled file when its `~<ms>` name is already taken; then, and
  only then, a copy is lost (`RecycleLaws.MoveToRecycleKeepsIff`); a file whose own name ends in
  `~<ms>` makes it happen (`RecycleLaws.OverwriteWitness`). Deletes, commits and restores all recycle;
  the copies they overwrite are the third term of `StoreRun.RunConserves`.
* A declared size of 0 lifts the bound on chunks; only commit then refuses the upload
  (`BatchLaws.ZeroSizeCaughtAtCommit`).
* Uploads are found by id alone. A begin of an id that another device is using takes it over: that
  device's next chunk is refused, or goes into the other's part (`Sessions.BeginTakesOver`). Collecting one
  device's stale upload makes another's upload of the same id unknown until it begins again
  (`Sessions.OtherCollected`). An upload stays with its device exactly as long as no other begins its id
  (`Sessions.StepHolder`, `Sessions.HolderIsLastBegin`, `Sessions.SoleBeginnerKeeps`).
* Of two members of a batch, a later one at or above the destination of an earlier one recycles what
  the earlier brought (`BatchLaws.LaterDisplacesEarlier`). The other way round the later one just fails.
* An id listed twice in one commit is reported as committed and as failed, and its destination ends
  empty, its bytes in the bin (`BatchLaws.DuplicateIdEmpties`, `BatchLaws.SecondTurnFails`).
* Restoring what a delete returned is refused for names holding `..`, and answers with another name for
  a natural `~` + ten digits suffix (`RestoreLaws.RestoreUndoesDelete`).
* `recycle.restore` takes paths of many spellings. One that leads home - a real component after
  `.recycle`, a third that is not empty, a target below a space - keeps every file with its owner whatever
  else it looks like (`RestoreCases.RestoreShuffles`); one that does not carries files out of their owner's
  tree (`RestoreCases.SoundIffHome`, `RestoreCases.RestoreLandsHomeIff`,
  `RestoreLaws.RestoreEmptyComponentLeaves`). Whether a restore keeps everything is, under every path,
  exactly whether it is safe (`RestoreAnywhere.RestoreSafeIff`).
* The test of resolve_path for paths that leave their base fires for an empty space component, and only
  for that or one that ends in a separator (`RecycleLaws.EscapeIff`). Requests under the access check name a
  valid space; through recycle.restore an empty one gets there, is answered `bad_path` and moves nothing
  (`RestoreCases.EscapeFires`).
* A path or target that ends in a `.` component is refused by rename(2), so such a restore moves nothing
  (`RestoreCases.DotMovesNothing`, `RestoreCases.DotSpaceStays`).
* An item named only `~` and ten or more digits is restored in the place of its directory, which goes
  to the bin (`RestoreCases.BareSuffixAims`); below a space nothing is lost (`RestoreCases.RestoreShuffles`).
  Of what `recycle.list` shows, only such an item right below a space needs care
  (`ListedRestores.ListedRestoreSound`).
* The path `.recycle/<date>/<device>/<space>/` restores a whole space, `.recycle/<date>/<device>//` a whole
  device. What stands there, staged uploads included, first goes to the bin. For a space that is safe if and
  only if it cannot be moved away or nothing is being uploaded to it (`WholeTrees.SpaceSafeIff`); for a
  device there must, besides, be no files if today's bin holds that device already
  (`WholeTrees.DeviceSafeIff`). Otherwise bytes no commit took end up as a recycled file
  (`WholeTrees.WholeRestoreUnstages`).
* `recycle.restore` and `recycle.empty` are not covered by the write fence (`HostRun.FenceHolds`). The bin is
  emptied by the local user alone (`Requests.UserLetIn`), but listed and restored from by every owner, for the
  files of all devices and spaces (`Requests.OthersLetIn`).
* A client that is told eof has the rest of the file; a last piece that is exactly as long as was asked for comes
  without it, so one more request may be needed than there are pieces (`Looking.ReadOnReturnsAll`).
* A member of a batch for which there is no room - a file stands where a directory is needed, or what stands at its
  destination cannot be moved to its place in the bin - changes nothing; one whose part has gone still makes room
  (`Committing.TurnLaw`).
* A migration from the largest epoch falls back to epoch 1 (`Master.MigrationRaisesIff`), and two nodes
  that migrate unheard from the same epoch both take writes (`Network.TwoWriters`).
* The stats figure of a space includes its staging bytes, which are also reported apart
  (`DirSize.StatsCountStaging`).
* A text that brings its own `=` padding is accepted where only unpadded text is produced
  (`Base64Url.EncodesBackIff`, `Base64Url.PaddedIsAccepted`).

Where the protocol document and the code differ, the model follows the code: a master pointer of equal
epoch is not adopted (the document says it is), `list` has a limit but no cursor and no upper bound,
staging uses two files per upload and not a directory, grants cannot be revoked by any operation, and
retention policies do not exist.

## Model

| member | source | states |
|---|---|---|
| Paths.NormalizePath | src/protocol.rs:80-111 | the loop that keeps segments ends with the normal form, or with the first error in source order: raw checks, then traversal or dot segment, then nothing left |
| Paths.NormalFormIs | src/protocol.rs:80-111 | a path has a normal form if and only if it is not empty, holds no NUL, does not lead outward, has no part led by a dot but `.`, and some part that says something; the normal form is those parts in order, between separators of either kind |
| Paths.NormalizedIsClean | src/protocol.rs:80-111 | a normalised path has only non-empty segments without leading dot, slash, backslash or NUL, and splits back to exactly the kept segments |
| Paths.CleanIsReachable | src/protocol.rs:80-111 | every such path is the normal form of some input, so the clean paths are exactly the image |
| Paths.RenormalizeIff | src/protocol.rs:63-111 | normalising a normal form gives it back if and only if its first segment neither starts with `~` nor looks like a drive; otherwise it is refused |
| Paths.RenormalizeWitness | src/protocol.rs:87-92 | both kinds of input whose normal form is then refused do occur |
| Suffix.StripSuffixedIff | src/store/browse.rs:251-256 | stripping takes off the collision suffix of any name if and only if the clock reads at least 10^9 ms |
| Suffix.StripCuts | src/store/browse.rs:488-496 | a name that is some base, `~` and ten or more digits is stripped to just that base, so it has one such reading only; any other name is left alone |
| Suffix.DecimalReads | src/store/browse.rs:251-256 | the digits of the suffix stand for the clock's milliseconds, without a leading zero |
| RecycleLaws.EscapeIff | src/store/browse.rs:11-31 | resolve_path fails exactly where normalisation does and - its own test for leaving the base - for every path with a normal form where the space is empty or ends in a separator; what it returns otherwise is the base, or the base and clean segments |
| RecycleLaws.EscapeUnreachable | src/store/browse.rs:11-31 | with a space in place, as the access check demands everywhere but for recycle.restore, that test never fires |
| Protocol.TargetContained | src/store/browse.rs:106-116 | with an allowing verdict, list, meta, read and delete work on the device the frame names, by default the caller's, and write.begin on the caller's; all stay inside one valid space of a valid device, deletes in the caller's own tree or in shared spaces |
| RecycleLaws.TransferShuffles | src/store/browse.rs:257-260 | create_dir_all plus rename to a free name succeeds exactly when no file is where a directory is needed, and either way no file is lost, copied or given to another owner |
| RecycleLaws.MoveToRecycleRearranges | src/store/browse.rs:236-262 | moving a file or directory to the bin, succeed or fail, copies nothing, keeps every owner, leaves staging alone, and loses exactly the file it replaces there, if any |
| RecycleLaws.MoveToRecycleShuffles | src/store/browse.rs:236-262 | so it loses nothing unless it replaces a file there by a file |
| RecycleLaws.MoveToRecycleKeepsIff | src/store/browse.rs:251-261 | every content keeps its number of copies if and only if the name picked does not overwrite a file already in the bin |
| RecycleLaws.OverwriteWitness | src/store/browse.rs:251-261 | such a replacement does happen: after deleting a file named `x~<ms>` and then `x`, a new `x` deleted at that millisecond |
| RestoreAnywhere.RestoreKeeps | src/store/browse.rs:189-226 | a sound restore - wherever the files it moves come to rest they belong to the same device and space, and no staged node is left away from its place - loses exactly the recycled file it replaces, if any, and otherwise keeps all copies, owners and the staging area, under whatever path and however it ends |
| RestoreAnywhere.RestoreSafeIff | src/store/browse.rs:189-226 | in every state a store can be in, and under every path, a restore keeps all copies, owners and the staging area if and only if it is sound and replaces no recycled file |
| RestoreCases.RestoreShuffles | src/store/browse.rs:189-226 | restoring anything in the bin, under any path that leads home to below a space, copies nothing, changes no owner and loses nothing but a recycled file it replaces, trailing slashes, empty and `.` components and bare-suffix names included |
| RestoreCases.BareSuffixAims | src/store/browse.rs:195-212 | an item named only `~` and ten or more digits aims at its directory's own place |
| RestoreCases.SoundIffHome | src/store/browse.rs:195-217 | a restore that goes through, of anything holding a file, to below a space, is sound if and only if its path leads home |
| RestoreCases.EscapeFires | src/store/browse.rs:11-31 | an item that is there, named with an empty component after its device, is answered bad_path, and nothing changes |
| RestoreCases.DotMovesNothing | src/store/browse.rs:204-226 | a restore whose target ends in a `.` component, or whose path does and whose target is free, fails and moves no file |
| RestoreCases.DotSpaceStays | src/store/browse.rs:195-215 | the path `.recycle/<date>/<device>/./` names a whole device, with such a target |
| WholeTrees.SpaceSafeIff | src/store/browse.rs:204-226 | restoring a whole space by its path with a trailing slash is safe if and only if what stands there cannot be moved out of the way or nothing is staged in that space |
| WholeTrees.DeviceSafeIff | src/store/browse.rs:204-226 | restoring a whole device by its path with two trailing slashes is safe if and only if what stands there cannot be moved out of the way, or nothing is staged on that device and, should today's bin hold the device already, it has no files |
| WholeTrees.WholeRestoreUnstages | src/store/browse.rs:204-226 | if an upload is in progress, either restore, on the first day anything is recycled, answers Ok and leaves its bytes in the bin under a name that is no longer staging's |
| RestoreLaws.RestoreUndoesDelete | src/store/browse.rs:189-262 | restoring the path a delete returned answers with the deleted path if and only if no name holds `..` and the last has no natural suffix, and then every official and recycled file is where it was, for files and directories, collided or not |
| Deleting.DeleteLaw | src/store/browse.rs:106-130 | an admitted delete frees the normal form of its path below the named device's space, by default the caller's, and puts that tree, node for node, under its date, device and space in the bin, with the time after the name if that is taken; the reply names that place, no file of any other device changes, and the caller is credited; what is missing is already gone; refused paths and moves that cannot be made change nothing |
| Deleting.RestoreLaw | src/store/browse.rs:189-226 | which paths recycle.restore refuses as bad_path and which as not_found, nothing being changed; if it goes through, the answer is the path below the space with the suffix taken off, and no directory of the bin is left without a file |
| Deleting.RestoreToFreeTarget | src/store/browse.rs:209-226 | restoring an item of the bin whose target is free goes through if and only if no file stands on the way; then it stands there node for node, nothing is left at its place in the bin, and every other file is as it was |
| Deleting.DeleteThenRestore | src/store/browse.rs:106-130 | the two as requests: restoring the path a delete was answered with answers with the deleted path exactly when that can be done, and then every file is back |
| RestoreCases.RestoreLandsHomeIff | src/store/browse.rs:195-215 | for every spelling of a recycled item that resolves, the target lies below the item's own device and space if and only if the component after the bin is a real one, the third is not empty and the target is not the space itself |
| RestoreLaws.RestoreEmptyComponentLeaves | src/store/browse.rs:204-223 | with an empty component after the bin, any item is restored below a top-level directory named after its date |
| StagingLaws.BeginKeeps | src/store/write.rs:34-124 | write.begin keeps the staging invariant: no part without its meta file, each table entry's count equal to its part's length and its declared values equal to its meta file's; no official or recycled file changes |
| StagingLaws.BeginReceived | src/store/write.rs:60-124 | a fresh begin leaves an empty part although it opens without truncation; a resumed one reports the bytes that are there and keeps them |
| StagingLaws.ChunkKeeps | src/store/write.rs:126-179 | write.chunk keeps the staging invariant, so the count stays the true length and no hole appears |
| CommitLaws.ClearLaw | src/store/write.rs:244-264 | making room either fails and changes nothing or leaves the destination free, what stood there in the bin node for node, and everything else as it was but for the recycled file it replaces, if any |
| CommitLaws.DepositLaw | src/store/write.rs:266-271 | the move into place succeeds exactly when the part is still there, moves that one file and removes the meta file |
| CommitLaws.CommitOneKeeps | src/store/write.rs:242-277 | one member keeps the invariant; a failure only rearranges files and keeps the table entry, a success adds one copy of its part's bytes and nothing else; either loses exactly the recycled file that making room replaced |
| BatchLaws.VerifiesIff | src/store/write.rs:207-233 | under the staging invariant a member checks if and only if its part is there with the declared size and hash; a wrong length is reported as a mismatch |
| BatchLaws.ZeroSizeCaughtAtCommit | src/store/write.rs:159-161 | with declared size 0 a chunk of any allowed length is accepted, and the upload is then refused by commit |
| BatchLaws.VerifyChecks | src/store/write.rs:207-239 | an accepted first phase lists the ids in order, each with its own part's size and hash, equal to what was declared |
| BatchLaws.BatchCommit | src/store/write.rs:181-292 | a verification failure changes nothing; otherwise, for distinct ids and destinations none at or above an earlier one's, committed and failed split the batch, each committed destination holds its staged bytes with declared size and hash, failed ids stay retryable, other official paths are untouched, and, if nothing in the bin was overwritten, what stood at the destinations is there and the bin keeps all it had |
| Committing.CommitLaw | src/store/write.rs:181-292 | a commit is about the list of ids in its frame, else its single id, else none; the first of them whose upload is not complete is the error, and nothing changes; if all are, committed and failed together are exactly these ids, in order and with multiplicity, each committed one with its declared size and hash, and the caller is credited if none failed |
| Committing.TurnLaw | src/store/write.rs:241-278 | a member of any batch succeeds exactly when its part is there and there is room; then its bytes stand at the destination, what stood there is at its place in the bin node for node, its staging files and table entry are gone and nothing else has changed; without room nothing changes |
| Committing.CommitTakesTurns | src/store/write.rs:181-292 | a commit whose uploads are all complete, any ids at all, reaches its state and its lists by just these turns, one after the other in the order named, each at its own reading of the clock |
| Committing.SingleCommit | src/store/write.rs:181-292 | so a commit of one complete upload, by either way of naming it, reports it as committed, with its bytes at the destination and the caller credited, if and only if there is room, and else as failed with nothing changed |
| BatchLaws.LaterDisplacesEarlier | src/store/write.rs:258-265 | the condition on destinations is needed: of two committed members, a later one at or above the earlier one's destination leaves what the earlier brought in the bin |
| BatchLaws.SecondTurnFails | src/store/write.rs:242-277 | the condition on ids is needed: the second turn of a member that has committed always fails, and the destination stays filled if and only if it cannot be cleared |
| BatchLaws.DuplicateIdEmpties | src/store/write.rs:181-292 | so a commit of one id twice reports it as committed and as failed, and leaves its destination empty and its bytes in the bin |
| Provenance.CommitConserves | src/store/write.rs:181-292 | for any ids at all, copies of every content change by exactly the committed parts that held it and the recycled files overwritten, member by member, and every file stays traceable to a begin of its own device and space |
| Maintenance.EmptyBinLaw | src/store/browse.rs:228-234 | after recycle.empty the bin is an empty directory, nothing outside it changes, and the drop in stored bytes is the size of what was below it |
| Maintenance.GcRecycleLaw | src/store/gc.rs:83-102 | the recycle collector removes only inside the bin and leaves the staging pairs alone |
| Maintenance.RecycledSurvivesIff | src/store/gc.rs:71-103 | over every sequence of collections, with any ages and in any order of days, what lies below a date of the bin is there at the end, as it was, if and only if none of them ran later than that day and the days it was to leave, 30 by default; everything else in the store always is |
| Maintenance.UploadSurvivesIff | src/store/gc.rs:13-69 | over every sequence of staging collections, with any ages and in any order of times, an upload still has its files, as they were, if and only if none of them ran later than its begin and the time it was to leave, 24 hours by default |
| Maintenance.PurgeLaw | src/store/maintenance.rs:5-21 | a purge succeeds if and only if it names a device other than this node that has a tree, and then removes exactly that tree and frees exactly the bytes below it; otherwise it changes nothing, with bad_path, acl_denied or not_found in that order |
| Maintenance.WipeLaw | src/store/maintenance.rs:23-43 | a wipe succeeds if and only if it names this node and no file stands in the place of its tree, and then leaves the four empty spaces in it, nothing else changed, and frees exactly the bytes below it |
| Maintenance.GcStagingLaw | src/store/gc.rs:33-66 | the staging collector keeps the invariant, touches no official or recycled file, and keeps an upload's two files if and only if it was begun at or after the deadline |
| StoreRun.RunConserves | src/store/write.rs:241-278 | over every sequence of begins, chunks, commits, deletes, sound restores, collections, purges, wipes, restarts and crashes inside begins, commits and staging collections, for every content: copies at the end plus copies removed by removing steps plus copies overwritten in the bin equal copies at the start plus copies commits reported or had moved when cut off |
| StoreRun.RunKeeps | src/store/write.rs:72-119 | in every reachable state the staging invariant holds and every official or recycled file has the size and hash of an upload begun by its own device in its own space |
| StoreRun.OpenedHolds | src/store/mod.rs:55-82 | a store just opened on an empty root satisfies the invariant and holds no file |
| StoreRun.RunRestores | src/store/browse.rs:189-226 | after every run, and under every path, whether a restore keeps everything is exactly whether it is safe |
| Opening.OpenKeeps | src/store/mod.rs:55-82 | opening on any sound root, go through or not, keeps every file, the uploads on disk, the staging invariant and provenance |
| Opening.OpensEmpty | src/store/mod.rs:55-82 | on an empty root opening goes through and yields the store the runs start from |
| Opening.OpensIff | src/store/mod.rs:60-63 | opening goes through if and only if no file stands where one of the node's directories has to be |
| Looking.ReadLaw | src/store/browse.rs:73-104 | a read by an owner who may look answers, for the named device, the caller by default, exactly the bytes of the file from the offset on, as many as asked or 65536, and eof if and only if these are fewer; else acl_denied, bad_path or not_found; nothing changes but that an expired seed entry goes |
| Looking.MetaLaw | src/store/browse.rs:51-71 | meta answers, for the named device, whether the path is a directory, else the size and hash of what the file holds |
| Looking.ListLaw | src/store/browse.rs:33-49 | list answers, for the named device, with entries of different visible files below the path, each with its own path below the space, size and hash, no more than the limit, 1000 by default, and with all of them if there are fewer |
| Looking.ReadOnReturnsAll | src/store/browse.rs:83-104 | a client that may look and reads on by requests to handle until eof, with any lengths, gets the rest of the file, by as many requests as there are bytes left, and one |
| Uploading.BeginLaw | src/store/write.rs:34-124 | write.begin works under the id it is given or one drawn for it; it is refused for bad paths, sizes, hashes and ids, for a file in the way and for other declared values than its meta file has, nothing being changed; else it answers with the id and the bytes its part already has, the table has the entry, and a new upload has an empty part and its meta file |
| Uploading.ChunkAcceptedIff | src/store/write.rs:153-178 | a chunk of at most 65536 bytes of a staged upload is accepted if and only if it starts within what was received and ends within the declared size, if that is not 0, resent and overlapping ones included; the answer is the greater of what was received and where it ends |
| Uploading.ChunkLaw | src/store/write.rs:126-179 | of write.chunk as a request: that answer and the chunk's length, the part being overwritten from the offset on and nothing else changed; every other chunk is refused with its error and changes nothing |
| Fidelity.PartIsReceivedContent | src/store/write.rs:153-178 | over every run whose accepted chunks for an upload agree with one content, in any order, overlapping, repeated, across restarts, crashes and re-begins, an existing part is the first `received` bytes of it |
| Fidelity.NeverBeyondDeclared | src/store/write.rs:153-163 | over every run a part never exceeds the size its upload declared, unless that was 0 |
| Fidelity.CommittedReadsBack | src/store/write.rs:207-278 | once all bytes are received, a commit that reports the upload as committed, alone or in a batch, makes the content readable in pieces of any length, under every spelling of its path |
| Committing.CommittedIsRead | src/store/write.rs:207-278 | once all bytes of an upload are received, a commit request that names it and answers that it is committed makes the content readable: any client that may look, reading on by requests of its own, gets it, under every spelling of the path |
| Sessions.StepHolder | src/store/write.rs:77-119 | what each step does to an id: a begin of it that goes through makes it the caller's, whosever it was; a commit of it, a restart, and a collection of a stale upload of that id on any device take it off the table; nothing else moves it |
| Sessions.HolderIsLastBegin | src/store/write.rs:106-119 | over every run an id stands for the device and space of its last begin that went through, or for nothing |
| Sessions.SoleBeginnerKeeps | src/store/write.rs:140-178 | while only one device begins an id, in one space, the id is that upload's or nobody's, and an accepted chunk changes that upload's part and no other file |
| Sessions.BeginTakesOver | src/store/write.rs:106-119 | otherwise: after another device's begin of the same id, the first device's next chunk is refused and one sent from the start lands in the other's part, while its own part stays |
| Sessions.OtherCollected | src/store/gc.rs:58-64 | and collecting another device's stale upload of the id makes chunks of the first device refused until it begins again, which takes up every byte |
| Crash.BeginCrashSafe | src/store/write.rs:56-104 | stopping a begin after any of its file-system actions leaves no part without its meta file |
| Crash.BeginActsRefine | src/store/write.rs:56-104 | the actions run to the end are write.begin |
| CrashRuns.BeginCutKeeps | src/store/write.rs:56-104 | a begin cut off anywhere adds directories, its meta file and an empty part at most, and changes no official or recycled file |
| CrashRuns.BatchCrashSafe | src/store/write.rs:241-278 | stopping the second phase of a whole batch after any number of its actions leaves the invariant, provenance and exactly the copies there were, plus those of the members whose parts had been moved, less those overwritten in the bin by then; run to the end the actions are the commit |
| CrashRuns.CommitCutKeeps | src/store/write.rs:181-281 | the same for a commit of any ids at all, first phase included |
| CrashRuns.SweepCrashSafe | src/store/gc.rs:33-66 | stopping a collection anywhere, whatever it collects and in whatever order, leaves the invariant, and staging files are all that has gone |
| CrashRuns.SweepActsRefine | src/store/gc.rs:33-66 | run to the end over the stale uploads, in any order, the actions are the staging collection |
| Requests.LetInIffPermitted | src/protocol.rs:114-205 | a request is let in to its operation if and only if it is an owner's and its operation, device, space and connection are as written out; every other one is turned away with untrusted, acl_denied or bad_op and changes nothing |
| Requests.OwnersOnly | src/protocol.rs:115-117 | peers that are no owners are told untrusted whatever they ask |
| Requests.WritesLetIn | src/protocol.rs:122-133 | begins need a valid space, chunks and commits may name one, none may name another device; which error each gets |
| Requests.DeletesLetIn | src/protocol.rs:134-146 | deletes are for the caller's own spaces and the shared ones of every device; which error others get |
| Requests.LooksLetIn | src/protocol.rs:147-168 | looking needs a valid space and, for another device's private one, a claim to seed or a grant to show; which error others get |
| Requests.UserLetIn | src/protocol.rs:170-191 | recycle.empty, import.grant, import.reject and import.grants are for the local user: without loopback an owner is told acl_denied and nothing changes |
| Requests.NamedLetIn | src/protocol.rs:177-199 | an import may be asked for from a valid other device, and a greeting is for one's own cursor |
| Requests.OthersLetIn | src/protocol.rs:169-204 | the other operations are open to every owner, master.migrate also on a node that is not master; unknown ones are bad_op |
| ImportAuth.ImportAuthority.Create | src/store/import.rs:69-87 | a pending request for the pair is handed out again, else one is appended |
| ImportAuth.ImportAuthority.Issue | src/store/import.rs:98-127 | only a pending request yields a grant, for its own devices and 24 hours, and is marked granted |
| ImportAuth.ImportAuthority.Reject | src/store/import.rs:129-138 | every request of that id becomes rejected; grants stay |
| ImportAuth.ImportAuthority.Check | src/store/import.rs:140-156 | the scan finds a grant if and only if one with this id, pair and space is neither revoked nor expired |
| ImportAuth.ImportAuthority.PendingRequests | src/store/import.rs:89-96 | the pending requests, in order |
| ImportAuth.ImportAuthority.LiveGrants | src/store/import.rs:166-184 | the grants of either list that are neither revoked nor expired, in order |
| ImportAuth.ImportAuthority.Receive | src/store/import.rs:158-164 | received grants are kept apart from issued ones, one per id |
| ImportAuth.ImportAuthority.ReceivePush | src/store/import.rs:331-371 | a pushed grant becomes a received grant for this node, with the defaults the code fills in |
| ImportAuth.ImportAuthority.Authorize | src/store/mod.rs:158-164 | a named caller may seed for 15 minutes |
| ImportAuth.ImportAuthority.Require | src/store/import.rs:233-259 | who is let through to another device's private space, and that only an expired seed entry is dropped on the way |
| Steering.RequestLaw | src/store/import.rs:261-268 | import.request hands out the oldest pending request of the pair, or notes and hands out a new one |
| Steering.PendingLaw | src/store/import.rs:270-285 | import.pending answers with just the pending requests, in order, and changes nothing |
| Steering.GrantLaw | src/store/import.rs:287-298 | import.grant answers bad_op without an id or for a request that is settled and not_found for one there is not; else a grant for just that request's devices, for backups and attachments and 24 hours, is issued and the request is granted |
| Steering.RejectLaw | src/store/import.rs:300-311 | import.reject makes every request of the id rejected and changes nothing else |
| Steering.GrantsLaw | src/store/import.rs:313-329 | import.grants answers, in the issuing role with the issued grants and else with the received ones, just those neither revoked nor past their time, in order |
| Steering.PushedLaw | src/store/import.rs:331-371 | a pushed grant is kept as received in place of any of its id, what it leaves open being filled in; one without id or device is bad_op |
| AuthTrace.GrantsAreIssued | src/store/import.rs:98-127 | after every history the issued grants are exactly those of its successful import.grant calls; pushed grants are never among them |
| AuthTrace.SeedsAreCalls | src/store/mod.rs:158-175 | a caller is seed-authorised exactly when it ran sync.cursors in this process within 15 minutes |
| AuthTrace.PrivateReadIff | src/store/import.rs:233-259 | a private read passes check and grant test if and only if the caller is trusted and either seeds and ran sync.cursors within 15 minutes, or presents a grant issued over loopback at most 24 hours ago on its own request for that device |
| AuthTrace.RequestLife | src/store/import.rs:69-138 | over every history at most one request per pair is pending, and issued grants belong to distinct requests, each with its request's devices |
| AuthTrace.SettledStaysSettled | src/store/import.rs:98-138 | a request that left pending never returns, and if it had no grant by then it never gets one |
| Master.PointerFile.constructor | src/store/mod.rs:75-81 | opening writes the pointer of this node at epoch 0 if there is none, and keeps the one there is |
| Steering.StartLaw | src/store/master.rs:12-27 | the pointer a node starts with names a valid device; without a file it is this node at epoch 0, which any valid message and any migration replaces |
| Master.PointerFile.Query | src/store/master.rs:12-27 | the pointer read is this node's for a missing file or an invalid master |
| Master.PointerFile.RequireMaster | src/store/mod.rs:139-148 | writes pass exactly while the master read is this node |
| Master.PointerFile.ApplyPointer | src/store/master.rs:49-86 | only a valid message of a higher epoch replaces the pointer; the answer tells stale, unchanged, conflict and applied apart |
| Master.PointerFile.Migrate | src/store/master.rs:88-98 | the new pointer names this node at the next epoch, at least 1, with i64 wrap-around |
| Steering.PointerLaw | src/store/master.rs:49-86 | of master.pointer as a request: a message without device or positive epoch is bad_op, one of a later epoch is taken over, and the others change nothing and are told stale, unchanged or conflicting |
| Steering.MigrateLaw | src/store/master.rs:88-98 | of master.migrate as a request, on any node: it becomes master at the next epoch, at least 1, and answers with that and all cursors |
| Steering.QueryLaw | src/store/master.rs:41-47 | master.pointer.query answers with the pointer and changes nothing |
| Master.MigrationRaisesIff | src/store/master.rs:88-98 | a migration raises the epoch if and only if it is below the largest i64; there it falls to 1 |
| Master.ApplyAllIsMaximal | src/store/master.rs:49-86 | folding any messages ends at the start or a valid message, with the greatest epoch of all |
| Master.OrderDoesNotMatter | src/store/master.rs:49-86 | when equal epochs carry equal masters, order and repetition of the messages make no difference |
| Master.ConflictFirstWins | src/store/master.rs:66-77 | without that, of two conflicting messages the first to arrive wins |
| Network.EpochsNeverFall | src/store/master.rs:49-98 | on every node, over every run with lost, repeated and reordered messages, epochs never fall and a node adopts at most one master per epoch |
| Network.AdoptedWasMigrated | src/peer/sessions.rs:77-87 | every adopted pointer of epoch 1 and up names a node that migrated to exactly that epoch |
| Network.OneWriterPerEpoch | src/store/mod.rs:139-148 | if no two nodes ever migrated to one epoch, at most one node per epoch from 1 up passes the write fence |
| Network.TwoWriters | src/store/master.rs:88-98 | the condition is needed: two nodes of equal epoch that both migrate both take writes |
| Cursors.DeviceCursors.AdvanceTo | src/store/cursors.rs:31-39 | the cursor becomes the greater of itself and the given number, others stay |
| Cursors.DeviceCursors.Forget | src/store/cursors.rs:41-48 | that device starts over, others stay |
| Steering.HelloLaw | src/store/cursors.rs:78-86 | sync.hello answers with the caller's own cursor, 0 if it has none |
| Steering.CursorsLaw | src/store/cursors.rs:88-97 | sync.cursors answers with all cursors and lets a named caller seed for the next 15 minutes |
| HostRun.CursorIsGreatest | src/store/write.rs:285-290 | between purges, a device's applied_seq is the greatest of where it stood and every upto_seq of its own successful deletes and fully committed batches; so it never falls |
| HostRun.PurgeForgets | src/store/maintenance.rs:17-20 | a purge that succeeds puts the device's cursor back to 0, one that fails moves none |
| HostRun.FenceHolds | src/store/mod.rs:95-97 | while another node is master, no call moves a cursor or an upload, fenced calls change nothing at all, and files change through the recycle bin operations only |
| HostRun.PointerStep | src/store/mod.rs:117-122 | nothing but a newer valid message or a migration moves a node's master pointer |
| HostRun.EventIsStep | src/store/mod.rs:84-125 | what any call of handle, and anything beside it, a crash in the middle of a begin, a commit or a collection included, does to files and uploads is exactly one step of the store or nothing; and a request's step is about the uploads, device and path its frame names |
| Beside.AdminDeleteLaw | src/store/browse.rs:316-326 | a delete by the administrator moves the tree at the path to its place in the bin, in any valid space of any valid device, and changes nothing of other devices |
| Beside.BeginCutAtEnd | src/store/write.rs:34-124 | a begin cut off after its last action is that request followed by the end of the process |
| Beside.CommitCutAtEnd | src/store/write.rs:181-292 | the same for a commit of the ids its frame names |
| HostRun.SoundIsLegal | src/protocol.rs:114-168 | the access check establishes the device and space conditions under which the store's laws hold |
| HostRun.NodeConserves | src/store/mod.rs:84-125 | conservation of content for a whole node under handle |
| HostRun.NodeKnowsItsFiles | src/store/mod.rs:84-125 | the staging invariant and provenance in every state a node can reach from an empty root |
| HostRun.PrivateReadsTraced | src/store/mod.rs:84-125 | after any run of the node, a private list, meta or read through handle is admitted if and only if the run itself justifies it, by seeding or by grant |
| Listing.WalkFiles | src/store/browse.rs:328-372 | the accumulator walk with early exits gives its accumulator plus the first entries of the full flattening, up to the limit |
| Listing.FlattenHolds | src/store/browse.rs:328-372 | the flattening holds exactly the files below the directory with no dot-led name on the way, whatever order directories are read in |
| Listing.FlattenDistinct | src/store/browse.rs:328-372 | no file is listed twice |
| Listing.List | src/store/browse.rs:33-49 | list runs the walk with limit 1000 when none is given |
| Listing.ListedIsPrefix | src/store/browse.rs:33-49 | the reply is the first entries of the unlimited one, as many as the limit lets in |
| Listing.ListingComplete | src/store/browse.rs:33-49 | without a limit every committed file below the directory is listed under its own path, no staging file is, and no path appears twice |
| DirSize.WalkDirSize | src/store/browse.rs:453-468 | the recursive sum equals the bytes of the files it is to count, dot rule included |
| DirSize.Measure | src/store/browse.rs:444-451 | dir_size is that sum, and 0 for what is no directory |
| DirSize.MeasureIsSizeBelow | src/store/browse.rs:444-468 | without the dot rule it is every byte stored below |
| DirSize.StatsCountStaging | src/store/browse.rs:453-468 | with the dot rule, a space's figure is its committed bytes plus its staging bytes, since the rule does not apply directly below the base |
| Showing.StatsLaw | src/store/browse.rs:132-175 | stats answers with one figure for each of the four spaces of each device directory - all files below it but those below dot-led directories from the second level on -, the bytes of all staging directories, those of the bin, the pointer and the cursors, and changes nothing |
| Showing.BinLaw | src/store/browse.rs:177-187 | recycle.list answers with one item for each recycled file and no other, newest first, each with its path, device, space, origin, size and the day it was deleted, or its own time where it lies under no date |
| Showing.EmptyLaw | src/store/browse.rs:228-234 | recycle.empty by the local user leaves an empty bin and nothing else changed, and answers with the bytes of the files that were below it |
| StoreStats.MeasureStore | src/store/browse.rs:132-160 | the loops of stats give, for every device directory and no other, the figure of each space, the bytes below all staging directories and those below the bin, whatever order directories are read in |
| StoreStats.StagingFigure | src/store/browse.rs:149-154 | under the staging invariant, the staging figure is every staged byte there is |
| BinList.WalkRecycle | src/store/browse.rs:374-421 | the recursive walk adds to what it has found exactly the flattening of the directory, as items |
| BinList.NewestFirstLaw | src/store/browse.rs:181-185 | the sort gives the items again, descending in time, those of one time in the order they came in |
| BinList.BinListComplete | src/store/browse.rs:177-187 | recycle.list shows every file of the bin below a date, a device and a space with no dot-led directory on the way, once, and nothing else, newest first |
| ListedRestores.ListedRestoreAnswers | src/store/browse.rs:404-417 | for every listed file with a spellable name, recycle.restore of its path passes all checks unless the path holds `..` or the origin has no normal form, and if it goes through answers with the origin the list showed |
| ListedRestores.ListedRestoreSound | src/store/browse.rs:374-421 | restoring a listed item that shows an origin is sound, whatever stands in its way |
| Pairing.PairingHub.Start | src/peer/pairing.rs:81-89 | a new code, and no attempt shown or waited for |
| Pairing.PairingHub.TakeSender | src/peer/pairing.rs:99-102 | the first half of a decision, under the lock: it finds the current wait or fails |
| Pairing.AcceptChannel.Send | src/peer/pairing.rs:103-105 | the second half, after the lock: the decision joins the channel's messages, or fails if the waiting socket is gone |
| Pairing.AcceptChannel.Receive | src/peer/pairing.rs:173-180 | the socket's wait ends with the first message of its own channel or with none, and no later send succeeds |
| Pairing.PairingHub.BeginAcceptWait | src/peer/pairing.rs:107-112 | a new wait replaces the one before |
| Pairing.PairingHub.SetPending | src/peer/pairing.rs:114-118 | the attempt is shown and active together |
| Pairing.PairingHub.ClearPairing | src/peer/pairing.rs:120-126 | attempt, wait and code all go |
| Pairing.AcceptedWasDecided | src/peer/ws.rs:59-121 | under every interleaving, an accepted attempt presented the very code the hub held when it arrived and took as first message of its own channel a `true` sent by a decision, and no decision accepts two attempts |
| Pairing.DecideFailsUntilNewWait | src/peer/pairing.rs:99-126 | once any attempt has cleared, every decision fails until some attempt begins a new wait |
| Base64Url.DecodesBack | src/noise/envelope.rs:71-81 | decoding the encoding returns every byte string |
| Base64Url.TextIs | src/noise/envelope.rs:71-73 | the text of n bytes has the least length that holds them, and its k-th letter is the one table 2 of RFC 4648, section 5, gives for their k-th six bits |
| Base64Url.PadRestored | src/noise/envelope.rs:71-81 | the padding put back is, in kind and number, the padding taken off |
| Base64Url.EncodesBackIff | src/noise/envelope.rs:71-81 | encoding what was decoded gives the text back if and only if it held no `=` |
| Base64Url.PaddedIsAccepted | src/noise/envelope.rs:75-81 | the padded text of any bytes is accepted as well |
| Locals.Local.constructor | src/store/mod.rs:64-72 | the object over a root: its files, its tables as they are on disk, no upload entries and nobody authorised to seed |
| Locals.Open | src/store/mod.rs:55-82 | opening any root makes the spaces and the bin one after the other; it fails for what is no device id and at the first directory a file is in the way of, else the tables and pointer on disk are taken over |
| WriteOps.WriteBegin | src/store/write.rs:34-124 | begin as a sequence of writes ends, on every branch, in the disk, table and answer the upload laws are proved about: refused inputs in source order, a conflicting id refused, a known one resumed at its part's true length, a new one started at 0 |
| WriteOps.WriteChunk | src/store/write.rs:126-179 | a chunk of a staged upload is accepted if and only if it starts within what was received and ends within the declared size, if there is one, and is answered with how far the upload then is; it is spliced in at its offset, the count moving only forward - the state the upload laws are proved about - and a refused one touches nothing |
| WriteOps.VerifyBatch | src/store/write.rs:206-239 | the first loop of commit reads only, and stops at the first member that fails, with its error |
| WriteOps.CommitBatch | src/store/write.rs:181-281 | the two loops of commit are the two phases of the batch laws: nothing moves before all ids check, a member that fails is reported and the rest go on, in batch order |
| BrowseOps.RecycleItem | src/store/browse.rs:236-262 | move_to_recycle on the store, with the escape error, the spellings rename refuses, the collision suffix and every other error, is what the recycle laws are proved about |
| BrowseOps.PruneEmptyDirs | src/store/browse.rs:423-442 | removing empty directories, those below others first, leaves exactly the bin directories that hold a file |
| BrowseOps.RestoreItem | src/store/browse.rs:189-226 | recycle.restore on the store, the displacing of an occupied target and the final pruning included, is what the restore laws are proved about |
| GcOps.CollectSpace | src/store/gc.rs:33-66 | one staging directory, read in any order: exactly its stale uploads go, and each is counted once although it is listed under two names |
| GcOps.CollectStaging | src/store/gc.rs:13-69 | over all devices and spaces: the state reached is the collector's, and the count returned is the number of stale uploads |
| MaintOps.EmptyRecycle | src/store/browse.rs:228-234 | the bin is emptied and the bytes reported are those that were below it |
| MaintOps.CollectRecycle | src/store/gc.rs:71-103 | exactly the date directories before the cutoff go, and the bytes reported are those by which the store shrank |
| MaintOps.PurgeDevice | src/store/maintenance.rs:5-21 | tree and cursor go together or not at all, and the bytes reported are those freed |
| MaintOps.WipeSelf | src/store/maintenance.rs:23-43 | the node's tree becomes its four empty spaces, and the bytes reported are those freed |
| Service.Steer | src/store/mod.rs:110-122 | each import, sync and master request reads and changes just its own part of the state, and answers from it |
| Trees.HandleTree | src/store/mod.rs:84-125 | no request takes the file system out of tree shape, whatever state it finds |
| Service.HandleFrame | src/store/mod.rs:84-125 | for every request, handle on the object - check, then fence, then operation - reaches the state and gives the answer the node laws are proved about, stats and recycle.list included, and leaves a tree of directories as it found one; so the laws of each request in `Requests`, `Looking`, `Uploading`, `Committing`, `Deleting`, `Showing` and `Steering`, conservation, provenance, traced private reads, cursors and fence hold of it |

## Left out

- StoreRun.RunConserves: assumes that restores are sound; that condition is exact (RestoreAnywhere.RestoreSafeIff), and what happens without it is stated by RestoreCases.SoundIffHome, RestoreLaws.RestoreEmptyComponentLeaves and WholeTrees.WholeRestoreUnstages.
- StoreRun.RunKeeps: makes the same assumption.
- HostRun.NodeConserves: makes the same assumption, and takes callers to be device fingerprints.
- HostRun.NodeKnowsItsFiles: makes the same assumptions.
- BatchLaws.BatchCommit: its per-destination clauses need the ids distinct and no destination at or above an earlier one's (BatchLaws.LaterDisplacesEarlier, BatchLaws.DuplicateIdEmpties); conservation does not.
- GcOps.CollectStaging: takes meta files with positive creation times (otherwise the age of whichever file is listed first decides) and staging directories without sub-directories, which no operation makes.
- Listing.ListingComplete: takes names as a POSIX file system has them; the mtime field of an entry is not modelled.
- ListedRestores.ListedRestoreAnswers: takes names without backslashes, as all stored names are; the path of any other is read differently by recycle.restore.
- Network.AdoptedWasMigrated: a message that no node of the network sent is not modelled.
- Fidelity.CommittedReadsBack: needs the batch's ids and destinations apart, as BatchLaws.BatchCommit does.
- Committing.CommittedIsRead: needs the same.
- Looking.ListLaw: takes directories to be read completely; the mtime field of an entry is not modelled.
- Looking.MetaLaw: the mtime field of the reply is not modelled.
- Deleting.DeleteThenRestore: is about deletes that overwrite nothing in the bin, at clock readings of ten digits or more.
- Malformed JSON on disk and requests with fields of the wrong type, including the conversion of numbers through f64: requests and files are taken already parsed.
- Symbolic links, permissions, short reads and writes, full disks: the file system has none.
- A chunk running at the same time as a commit of the same upload: operations are atomic steps, but for crashes.
- Crashes inside delete, restore, recycle.empty, purge and wipe: in runs these happen as a whole or not at all.
- admin_list: repeats list with a prefix put back.
- `remove_dir_all` as a sequence of removals, and the temporary files through which the JSON files under `.system` are replaced: each is one step.
- Table entries of a purged device stay behind in memory, as in the source; their commits then fail.
- Noise handshake, encryption, SHA-256 and key files: library cryptography; the hash is uninterpreted.
- WebSocket, HTTP, the admin pages, the command line, endpoint advertising, peer and session bookkeeping: input and output around the modelled steps.
- Seeding of files, the hash gate, retention and the client's journal: documented features without code in this repository.
