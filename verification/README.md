# Star 9: models and proofs

This project models the parts of Star 9 that are hardest to get right, in Dafny, and proves what they
promise:

- **The 9P2000.L bridge**: the binary codec, the server's fid table over any backing file system, the
  client that drives it through whole frames, extended attributes written and read in chunks,
  directories read in pages, and the asynchronous server that settles requests by tag.
- **Local-first sync**: the dirty map, push as a patch, pull as two ordered passes under two conflict
  policies, edits made while either is under way, and the debounce scheduler.
- **The deterministic network device**: connections, listeners, links and their byte queues, over every
  run of its commands.
- **Smaller kernels**: the date arithmetic of the S3 signer, compare-and-swap updates of directory
  listings, the multipart writer and parser, and the path algebra that sync and 9P rest on.

`dafny verify dfyconfig.toml` checks everything.

## How it is laid out

| area | modules, from the ground up |
|---|---|
| shared | `Wrappers`, `Bytes`, `Seqs`, `Decimals`, `Modes`, `Paths` |
| sync | `Tree`, `SyncPatch`, `SyncPull`, `SyncImport`, `SyncFs`, `EditLog`, `Scheduler` |
| 9P wire | `Codec`, `Unicode`, `Messages`, `Frames`, `Readdir`, `Layout`, `XattrNames` |
| 9P server | `XattrBuffer`, `FidTable`, `NineServer`, `ServerLaws`, `AsyncTags` |
| 9P client | `ClientPaths`, `ClientAnswers`, `ClientTransfers`, `NineClient` |
| device | `NetDevice` |
| kernels | `Calendar`, `Listing`, `ListingUpdates`, `Multipart`, `MultipartParser` |

What the program changes in place is a class whose methods are proved against functions on values;
protocols with several threads are state machines whose steps are the critical sections, and classes
whose methods are those steps. The backing of the 9P server is a record of operations on a state of any
type, so results about it hold for every file system.

## Model

| member | source | states |
|---|---|---|
| SyncFs.SyncFs.Pull | crates/star9-fs/src/syncfs.rs:272-343 | Under PreferRemote the local tree becomes the remote index and exactly the entries of `SurvivesPreferRemote` stay dirty. Under KeepLocal nothing that overlaps a dirty path changes, every path free of dirty ones ends as in the index, nothing is forgotten, and the conflicts kept are exactly the dirty paths in conflict (`ConflictMeans`). PreferRemote always succeeds. KeepLocal always succeeds on MemFs, and on LocalFs exactly when no remote path lies below a local file that overlaps a dirty path (`Importable`); where it succeeds the tree is well formed exactly when no path was imported below such a file (`Unblocked`). A dirty map that says what is there still does |
| SyncFs.SyncFs.Push | crates/star9-fs/src/syncfs.rs:244-270 | A push that succeeds forgets every entry; with a dirty map that describes the local tree it makes the remote agree at and under every upsert, leaves nothing at or under a removal, and changes nothing that is neither under nor above a dirty path. It succeeds when the transport does, no plain removal meets a directory with entries and, on a LocalFs remote, no removal lies below a file; a failure forgets nothing |
| SyncFs.SyncFs.Sync | crates/star9-fs/src/syncfs.rs:345-348 | A sync that succeeds ends with nothing dirty and equal trees, and its push part did what `Pushed` says |
| SyncFs.SyncFs.RenameEntry | crates/star9-fs/src/syncfs.rs:643-651 | A rename through the file system marks both paths and nothing below them; afterwards the dirty map says what is there exactly when `RenameFits` |
| SyncFs.SyncFs.RemoveEntry | crates/star9-fs/src/syncfs.rs:634-641 | A removal through the file system marks its path, recursive for a directory, and keeps a dirty map that says what is there |
| SyncFs.SyncFs.MakeDirectory | crates/star9-fs/src/syncfs.rs:628-632 | A directory made through the file system is marked, and a dirty map that says what is there still does |
| SyncFs.SyncFs.WriteContents | crates/star9-fs/src/syncfs.rs:611-626 | The same for contents written and closed |
| SyncFs.RenamedEditIsStuck | crates/star9-fs/src/syncfs.rs:643-651 | A run in which an edit below a directory, renamed afterwards, makes every push fail |
| SyncFs.RenameLosesFile | crates/star9-fs/src/syncfs.rs:643-651 | A dirty map, from a rename over a removed directory, whose patch deletes a file that is there locally, whatever the remote tree is |
| SyncFs.CleanPullMirrors | crates/star9-fs/src/syncfs.rs:272-343 | With nothing dirty, a pull under either policy can only end with the local tree equal to the index |
| SyncPatch.PushTheorem | crates/star9-fs/src/syncfs.rs:24-79 | Any patch with the elements that the dirty map calls for, in any order of the dirty paths, has the effect `Pushed` whenever applying it succeeds |
| SyncPatch.PushedAtPath | crates/star9-fs/src/syncfs.rs:24-79 | The effect of a push path by path: what is at or under an upsert agrees, nothing is at or under a removal, and what no dirty path lies above or below is as before |
| SyncPatch.DeleteEntrySucceeds | crates/star9-fs/src/syncfs.rs:1046-1057 | A removal is applied exactly when it is not of the root, not of a directory with entries unless recursive, and on LocalFs not below a file |
| SyncPatch.DeleteEntryEffect | crates/star9-fs/src/syncfs.rs:1046-1057 | An applied removal takes its path with everything below it and nothing else |
| SyncPatch.DirEntryEffect | crates/star9-fs/src/syncfs.rs:1059-1075 | A directory entry makes directories of its path and all above it, whatever was there, and nothing else |
| SyncPatch.FileEntryEffect | crates/star9-fs/src/syncfs.rs:1084-1098 | A file entry puts its contents at its path, directories above and nothing below, and nothing else |
| SyncPatch.PushSucceeds | crates/star9-fs/src/syncfs.rs:979-1148 | Applying the patch of a dirty map that describes the local tree succeeds when no plain removal names a remote directory that has entries and, on LocalFs, no file lies above a removed path on either side |
| SyncPatch.FileStopsRemoval | crates/star9-fs/src/syncfs.rs:1046-1057 | On LocalFs every patch that brings a file before it removes a path below that file fails, whatever the remote tree is |
| SyncPatch.ReplacedDirectoryIsStuck | crates/star9-fs/src/syncfs.rs:1046-1057 | The dirty map of a directory whose entry was removed and which then became a file: on LocalFs its patch fails on every remote tree |
| SyncPatch.BuildPatch | crates/star9-fs/src/syncfs.rs:358-370 | The patch has exactly the elements the dirty map calls for: whole subtrees for upserts, markers for removals; it exists exactly when every upserted path does |
| SyncPatch.ApplyPatch | crates/star9-fs/src/syncfs.rs:24-79 | The loop over the patch computes the fold of the entries, and fails exactly when the fold does |
| SyncImport.RunPasses | crates/star9-fs/src/syncfs.rs:282-321 | Both passes together leave what `Pulled` says, on each of the two file systems exactly when they can; under KeepLocal they keep local edits even when they fail half way, and record every dirty path that exists on a side |
| SyncPull.DeletePass | crates/star9-fs/src/syncfs.rs:282-302 | Going deepest first, exactly the local-only paths that the policy allows, with what lies under them, are gone, and exactly the dirty entries under deleted paths are cleared |
| SyncImport.ImportPass | crates/star9-fs/src/syncfs.rs:304-321 | Going shallowest first, every remote path is looked for and imported unless a conflict keeps the local one; under PreferRemote no import can fail, under KeepLocal one fails exactly when `Importable` does not hold for the kind of file system |
| SyncImport.EntryBelowFile | crates/star9-fs/src/lib.rs:1047-1085 | A pull on which the two file systems differ: LocalFs refuses it, and on MemFs every outcome has an entry below a file |
| SyncImport.ConflictStopsPull | crates/star9-fs/src/syncfs.rs:908-924 | A file edited locally where the remote has a directory with an entry: on LocalFs the pull that should keep the edit fails with nothing to import, on MemFs it succeeds |
| SyncPull.SyncPathFromRemote | crates/star9-fs/src/syncfs.rs:926-962 | One path is brought to the remote node, replacing files and directories of the other kind; on LocalFs it fails, changing nothing, exactly when a file lies above it, on MemFs it never fails and goes below that file |
| SyncImport.SurvivorsNameNothing | crates/star9-fs/src/syncfs.rs:882-906 | A dirty entry that survives a PreferRemote pull names nothing that was on either side, except the root, whose entry always survives |
| SyncImport.PulledAtPath | crates/star9-fs/src/syncfs.rs:272-343 | What a pull leaves at one path: the index, or under KeepLocal what was there when something dirty lies at, above or below it |
| SyncImport.StillDirty | crates/star9-fs/src/syncfs.rs:882-906 | What a pull leaves dirty: everything under KeepLocal; under PreferRemote what lies neither under a deleted path, nor at an imported directory, nor at or under an imported file |
| SyncImport.ConflictMeans | crates/star9-fs/src/syncfs.rs:833-870 | Which dirty paths conflict with a path of either side: those at, above or below it, but only those at or above a directory that is one on both sides |
| SyncImport.StoppedByFile | crates/star9-fs/src/syncfs.rs:304-321 | On LocalFs a pull that keeps local edits is stopped exactly by a file above a remote path that overlaps a dirty path |
| SyncPull.PathContainsIsTheTextTest | crates/star9-fs/src/syncfs.rs:823-831 | Containment on component lists is the string test of the program, for all valid paths, with the root containing only itself |
| Tree.MkdirAll | crates/star9-fs/src/lib.rs:328-345 | Creates a path and all missing directories above it; on LocalFs it fails, changing nothing, exactly when a file is in the way, on MemFs it creates below that file |
| Tree.RemoveAll | crates/star9-fs/src/lib.rs:347-372 | Deletes a path with everything below it, children first, and nothing else; the root loses its contents and stays |
| Tree.RenameSucceeds | crates/star9-fs/src/lib.rs:1100-1135 | When MemFs renames: onto itself always; otherwise something that is there, into a directory, not over a directory with entries |
| EditLog.NoEditIsLost | crates/star9-fs/src/syncfs.rs:244-343 | In every interleaving of marks with the phases of pushes and pulls, each edit ever made is still dirty, superseded by a later one of its path, part of an applied snapshot, or overruled by a pull in which the remote wins; never the last when local edits win |
| EditLog.CleanMeansSettled | crates/star9-fs/src/syncfs.rs:263-343 | When nothing is dirty, the last edit of every path was applied remotely or, only under PreferRemote, overruled |
| EditLog.PullForgetsExactly | crates/star9-fs/src/syncfs.rs:323-334 | The end of a pull forgets an edit exactly when the passes cleared that edit of the snapshot; one marked since stays dirty |
| EditLog.PushForgetsExactly | crates/star9-fs/src/syncfs.rs:263-270 | The end of a push forgets an edit exactly when the snapshot that was sent had it |
| EditLog.UndisturbedPush | crates/star9-fs/src/syncfs.rs:244-270 | A push with no edit in between sends all that is dirty and leaves nothing dirty; one that fails leaves all |
| EditLog.ContentsSurvive | crates/star9-fs/src/syncfs.rs:272-334 | In every run, an edit that is there when the passes run stays dirty exactly when local edits win or it missed the snapshot, and what is at its path survives exactly when local edits win and the snapshot overlaps the path, or the remote has the same |
| EditLog.LateEditLosesItsContents | crates/star9-fs/src/syncfs.rs:275-334 | A concrete history under KeepLocal in which a file written and marked after the snapshot is deleted by the passes while its edit stays dirty |
| Scheduler.PendingClearsOnlyAfterSync | crates/star9-fs/src/syncfs.rs:427-482 | In every interleaving, pending becomes false only when an attempt finishes whose sync succeeded and began after the latest request |
| Scheduler.OneFailurePerRequest | crates/star9-fs/src/syncfs.rs:524-564 | In every interleaving the background worker makes at most one failing attempt per request serial |
| Scheduler.WorkerStartsOnlyWhenDue | crates/star9-fs/src/syncfs.rs:427-451 | In every run, an attempt is started exactly when the debounce after the latest request is over, or its time alone if the sum is beyond the clock, and no attempt since has succeeded; by the background worker also only when it is idle and no attempt since has failed |
| Scheduler.DebouncedSyncScheduler.WorkerLooks | crates/star9-fs/src/syncfs.rs:536-560 | One look of the worker goes on exactly when there is a request that has not failed and whose debounce, in numbers, is over |
| Scheduler.DebouncedSyncScheduler.CaptureDue | crates/star9-fs/src/syncfs.rs:427-440 | A foreground run starts exactly when there is a request whose debounce, in numbers, is over |
| Scheduler.EveryRun | crates/star9-fs/src/syncfs.rs:386-482 | The invariant behind these three holds in every interleaving of request, run, flush, worker and completion steps |
| Scheduler.AttemptsRunThrough | crates/star9-fs/src/syncfs.rs:442-482 | A flush always starts an attempt, and an attempt that was started runs through its steps and reports its outcome |
| NetDevice.Drive | crates/star9-runtime/src/devices.rs:793-1320 | Any sequence of commands keeps the invariant: the registry is exactly the listening connections, endpoints exist exactly when connected, open links are cross-wired and mirrored, no end is installed twice, dialers wait at a listener in the order in which they dialed, and per direction written bytes are read bytes followed by queued ones |
| NetDevice.LinksAreMirrored | crates/star9-runtime/src/devices.rs:887-916 | In every state that the commands reach, two connections with the two ends of an open link are both Connected, mirror each other's addresses, and each has read a prefix of what the other wrote; and no end is installed at two connections |
| NetDevice.RefusedAnnounceSticks | crates/star9-runtime/src/devices.rs:1047-1085 | A connection refused a taken address has it nevertheless: it then dials the listener from the listener's own address |
| NetDevice.NetDevice.Bind | crates/star9-runtime/src/devices.rs:1009-1045 | Binding moves to Bound from Idle, Closed, or Bound to the same address, and is refused otherwise with only the error recorded |
| NetDevice.NetDevice.Announce | crates/star9-runtime/src/devices.rs:1047-1085 | Announcing registers the address and listens, exactly when the address is free and the phase allows it; otherwise it records the error, or for an address in use overwrites the local address |
| NetDevice.NetDevice.Dial | crates/star9-runtime/src/devices.rs:1087-1135 | Dialling a listener makes a fresh link, connects the caller with its address, or the next automatic one, and puts the other end at the back of the listener's queue; without a listener nothing changes, and a connection in use only records the error |
| NetDevice.NetDevice.AcceptOne | crates/star9-runtime/src/devices.rs:1137-1158 | Accepting takes the oldest offer, whose link is lower than that of every offer still waiting there, and makes one new Connected connection that mirrors the dialler |
| NetDevice.NetDevice.Hangup | crates/star9-runtime/src/devices.rs:1160-1187 | Hanging up closes the link for both ends, releases the listener's address and drops its waiting dialers; nothing else changes |
| NetDevice.NetDevice.Read | crates/star9-runtime/src/devices.rs:1293-1306 | A read takes bytes from the front of the inbound queue and moves them to the history of received bytes |
| NetDevice.NetDevice.Write | crates/star9-runtime/src/devices.rs:1308-1320 | A write appends to the peer's queue exactly when the link is open |
| AsyncTags.EveryRun | crates/star9-protocol/src/p9.rs:1606-1672 | In every interleaving `pending` is exactly the accepted unsettled requests, each is settled once, and replies are enqueued at most once and only for claimed requests |
| AsyncTags.CancelledStaysSilent | crates/star9-protocol/src/p9.rs:1606-1672 | A request cancelled while pending, by a flush or a duplicate tag, never has its reply enqueued in any continuation |
| AsyncTags.LateWorkerIsHarmless | crates/star9-protocol/src/p9.rs:1637-1660 | A worker that decides while a newer request has its tag makes no difference in any continuation: same pending entries, settlements and replies, its own not among them |
| AsyncTags.PendingEntriesAreLive | crates/star9-protocol/src/p9.rs:1641-1653 | A pending entry's cancellation flag is never set and its worker has not decided |
| AsyncTags.StepsTakeEffect | crates/star9-protocol/src/p9.rs:1606-1672 | In every run: a request under a free tag becomes pending, under a taken one it is dropped and the pending one cancelled; a worker that finds its entry claims it; a claimed reply goes to the back of the queue and replies leave from its front |
| AsyncTags.HistoryGrows | crates/star9-protocol/src/p9.rs:1654-1672 | Settlements and enqueued replies are never revised |
| AsyncTags.AsyncNinePServer.WorkerDecides | crates/star9-protocol/src/p9.rs:1641-1653 | The decision under the lock is one step of the protocol and keeps the invariant |
| Frames.RequestRoundTrip | crates/star9-protocol/src/p9.rs:312-598 | Every request that encodes decodes to itself under its tag |
| Frames.RequestReencodes | crates/star9-protocol/src/p9.rs:491-598 | Every frame that decodes as a request is the encoding of what it decodes to, byte for byte |
| Frames.ResponseRoundTrip | crates/star9-protocol/src/p9.rs:599-736 | Every response that encodes decodes to itself under its tag |
| Frames.ResponseReencodes | crates/star9-protocol/src/p9.rs:680-736 | Every frame that decodes as a response is the encoding of what it decodes to, byte for byte |
| Frames.StreamRoundTrip | crates/star9-protocol/src/p9.rs:1531-1557 | Reading a concatenation of in-bound frames gives the frames in order and then the end of the stream |
| Frames.StreamReencodes | crates/star9-protocol/src/p9.rs:1531-1557 | A stream that reads cleanly is exactly the concatenation of its in-bound frames |
| Frames.BrokenStreams | crates/star9-protocol/src/p9.rs:1531-1557 | A stream that breaks off inside a frame ended too early, and a size no frame can have is an error at once |
| Frames.EncodedFramesAreInBound | crates/star9-protocol/src/p9.rs:1698-1710 | An encoded frame can go on a stream exactly when it is at most 64 KiB long |
| Frames.DecodeRequestFrame | crates/star9-protocol/src/p9.rs:491-598 | The cursor-driven decoder succeeds exactly when the frame decodes, with the same result; `Layout` says in bytes what that is |
| Layout.RequestHeader | crates/star9-protocol/src/p9.rs:312-331 | A frame that encodes or decodes to a request has its length in bytes 0 to 3, the type code in byte 4, the tag in bytes 5 and 6, and then the fields |
| Layout.ResponseHeader | crates/star9-protocol/src/p9.rs:599-612 | The same for answers |
| Layout.FidRequestsLayout | crates/star9-protocol/src/p9.rs:312-489 | The type code and, byte by byte, the fields of the version, attach, walk, open, create, clunk, remove and flush requests |
| Layout.DataRequestsLayout | crates/star9-protocol/src/p9.rs:312-489 | The same for read, write, readdir, getattr, xattrwalk, xattrcreate, readlink and fsync requests |
| Layout.TreeRequestsLayout | crates/star9-protocol/src/p9.rs:312-489 | The same for mkdir, link, renameat, unlinkat and symlink requests |
| Layout.SetAttrLayout | crates/star9-protocol/src/p9.rs:312-489 | The same for a request to set attributes |
| Layout.FidResponsesLayout | crates/star9-protocol/src/p9.rs:599-678 | The same for error, version, walk, xattr and release answers |
| Layout.DataResponsesLayout | crates/star9-protocol/src/p9.rs:599-678 | The same for answers with data, and those with nothing |
| Layout.QidResponsesLayout | crates/star9-protocol/src/p9.rs:599-678 | The same for answers that start with a qid |
| Layout.AttrFieldsLayout | crates/star9-protocol/src/p9.rs:599-678 | The same for the twenty attributes of an answer |
| Layout.LowByteFirst | crates/star9-protocol/src/p9.rs:789-801 | Numbers of one, two, four and eight bytes have their low byte first |
| Layout.DirentLayout | crates/star9-protocol/src/p9.rs:738-761 | A directory entry is its qid, its cursor, its type code and its name |
| Layout.WalkFrame | crates/star9-protocol/src/p9.rs:505-514 | One walk request in full: its twenty bytes and what they decode to |
| Layout.WalkedFrame | crates/star9-protocol/src/p9.rs:599-678 | One answer to a walk in full |
| Layout.PartsLayout | crates/star9-protocol/src/p9.rs:801-854 | Strings and lists have their length or count in front, qids are type, version and path |
| Layout.RefusedFrames | crates/star9-protocol/src/p9.rs:491-598 | A frame too short, of the wrong length or of a type that is not served is refused |
| Layout.EncodesWhen | crates/star9-protocol/src/p9.rs:789-854 | A message is encoded exactly when its numbers, lengths and counts fit their fields and the frame is shorter than 4 GiB |
| Unicode.Utf8MeansText | crates/star9-protocol/src/p9.rs:856-966 | The text test accepts exactly the bytes of sequences of Unicode characters |
| Frames.EncodeRequestFrame | crates/star9-protocol/src/p9.rs:312-489 | The growing buffer ends as the encoding, byte by byte as `Layout` says, and a length that does not fit its field fails |
| Messages.RequestFieldsBack | crates/star9-protocol/src/p9.rs:491-598 | Well-formed fields of a request type are the fields of the request built from them |
| Codec.TakeFieldsInverts | crates/star9-protocol/src/p9.rs:856-966 | Taking the fields of any kinds from their encoding followed by anything gives the fields and the rest |
| Codec.TakeFieldsSound | crates/star9-protocol/src/p9.rs:856-966 | What is taken from any bytes re-encodes to the bytes consumed |
| FidTable.EveryRunIsSound | crates/star9-protocol/src/p9.rs:1096-1525 | After any sequence of requests every fid names a clean, valid path, and pending attribute values are well formed and committed only when complete |
| FidTable.WalkAllStaysInside | crates/star9-protocol/src/p9.rs:2628-2648 | No walk, with any number of "..", leads outside the exported tree |
| FidTable.WalkAllOnComponents | crates/star9-protocol/src/p9.rs:2628-2648 | A walk is the fold of its names over path components in which ".." at the root stays there |
| FidTable.ErrorsChangeNothing | crates/star9-protocol/src/p9.rs:1096-1525 | Over any run of requests that are all answered with errors, the table loses exactly the fids of Tclunk and Tremove and is otherwise as it was |
| FidTable.OtherFidsStay | crates/star9-protocol/src/p9.rs:1170-1382 | Over any run, a live fid stays exactly what it was until a request names it as the fid to bind, open, write or release |
| NineServer.NinePServer.Handle | crates/star9-protocol/src/p9.rs:1096-1168 | Every request, on any backing, keeps the table sound and does to table, backing and answer what `Served` says, which is spelled out request by request in `ServerLaws` |
| ServerLaws.OneAttribute | crates/star9-protocol/src/p9.rs:1250-1281 | A request for one attribute is exactly one change: size, permission bits, owner or group with the other as it is, or the time |
| ServerLaws.AttributesInOrder | crates/star9-protocol/src/p9.rs:1250-1281 | Several attributes go in the order size, mode, owner and group, time; each change sees what the one before left, and the first failure ends the request |
| ServerLaws.FileRequests | crates/star9-protocol/src/p9.rs:1202-1229 | What opening and creating ask of the backing, with which flags and mode, and what they answer and bind |
| ServerLaws.DataRequests | crates/star9-protocol/src/p9.rs:1326-1359 | What reading, writing and syncing ask of the backing and answer, for every kind of fid |
| ServerLaws.ValueRequests | crates/star9-protocol/src/p9.rs:1477-1510 | A pending attribute value is written once when complete, refused when not, and never written again after a sync |
| ServerLaws.ReleaseRequests | crates/star9-protocol/src/p9.rs:1361-1391 | Clunk and remove release the fid, close an open file, and remove exactly this path but never the root |
| ServerLaws.TreeRequests | crates/star9-protocol/src/p9.rs:1393-1475 | Each request that changes the tree is one change with exactly these paths, or none, and its answer |
| ServerLaws.LookRequests | crates/star9-protocol/src/p9.rs:1231-1248 | Readlink, getattr and readdir change nothing and answer what the backing says |
| ServerLaws.FidRequests | crates/star9-protocol/src/p9.rs:1096-1118 | Version, attach, flush and the attribute walks: what they bind and answer |
| ServerLaws.WalkRequests | crates/star9-protocol/src/p9.rs:1170-1200 | A walk binds exactly where its names lead as far as they resolve, and stops before the first that does not |
| ServerLaws.WalkQids | crates/star9-protocol/src/p9.rs:1170-1200 | The qid of each step of a walk is that of where the step leads |
| ServerLaws.UnknownFids | crates/star9-protocol/src/p9.rs:1096-1525 | A request about a fid that is not bound is refused and changes nothing |
| ServerLaws.ListedEntry | crates/star9-protocol/src/p9.rs:1409-1425 | An entry of a listing is examined under its directory and numbered from one |
| ServerLaws.FlagsPassedOn | crates/star9-protocol/src/p9.rs:2609-2626 | The flags of an open that reach the backing, bit by bit |
| ServerLaws.ErrorNumbers | crates/star9-protocol/src/p9.rs:2669-2700 | The number sent for each kind of error and the kind the client takes it for: all but two come back |
| ServerLaws.UnknownNumbers | crates/star9-protocol/src/p9.rs:2685-2700 | A number the client does not know is some other error |
| ServerLaws.AttributesAnswered | crates/star9-protocol/src/p9.rs:2510-2545 | The attributes answered, one by one |
| ServerLaws.EntryCodes | crates/star9-protocol/src/p9.rs:2481-2583 | Type bits of qids and type codes of directory entries |
| NineServer.NinePServer.HandleFrame | crates/star9-protocol/src/p9.rs:1086-1094 | A frame that does not decode changes nothing; any other is answered under its tag, errors by number |
| NineServer.Resolve | crates/star9-protocol/src/p9.rs:1170-1200 | The names that resolve, one by one, give these qids and this path; the walk fails only at its first name or at a name no walk may contain |
| Readdir.PackedPage | crates/star9-protocol/src/p9.rs:1409-1431 | What the packing loop makes is a run of entries from the cursor on within the limit; from a cursor within what can be delivered it is exactly the page, or the error of an entry that cannot be examined when the room would have lasted to it |
| XattrBuffer.RecordWrite | crates/star9-protocol/src/p9.rs:1035-1062 | Merging keeps the ranges sorted, non-empty and apart, and they cover exactly what was covered and the new range |
| XattrBuffer.NormalIsUnique | crates/star9-protocol/src/p9.rs:1035-1062 | A list of ranges in that form is determined by the bytes it covers |
| XattrBuffer.CompleteIffAllWritten | crates/star9-protocol/src/p9.rs:1027-1033 | The completeness test holds exactly when every byte of the declared size was written |
| XattrBuffer.WriteChunks | crates/star9-protocol/src/p9.rs:1013-1062 | For any chunks in any order, every position holds the byte of the latest accepted chunk that covers it, and the buffer is complete exactly when each position has one |
| XattrNames.NamesRoundTrip | crates/star9-protocol/src/p9.rs:2585-2607 | A list of names without zero bytes is read back, sorted |
| XattrNames.SortNamesSorts | crates/star9-protocol/src/p9.rs:2585-2594 | Sorting orders the names and keeps each as often as it came |
| XattrNames.LessEqIsLexicographic | crates/star9-protocol/src/p9.rs:2585-2594 | The order of names is by the first byte that differs, the shorter first |
| XattrNames.NamesLayout | crates/star9-protocol/src/p9.rs:2585-2594 | Each name in the value is ended by a zero byte |
| XattrNames.UnendedNames | crates/star9-protocol/src/p9.rs:2596-2607 | A list of names that does not end with a zero byte is refused |
| NineClient.NinePClient.Call | crates/star9-protocol/src/p9.rs:1814-1835 | One exchange of whole frames: the caller hears the outcome on the server, or an error when a message does not fit its frame |
| NineClient.NinePClient.WalkPath | crates/star9-protocol/src/p9.rs:1841-1862 | A walk binds a fresh fid to exactly this path, exactly when every directory on the way and the path are there; otherwise the table is as before |
| NineClient.NinePClient.Stat | crates/star9-protocol/src/p9.rs:2001-2009 | Succeeds exactly when the path can be reached and examined, gives the backing's metadata unchanged, and leaves the fid table as it was |
| NineClient.NinePClient.SetAttrs | crates/star9-protocol/src/p9.rs:1897-1906 | Runs the attribute changes on the backing once, as `ServerLaws` says, or nothing when the path cannot be reached; the fid table stays |
| NineClient.NinePClient.SetMode | crates/star9-protocol/src/p9.rs:2166-2175 | Asks for exactly one chmod with these permission bits, exactly when the path can be reached, and succeeds exactly when the backing does |
| NineClient.NinePClient.SetOwner | crates/star9-protocol/src/p9.rs:2177-2187 | The same for owner and group, once the path has been looked at |
| NineClient.NinePClient.SetSize | crates/star9-protocol/src/p9.rs:2202-2211 | The same for the size |
| NineClient.NinePClient.SetTime | crates/star9-protocol/src/p9.rs:2189-2199 | The same for the time of the last modification |
| NineClient.NinePClient.Mkdir | crates/star9-protocol/src/p9.rs:2082-2101 | Makes exactly this directory once, exactly when its parent can be reached and its name sent, and reports success exactly when that succeeded and the directory can be examined; the fid table stays |
| NineClient.NinePClient.Remove | crates/star9-protocol/src/p9.rs:2103-2122 | Asks the backing once, exactly when path and parent can be reached, the path is not the root, and a directory is empty, and succeeds exactly when the backing then does; the fid table stays in any case |
| NineClient.NinePClient.Symlink | crates/star9-protocol/src/p9.rs:2213-2228 | Makes exactly this link once, exactly when the parent can be reached and the names sent, and reports success exactly when that succeeded and the link can be examined; the fid table stays |
| NineClient.NinePClient.Readlink | crates/star9-protocol/src/p9.rs:2230-2241 | Succeeds exactly when the path is reached, has a target and the target fits a string field; the fid table stays |
| NineClient.NinePClient.Rename | crates/star9-protocol/src/p9.rs:2124-2142 | Renames exactly once, exactly when both parents are reached and both names can be sent, and succeeds exactly when the backing then does; the fid table stays except that a first walk is left bound when only the second fails |
| NineClient.NinePClient.Link | crates/star9-protocol/src/p9.rs:2144-2164 | The same for links: one change, and the exact case in which a fid stays behind |
| NineClient.RenameLeaks | crates/star9-protocol/src/p9.rs:2124-2142 | A concrete rename that fails and leaves one more fid in the table |
| NineClient.NinePClient.SetXattr | crates/star9-protocol/src/p9.rs:2243-2258 | For every value and every frame size the backing gets exactly this value once and its answer is the result, exactly when the path is reached and the name fits; otherwise it gets nothing; the fid table stays |
| NineClient.NinePClient.GetXattr | crates/star9-protocol/src/p9.rs:2260-2268 | Returns every byte of the value, exactly when the path is reached, the name fits and the value exists; the read loop ends and the fid table stays |
| NineClient.NinePClient.ListXattrs | crates/star9-protocol/src/p9.rs:2270-2280 | Returns the names, sorted, when none contains a zero byte; the fid table stays |
| NineClient.NinePClient.SetThenGet | crates/star9-protocol/src/p9.rs:2243-2268 | On a backing that keeps what it is given, a value that was set is read back byte for byte |
| NineClient.NinePClient.WriteAllFid | crates/star9-protocol/src/p9.rs:1964-1988 | The chunk loop always gets the whole value across, and no Twrite frame is longer than the negotiated size, or 24 when that is smaller |
| NineClient.NinePClient.ReadAllFid | crates/star9-protocol/src/p9.rs:1934-1962 | The read loop ends with exactly the value |
| NineClient.NinePClient.ReadDir | crates/star9-protocol/src/p9.rs:2015-2022 | Opens, lists and closes; the fid table stays, and the result is exactly that of the listing: the entries before the first that cannot be examined or is too long for a page, and an error if it is the former |
| NineClient.NinePClient.ReadEntries | crates/star9-protocol/src/p9.rs:2401-2444 | The page loop ends for every directory and page size, with the entries up to the first that does not fit a page of its own, or with the error of an entry that cannot be examined if that comes first |
| NineClient.LongNameHidesAll | crates/star9-protocol/src/p9.rs:2401-2444 | A directory of two files, the first with a name of 65500 bytes, is listed as empty without an error |
| ClientTransfers.CompleteListing | crates/star9-protocol/src/p9.rs:2401-2444 | A listing that succeeds shows the first entries, each once, in server order, with name and kind; and all of them exactly when each can be examined and fits a page |
| ClientAnswers.DataFramesFit | crates/star9-protocol/src/p9.rs:1934-1988 | The Twrite or Rread frame of an exchange is within the size the request was made for |
| Readdir.DecodeDirentsInverts | crates/star9-protocol/src/p9.rs:738-761 | Encoded entries decode to themselves |
| Readdir.NextPage | crates/star9-protocol/src/p9.rs:1409-1431 | From any cursor the page decodes to the next entries, and to none exactly when everything deliverable has been delivered; it fails only with the error of the whole listing |
| Readdir.EverythingListed | crates/star9-protocol/src/p9.rs:1409-1431 | Nothing is left out exactly when every entry can be examined and fits a page |
| Readdir.LongEntryHidesTheRest | crates/star9-protocol/src/p9.rs:1409-1431 | The first entry that fits no page ends the listing before it, without an error and whatever follows |
| Paths.CleanPath | crates/star9-core/src/lib.rs:378-399 | The stack loop computes the clean form |
| Paths.CleanIsValid | crates/star9-core/src/lib.rs:378-410 | Cleaning any text gives a valid path, and cleaning again changes nothing |
| Paths.CleanStep | crates/star9-core/src/lib.rs:378-399 | What cleaning does with one more piece: "" and "." change nothing, ".." takes the last component away if there is one, anything else is added |
| Paths.CleanPiece | crates/star9-core/src/lib.rs:378-399 | The same for a path of one piece |
| Paths.PathLayout | crates/star9-core/src/lib.rs:378-399 | The root is written ".", other paths are their components with slashes in between |
| ClientPaths.ClientPathTakes | crates/star9-protocol/src/p9.rs:1771-1790 | The client takes exactly the names that are not empty, not absolute and have no ".." among their pieces, and cleans them |
| Paths.PathsAreComponents | crates/star9-core/src/lib.rs:401-410 | Lists of valid components are valid paths, and are read back from them |
| Paths.ParentDropsLast | crates/star9-core/src/lib.rs:412-426 | The parent of a path drops its last component, which is its base name |
| Paths.WalkJoinStaysInside | crates/star9-protocol/src/p9.rs:2628-2648 | Walking one name pushes or pops a component and never climbs above the root |
| Calendar.ConversionIsRight | crates/star9-fs/src/s3_signer.rs:272-284 | The date is valid and inverts the plain sum of year and month lengths since 1970-01-01, exactly for the days whose year fits 32 bits |
| Calendar.NextDayNextDate | crates/star9-fs/src/s3_signer.rs:272-284 | The next day number gives the next date of the calendar |
| Calendar.EveryDateIsReached | crates/star9-fs/src/s3_signer.rs:272-284 | Every valid date whose year fits is the conversion of its day number |
| Calendar.FirstDay | crates/star9-fs/src/s3_signer.rs:272-284 | Day 0 is 1 January 1970 |
| Calendar.CalendarRules | crates/star9-fs/src/s3_signer.rs:272-284 | The rules the conversion is held against: leap years, lengths of months, order of days |
| Listing.ListingRoundTrip | crates/star9-fs/src/lib.rs:2386-2407 | A listing is read back from its text exactly when all its names are free of white space and all its modes are of directories, links or regular files |
| Listing.ModeRoundTrip | crates/star9-fs/src/lib.rs:3353-3367 | A mode is read back from its decimal form exactly for those three kinds |
| Listing.ListingLayout | crates/star9-fs/src/lib.rs:2395-2416 | A listing has one line for each entry: name, blank, Unix mode in decimal |
| Listing.LastLineCounts | crates/star9-fs/src/lib.rs:2386-2396 | Of several lines about a name the last counts |
| Modes.ModeNumbers | crates/star9-core/src/lib.rs:145-158 | The Unix numbers of the kinds, with the permissions below them |
| Modes.OtherNumbers | crates/star9-protocol/src/p9.rs:2556-2565 | A number of an unknown kind is taken for a regular file |
| Listing.SpaceSplitsName | crates/star9-fs/src/lib.rs:2386-2407 | An entry whose name is two words, the second no number, is read back as a regular file under the first word |
| ListingUpdates.EveryRun | crates/star9-fs/src/lib.rs:2068-2098 | With any number of writers in any interleaving of reads and swaps, the listing is the initial one with the successful updates applied in the order of their swaps, each once; writers that failed changed nothing |
| ListingUpdates.LastUpdateWins | crates/star9-fs/src/lib.rs:2068-2098 | At any moment of any run, an entry is listed exactly when the last successful update of its name put it there, or, without one, when it was listed at the start |
| ListingUpdates.UndisturbedSucceeds | crates/star9-fs/src/lib.rs:2077-2094 | In any run a writer that reads and swaps undisturbed succeeds; on a missing parent other than the root the read fails |
| ListingUpdates.NextListing | crates/star9-fs/src/lib.rs:2082-2090 | The object swapped in says the updated listing exactly when the new name and mode can be listed: the name has the new mode, or none after a deletion, and every other entry is as before |
| ListingUpdates.ConflictMeansProgress | crates/star9-fs/src/lib.rs:2077-2094 | In every run on an existing parent, a writer that gave up was beaten by three successful swaps of others, and a swap that is about to fail was overtaken since its read |
| ListingUpdates.FewWritersSucceed | crates/star9-fs/src/lib.rs:2077-2094 | In every run on an existing parent with at most three writers, none ever gives up |
| ListingUpdates.MissingParentStaysMissing | crates/star9-fs/src/lib.rs:2078-2082 | On a missing parent, the root included, no update ever succeeds |
| ListingUpdates.MissingRootFails | crates/star9-fs/src/lib.rs:2077-2098 | A lone writer on a missing root fails three times and gives up |
| ListingUpdates.ListingWriters.Drive | crates/star9-fs/src/lib.rs:2068-2098 | The steps as they run on the store follow the protocol |
| ListingUpdates.InMemoryObjectStore.CompareAndSwap | crates/star9-fs/src/lib.rs:1968-1987 | The object changes exactly when it equals what was expected, and no other key changes |
| Multipart.MultipartWriter.WriteAll | crates/star9-fs/src/http_server.rs:198-216 | The buffer grows by every part in order and the closing delimiter |
| MultipartParser.MultipartRoundTrip | crates/star9-fs/src/lib.rs:3277-3306 | What the server writes is read back, part by part and in order, exactly when no line of any body starts with the delimiter and every part without headers has an empty body, for parts whose headers, if any, are one-line and trimmed, and a one-line boundary |
| Multipart.WrittenLayout | crates/star9-fs/src/http_server.rs:198-216 | The bytes of a body: delimiters, header lines, blank lines and the closing dashes |
| Multipart.LastHeaderCounts | crates/star9-fs/src/lib.rs:3470-3478 | A header's value is looked up under its key, and of several the last counts |
| Multipart.HeaderLineSays | crates/star9-fs/src/lib.rs:3472-3477 | A header line is split at its first colon and trimmed; a line without one is passed over |
| MultipartParser.ParseMultipart | crates/star9-fs/src/lib.rs:3277-3306 | The cursor loop ends for every body and boundary and computes the parse |
| MultipartParser.FindBodyEnd | crates/star9-fs/src/lib.rs:3482-3497 | The search loop finds the first delimiter at the start of a line |
| MultipartParser.HeaderlessPartFails | crates/star9-fs/src/lib.rs:3451-3480 | A part without headers and with the body "x" makes the whole response refused |
| MultipartParser.EmptyPartComesBack | crates/star9-fs/src/lib.rs:3451-3480 | A part without headers and without a body is read back |
| MultipartParser.LineStyles | crates/star9-fs/src/lib.rs:3443-3449 | Lines of a body may end with a line feed alone |
| MultipartParser.HeadersEndFirst | crates/star9-fs/src/lib.rs:3451-3468 | The headers end at the first empty line of either style |
| MultipartParser.BodiesWithoutParts | crates/star9-fs/src/lib.rs:3277-3290 | A body without the delimiter is refused, one that only closes has no parts |
| MultipartParser.AsParsedPartByPart | crates/star9-fs/src/lib.rs:3277-3306 | Parts come back in order, each with its own body and headers |
| Multipart.TrimDrops | crates/star9-fs/src/lib.rs:3470-3478 | White space goes from the ends of a header's words |

## Findings

Where the code does not do what one would expect, the model follows the code and says exactly when.

- A rename or link over 9P whose first walk succeeds and whose second fails leaves the first fid bound in
  the server (p9.rs:2127-2128): `NineClient.NinePClient.Rename` and `Link` say exactly when,
  `NineClient.RenameLeaks` gives one.
- An edit made after a pull took its snapshot and before its passes reach the path stays dirty, but the
  passes may overwrite or delete what it wrote, under either policy (syncfs.rs:275-334):
  `EditLog.ContentsSurvive` says exactly when, `EditLog.LateEditLosesItsContents` gives an example.
- The root's dirty entry is never cleared by a pull in which the remote wins:
  `SyncImport.SurvivorsNameNothing`.
- A pull that keeps local edits meets a remote path below a local file that must stay. On LocalFs looking for
  it is an error (lib.rs:1362-1364, star9-core/src/lib.rs:62), and the pull fails at every later try, even
  when the path itself is in conflict and would not be imported. MemFs only asks whether the parent exists
  (lib.rs:1052-1055, 1073-1076), so there the pull succeeds and puts the path below the file:
  `SyncImport.Importable` and `Unblocked` say exactly when, `EntryBelowFile` and `ConflictStopsPull` give an
  example of each.
- Renaming a directory marks the two paths and nothing below them (syncfs.rs:643-651). An unpushed edit below
  the old place makes every later push fail: `SyncFs.RenamedEditIsStuck`. An unpushed removal below the new
  place deletes what was moved there, on both sides: `SyncFs.RenameLosesFile`. And MemFs lets a path that does
  not exist be renamed to itself (lib.rs:1107-1109), which is marked all the same and stops pushes too.
  `SyncFs.RenameFits` says exactly when the dirty map still says what is there.
- A push to LocalFs fails for good once the dirty map holds a removal below what is now a file
  (syncfs.rs:1046-1049): `SyncPatch.FileStopsRemoval`, with an ordinary history in `ReplacedDirectoryIsStuck`.
- A directory entry too long for a page of its own ends the listing without an error, and hides all entries
  after it: `Readdir.LongEntryHidesTheRest`, with a run in `NineClient.LongNameHidesAll`. An entry that cannot
  be examined is an error instead, unless a long one comes before it.
- Updating the listing of a missing root never succeeds, although the code provides for it (lib.rs:2080):
  `ListingUpdates.MissingParentStaysMissing`, with a lone writer in `MissingRootFails`.
- A file whose name contains white space, or a pipe or socket, corrupts its parent's listing:
  `ListingUpdates.NextListing`, with what becomes of a name of two words in `Listing.SpaceSplitsName`.
- A multipart part without headers is read back exactly when its body is empty, since the blank line
  is looked for behind the line end of the delimiter: `MultipartParser.MultipartRoundTrip`, with an input each in
  `HeaderlessPartFails` and `EmptyPartComesBack`.
- A failed announce for an address in use overwrites the local address of the connection:
  `NetDevice.NetDevice.Announce` says exactly when, `NetDevice.RefusedAnnounceSticks` gives a run.
- A partial walk binds the new fid to the part that resolved (p9.rs:1180-1198), where walk(5) of the Plan 9
  manual leaves it unbound; a Tversion leaves all fids in place, where version(5) clears them.

## Left out

- The tar form of a patch: a patch is a list of directory, file and delete entries.
- Modes, owners, times, extended attributes and symbolic links in the sync trees, and names that start
  with `#`, which listings hide. File operations of a tree are those of a finite map from paths to
  directories and contents, as `Tree.FileTree` states them for LocalFs and MemFs; of the places where these
  two differ only those below a file are modelled, and the other file systems are not. Neither is asked here
  to delete its root (LocalFs would) or to write over a directory (MemFs would).
- The order in which maps iterate in sync: any order is allowed, so the results hold for the program's.
- SyncFs.SyncFs.RenameEntry: renaming on LocalFs, which leaves it to the host; links, attributes and open
  file handles of `SyncFs` (an edit through a handle is marked when it is closed).
- Changes to the local tree between the individual steps of a pull's passes: in `EditLog` the passes are one
  step.
- Generations and identifiers are unbounded; the request serial of the scheduler is bounded as in the source
  and its results hold before it wraps.
- SyncFs.SyncFs.Pull: a failure of the local file system other than a file in the way is not modelled, and
  what later pulls and pushes do with a MemFs tree that has entries below a file is not stated.
- Addresses and commands of the network device reach the model trimmed.
- The transport between client and server: frames are handed over in the same process, as the loopback
  transport does. Threads, condition variables, sockets and clocks are steps and inputs.
- NineClient.NinePClient.SetXattr: a value is at most 2^64 - 1 bytes, as its length field requires; the fid
  counter must not wrap, as for every client operation.
- NineClient.NinePClient.ReadDir: names of the backing are well-formed text and a listing has fewer than
  2^64 entries, as the program's types ensure.
- Open files of the client after the call that opened them (read, write, seek at an offset); they add nothing
  to the exchanges already modelled.
- The hash that makes qid paths is an operation of the backing record.
- What replaces malformed UTF-8 in multipart headers is a parameter; listings are texts of Unicode
  characters rather than bytes.
- The memory a server needs for a declared attribute size.
- The rest of the S3 signer (hashing, canonical headers), the rest of `R2Fs` (mkdir and rename overwrite
  listings without compare and swap), the caches of `HttpFs` and `MetaCacheFs`, the rc shell, CBOR
  messages, terminals, processes, VM devices, and the browser code.
