# Stratus, modelled and proved

Stratus is a personal cloud: files over WebDAV and resumable uploads, calendars over
CalDAV, media served out of its containers. This project models the parts of it where
being right is hard, in Dafny 4.11, and proves what they promise. `dafny verify
dfyconfig.toml` checks all of it.

A `string` in these files is a sequence of bytes, one `char` per byte, which is what a Go
string is. Times are integers. Hashes, random names and the recurrence engine are
parameters or taken by contract. A call on a store, a database or a lock system that the
code does not implement itself is a method that may do anything its interface allows.

## What is here

**Files: rows in one store, bytes in another.** `Text`, `Paths` and `Tree` have the path
rules, the file table and every transaction over it as a function; `Moves` has the two
statements the drivers move a subtree with, and when they are what the interface promises.
`Restores` and `Copies` say what a restore and a copy's commit do to the tree, and `Endings`
where a copy ends for every answer the store can give. `Repository`, `Blobs`, `Files`,
`Removals`, `Trashes`, `Planning`, `Copying`, `Sweeping`, `Uploads` and `Reader` are the
service as it runs -- methods that change a repository and a blob store whose every call
may fail -- proved against those functions, and against one invariant: no two rows name
one blob, and every row has the size and the hash of the bytes it names. `Stores`,
`StoreSteps` and `StoreTheorems` are the same service as a transition system in which every
transaction and every call on the blob store is a step of its own and anything, a crash
included, may come between two of them. Its main theorem holds exactly under the
assumptions it names: `StoreTheorems.GraceIsExact` says that some run loses a file if and
only if the sweep's grace is no longer than a write's gap and a sweep's reads together, or
restores may commit between a sweep's two reads of the database. `ServiceRuns` ties the
two: what a call of the service leaves is what a run of those steps leaves.

**Sync by token.** `Sync` is one calendar's server half; `SyncRuns` is the protocol, with
clients whose every sync is a calendar read, a change read and one read per member. Its
main theorem also has its exact condition, `SyncRuns.AssumptionsAreExact`.

**The lock gate.** `Locks` has the lock system's table and every step anybody takes over it:
a request's own calls, and a client's LOCK, UNLOCK and refresh. `LockRuns` has what holds in
every state of every run of such steps, and exactly when two requests can have one name.
`Gate` is a request asking to write, as methods over that table with any steps of anybody
else's between any two calls; it carries the run it is part of. `IfHeader` reads the header
that says which locks a client holds.

**Recurrence windows.** `Recurrence` has the constant-work test of a window and the
expansion of every instance, and when the two agree.

**Container indexes and a rate limiter.** `Bytes`, `Boxes`, `Keyframes`, `Tracks` and `Ebml` walk
MP4 boxes, sample tables, whole tracks and EBML elements; `Throttling` is the queue of failed logins.

## Where the code and its documentation or a plain reading of it part

Each of these is a lemma or a contract below, with the condition under which it does hold.

- The lock a request takes for itself is known by a token anybody may spell
  (`internal/dav/locks.go:90-95` says tokens need not be unguessable). A list that spells it
  is true of the name and claims the lock, so that a second request is let in beside the
  first, and the first cannot then give its lock back; an UNLOCK that spells it takes the
  lock away. A refresh that does gives it an hour instead of its minute, and can cut it short
  only when the moment it goes by is more than fifty-nine minutes behind. Two requests have
  one name in these ways and in no other (`LockRuns.SharedExactly`,
  `LockRuns.SharingIsExact`, `LockRuns.LeavingIsExact`, `Gate.SpelledByHeader`).
- The comment on the brief lock says it is renewed (`internal/dav/locks.go:524-531`);
  nothing renews it, and it lasts a minute (`Gate.LockSystem.HoldBriefly`).
- A move cuts as many characters off every path under the old name as that name has bytes,
  in all three drivers, and where `LIKE` is blind to case it takes what is under a name that
  differs in case alone. It is the move the interface promises exactly when the old name is
  ASCII or has nothing under it, and nothing is at or under such another name
  (`Moves.StatementExactly`, `Moves.PastTheSlash`, `Moves.TakesTheOthers`).
- As promised, a move checks its two names and not the paths of what is under them, so rows
  can end up with paths too long to be looked up, and a removal of their tree is then refused
  (`Restores.MoveKeepsPaths`, `Removals.RemoveTree`).
- A copy that has committed can still answer with an error: when a blob the destination
  held cannot be dropped (`internal/files/copy.go:94-98`). An error means nothing has changed
  exactly when the copy cannot commit or takes the place of no file
  (`Endings.AllOrNothingExactly`, `Endings.FailsAndHappens`).
- Forgetting old deletions sets a calendar's mark to the highest token forgotten in that
  pass, which is lower than the mark that was there when deletions were stamped by a clock
  that ran back (`Sync.PruneKeepsMark`, `SyncRuns.ForgottenOutOfOrder`).
- An entity-tag with a `]` inside its quotes, which RFC 7232 allows, ends at it in an If
  header (`IfHeader.ReadsBack`).
- Expanding a calendar with no end to the window yields no instance of a repeating
  component, with a negative length it starts looking after the window does, and a
  RECURRENCE-ID in a time zone takes an occurrence out; the test of a window does none of
  these. The two agree however an object repeats exactly when no instance could be missed in
  one of these ways, or something is in the window anyway (`Recurrence.AgreesExactly`,
  `Recurrence.ZonesExactly`, `Recurrence.NoEndHides`, `Recurrence.WindowsExactly`).
- A walk over boxes in a buffer panics on a size whose end is past what 64 bits hold,
  exactly when it comes to such a place before the box it wants (`Boxes.PathPanicsExactly`,
  `Boxes.TwoBoxesPanic`). One over a file counts a box that states its size in 64 bits eight
  bytes short. Past whole boxes the two walks agree about whatever follows exactly when none
  of those is such a box; and about a box the buffer has, exactly unless it runs to the end
  and such a box comes before it (`Boxes.AgreeAfterExactly`, `Boxes.FoundAlike`,
  `Boxes.WideParts`).
- Samples are counted in 32 bits, so a keyframe index can repeat itself with more than 2^32
  of them, and only then (`Keyframes.ClimbsExactly`, `Keyframes.MarkedTwice`).
- A throttle with a burst of none or fewer still answers failures, unless none may be held
  so long (`Throttling.AtMostExactly`).

## Model

| member | source | states |
|---|---|---|
| `Paths.FourReadingsOfUnder` | internal/db/file.go:199-205 | being in the subtree's byte range, having the directory and a slash as a prefix, reaching it by parents and being covered by its lock name are one relation |
| `Paths.MoveLeavesItself` | internal/db/file.go:168-182 | a move that is accepted never lands inside its own subtree, read any of the four ways |
| `Paths.ParentValid` | internal/db/file.go:211-237 | the parent of a path that can be stored can be stored |
| `Paths.RebaseParent` | internal/db/file.go:153-159 | renaming a subtree commutes with taking the parent |
| `Paths.RebaseValid` | internal/db/file.go:211-237 | a renamed path can be stored exactly when it still fits |
| `Paths.ValidPathExactly` | internal/db/file.go:211-237 | a path can be stored exactly when it is at most 4096 bytes of text with no control characters and no segment that is empty, a dot or two |
| `Paths.CopyNameIs` | internal/db/file.go:255-261 | a numbered name is the name with its number in brackets before its extension |
| `Paths.SecondOfAName` | internal/db/file.go:255-261 | two names spelled out, in a directory with a dot in its own |
| `Text.RuneExactly` | internal/db/file.go:211-237 | what counts as text: a rune stands at the head of bytes exactly when they begin with a code point as section 3 of RFC 3629 writes it |
| `Paths.CopyNameParent` | internal/db/file.go:255-261 | a numbered name stays in the directory it was in |
| `Paths.CopyNameInjective` | internal/db/file.go:255-261 | different numbers make different names |
| `Paths.CopyNameValid` | internal/db/file.go:255-261 | a numbered name can be stored exactly when it still fits |
| `Tree.MkdirKeepsTree` | internal/files/files.go:416-431 | making a directory keeps every row's parent a directory or the root |
| `Tree.InsertKeepsTree` | internal/files/files.go:232-254 | so does a write, which changes its own row alone and never a directory into a file |
| `Tree.MoveKeepsTree` | internal/files/files.go:439-446 | a move on a tree fails exactly when the new name is taken, and keeps the tree |
| `Tree.MoveCollides` | internal/db/db.go:108-117 | nothing under a free name can be in the way of what moves there |
| `Tree.MoveAnswers` | internal/files/files.go:439-446 | when a move of storable names is done and why it is refused, in rows: no parent, a file for one, the same name or one that climbs to it, nothing to move, the name taken |
| `Tree.MoveCarries` | internal/db/db.go:108-117 | what stands after is what stood beside both names, and what stood at the old name and below, renamed |
| `Tree.FileMoves` | internal/files/files.go:439-446 | a file can be moved to any free name in any directory |
| `Tree.AcrossDirectories` | internal/files/files.go:439-446 | from one directory to another, say |
| `Tree.MkdirIs` | internal/files/files.go:416-431 | when a directory is made and why not, in rows |
| `Tree.ReplaceIs` | internal/files/files.go:232-254 | when a file is put and why not, in rows, and whose blob it takes the place of |
| `Tree.DeleteFileIs` | internal/db/db.go:146-154 | a row is deleted exactly when it is there and nothing is under it |
| `Tree.WithoutKeepsTree` | internal/files/files.go:477-502 | taking a subtree out leaves a tree |
| `Tree.CommitCopiesKeepsTree` | internal/files/copy.go:200-246 | a copy's commit keeps the tree, whatever it replaces |
| `Moves.StatementExactly` | internal/db/sqlite/sqlite.go:1010-1041 | the two statements do what the interface promises of a move, refusals included, exactly when it is refused or the old name is ASCII or has nothing under it, and nothing, the new name included, is LIKE it but what is under it |
| `Moves.SightedExactly` | internal/db/postgres/postgres.go:856-885 | where LIKE minds case, exactly when the old name is ASCII or has nothing under it |
| `Moves.PastTheSlash` | internal/db/sqlite/sqlite.go:1023-1038 | a directory with an accent in its name, moved, leaves the file that was in it beside it |
| `Moves.TakesTheOthers` | internal/db/sqlite/sqlite.go:1023-1025 | moving a directory takes what is under another whose name differs in case alone |
| `Moves.SameFoldedIs` | internal/db/sqlite/sqlite.go:1010-1041 | what a name differs in that LIKE does not see: the case of its letters |
| `Restores.MoveKeepsPaths` | internal/db/db.go:108-117 | after a move as promised every row can be looked up exactly when what was under the old name fits under the new |
| `Restores.AncestorInTheWay` | internal/files/trash.go:201-220 | the missing directories can be made exactly when no ancestor is a file |
| `Restores.RestoreParentsMakesAncestors` | internal/files/trash.go:201-220 | making them adds directories above the path where nothing stood, and nothing else |
| `Restores.FreeNameIsFirst` | internal/files/files.go:368-382 | the name found is the first free one; none is found when all are taken or one is too long |
| `Restores.RestoreIs` | internal/files/trash.go:126-193 | a restore succeeds exactly when there is a free name, no file above it and everything fits; then the deleted tree stands at the first free name, with its ancestors, and all else is as it was |
| `Restores.RemoveThenRestore` | internal/files/trash.go:126-193 | a removal and a restore straight after it change nothing: paths, kinds, keys, sizes and validators |
| `Restores.RemovedIsDeletion` | internal/files/files.go:462-471 | what a removal puts in the trash is a tree a restore can take |
| `Restores.AdoptKeepsTree` | internal/files/adopt.go:35-79 | an import keeps the tree and every row that was there |
| `Restores.AdoptOneIs` | internal/files/adopt.go:35-79 | what an import makes of one row: nothing of a taken path; a refusal of one that cannot be stored or is under a file; and otherwise the row and the missing directories above it |
| `Copies.CommitIs` | internal/files/copy.go:200-246 | a copy's commit succeeds exactly when the destination has a parent, what it held can be removed and every path fits; then the destination holds the plan and nothing else |
| `Copies.CopyIsIsomorphic` | internal/files/copy.go:46-105 | after it the destination has the planned source's paths and kinds, even when it stood above the source |
| `Repository.Repo.ListFiles` | internal/db/db.go:63-85 | every direct child once, or a refusal for a directory that cannot be one |
| `Repository.Repo.TrashedIn` | internal/db/trash.go:76-79 | the rows of one deletion in path order, none when there is none |
| `Removals.RemoveTree` | internal/files/files.go:477-502 | the depth-first removal ends, takes exactly the rows at or under the path, says which, and is refused exactly when nothing is there or something there cannot be looked up |
| `Removals.UnderAChild` | internal/files/files.go:477-502 | on a tree, what is under a directory is at or under one of its children |
| `Files.Service.RequireParent` | internal/files/files.go:510-527 | the half of the tree invariant that is checked before a row is made |
| `Files.Service.Replace` | internal/files/files.go:232-254 | puts the row and names the blob it displaced, or changes nothing |
| `Files.Service.StoreBlob` | internal/files/files.go:281-322 | the row it answers with has the size and hash of the bytes stored, and no other object is touched |
| `Files.Service.Write` | internal/files/files.go:197-220 | either row and blob are both there saying the same thing, or the table is as it was; only the replaced blob and what was made from it may go |
| `Files.Service.Commit` | internal/files/files.go:197-220 | the commit shared with uploads keeps every row true of its blob |
| `Files.Service.DropBlob` | internal/files/collect.go:155-168 | deletes a blob and everything made from it and nothing else, and when it fails has deleted nothing else |
| `Files.Service.Mkdir` | internal/files/files.go:416-431 | makes the directory or refuses and changes nothing, keeping rows and blobs true |
| `Files.Service.Move` | internal/files/files.go:439-446 | renames the subtree or refuses and changes nothing, and touches no blob |
| `Files.Service.Remove` | internal/files/files.go:462-471 | moves exactly the subtree's rows to the trash, in one step or not at all |
| `Blobs.CarriedIsSound` | internal/files/files.go:1-15 | rows that only move, and drops of what is nobody's, keep every row true of a blob of its own |
| `Trashes.FreeName` | internal/files/files.go:368-382 | the search finds the first free name |
| `Trashes.RestoreParents` | internal/files/trash.go:201-220 | makes the missing directories from the top down, or refuses |
| `Trashes.Restore` | internal/files/trash.go:126-193 | the deletion is put back whole under the first free name and leaves the trash, or nothing changes; rows stay true of their blobs |
| `Trashes.DestroyTrashed` | internal/files/trash.go:61-87 | the rows go first, one of the sweep's batches among them; then only its blobs and what was made from them, all of them when it succeeds |
| `Trashes.EmptyTrash` | internal/files/trash.go:32-52 | exactly the deletions counted are gone, with only their blobs; each was old enough, and all that were are gone when it succeeds and no two have one name |
| `Trashes.Adopt` | internal/files/adopt.go:35-79 | all of the rows or none; a taken path is skipped and counted, so a second run changes nothing |
| `Planning.PlanCopy` | internal/files/copy.go:116-136 | the plan has the source and, when it recurses, everything under it, each once under its new name with its parent before it |
| `Copying.WriteCopies` | internal/files/copy.go:161-181 | every file of the plan gets its source's bytes under a name of its own, and nothing the store held is touched |
| `Copying.CopyOne` | internal/files/copy.go:184-192 | the bytes written are the bytes read back, of the size the source row says |
| `Copying.CommitCopies` | internal/files/copy.go:200-246 | replaces the destination with the new rows in one step or changes nothing, and names the blobs replaced |
| `Copying.Copy` | internal/files/copy.go:46-105 | ends where its store's answers say it does; on success the destination is the source tree with equal content under fresh keys; a failure leaves the table alone unless the copy had committed over a file |
| `Endings.CommittedEnding` | internal/files/copy.go:46-105 | a copy commits exactly when it can and the store lets it; until then no row has changed, and then it succeeds exactly when every replaced blob is dropped |
| `Endings.AllOrNothingExactly` | internal/files/copy.go:88-98 | an error means no row has changed, whatever the store answers, exactly when the copy cannot commit or no file is at or under its destination |
| `Endings.FailsAndHappens` | internal/files/copy.go:94-98 | a directory copied over a file whose blob is not deleted: an error, and the file is gone |
| `Endings.CanCommitIs` | internal/files/copy.go:46-105 | a copy of storable names can commit exactly when there is something to copy, not into itself, somewhere to put it, and every path new or replaced can be stored |
| `Endings.CopyRefused` | internal/files/copy.go:46-66 | what is refused before anything is written, and with what answer |
| `Endings.OntoItsDirectory` | internal/files/copy.go:88-98 | a file copied over the directory it is in takes the place of all of it |
| `Sweeping.Collect` | internal/files/collect.go:209-331 | takes exactly the orphans into the trash and destroys exactly the garbage judged against what is kept with them; refuses an index that accounts for nothing; a failed pass has destroyed only garbage |
| `Sweeping.Look` | internal/files/collect.go:247-293 | decides over the whole listing before anything is destroyed |
| `Sweeping.DeleteGarbage` | internal/files/collect.go:304-329 | destroys what has no parent kept, a stale generation or an expired cache, and nothing else |
| `Sweeping.JudgedAlike` | internal/files/collect.go:269-293 | the pass and the transition system judge an object alike |
| `Sweeping.OrphanExactly` | internal/files/collect.go:247-293 | an orphan is an old object under neither prefix that nothing references |
| `Sweeping.GarbageExactly` | internal/files/collect.go:304-329 | of what was made from a blob, exactly what is old and whose blob is not kept, whose name does not say this generation, or which is a cache more than a week old, is garbage |
| `Sweeping.LeftAreCurrent` | internal/files/collect.go:304-329 | what is left of old derivatives was made by this generation of a blob that is kept |
| `Keys.DerivedReadsBack` | internal/files/collect.go:65-140 | a derived key gives back its parent, is not stale, and is a cache exactly when its name says so |
| `Keys.DropTakesItsOwn` | internal/files/collect.go:155-168 | the listing a drop makes holds an object exactly when the object was made from that blob |
| `Keys.StaleExactly` | internal/files/collect.go:110-122 | a key is stale exactly when its last segment is not a g, this generation's number, a hyphen and a name |
| `Keys.GenerationsApart` | internal/files/collect.go:110-122 | of all numbers there could be, exactly one is not stale |
| `Keys.CachedExactly` | internal/files/collect.go:92-96 | a key is a cache exactly when its name after the first hyphen begins as one |
| `Keys.ParentExactly` | internal/files/collect.go:130-140 | a derived key is read back as its blob's key and its last segment |
| `Keys.NewBlobKeyReads` | internal/files/blobkey.go:85-98 | a new key splits into kind, year, month, day and a name that ends as the file's did, in lower case, if that is an extension |
| `Keys.PadReads` | internal/files/blobkey.go:89-90 | a padded number has its places and its value |
| `Keys.NewBlobKeyShape` | internal/files/blobkey.go:85-98 | every key made for a write has five segments under one of the kinds |
| `Keys.MintedNotPrefix` | internal/files/blobkey.go:85-98 | no such key is a path prefix of another |
| `Keys.MintedIsOriginal` | internal/files/blobkey.go:85-98 | and none is read as a derived object or a backup |
| `StoreTheorems.StepKeeps` | internal/files/files.go:1-15 | every step of every operation, a crash included, keeps the invariant of both stores |
| `StoreTheorems.EveryRunIsSafe` | internal/files/collect.go:209-331 | in every state of every run each row and each row of a deletion names a blob that is there, none named twice, the sweep's trash holds nobody's, and the table and every deletion are trees |
| `StoreTheorems.GraceIsExact` | internal/files/collect.go:217-304 | some run loses a file exactly when the grace is no longer than a write's gap and the sweep's reads, or restores may come between those reads |
| `StoreTheorems.SweepMissesIt` | internal/files/collect.go:217-244 | a write as slow as the grace allows and a commit just after the sweep's first read lose the file |
| `StoreTheorems.RestoreSlipsThrough` | internal/files/collect.go:217-233 | with a restore between the two reads no grace helps |
| `ServiceRuns.WriteIsARun` | internal/files/files.go:197-220 | a write is its blob stored, then its row committed or given up, then deletes of what belongs to the blob it replaced or to its own, and leaves what those steps leave |
| `ServiceRuns.WriteKeeps` | internal/files/files.go:197-220 | so it keeps everything that holds of every reachable state |
| `ServiceRuns.CompleteIsARun` | internal/files/upload.go:145-196 | finishing an upload is its blob published and then what a write's blob comes to, or no step when the store published nothing |
| `ServiceRuns.CollectIsARun` | internal/files/collect.go:209-331 | an undisturbed pass of the sweep is the machine's: its reads, its looks, the orphans taken and then deletes of whatever it judges garbage |
| `ServiceRuns.RestoreIsARun` | internal/files/trash.go:126-193 | a restore is one step, of what it leaves |
| `ServiceRuns.DestroyIsARun` | internal/files/trash.go:61-87 | destroying a deletion is its rows going and then such deletes |
| `StoreSteps.Rehold` | internal/files/collect.go:217-304 | rows that only change hands keep the whole account of keys, sweeps under way included |
| `StoreSteps.OrphanIsNobodys` | internal/files/collect.go:268-293 | an object old enough and in neither read is nobody's |
| `StoreSteps.CommitWriteKeeps` | internal/files/files.go:197-254 | a write or a published upload committing in time keeps the invariant |
| `StoreSteps.CommitCopyKeeps` | internal/files/copy.go:76-105 | a copy committing keeps it, its gap running from its first blob |
| `StoreSteps.RestoreKeeps` | internal/files/trash.go:126-193 | a restore keeps it when no sweep is between its reads |
| `StoreSteps.DestroyKeeps` | internal/files/trash.go:61-87 | destroying a deletion condemns keys nothing holds any more |
| `StoreSteps.SweepSeesKeeps` | internal/files/collect.go:247-294 | judging one listed object keeps it |
| `Uploads.AppendKeepsHash` | internal/files/upload.go:88-142 | one chunk, however the store cut it, keeps the running hash that of the object's first bytes |
| `Uploads.RunKeepsHash` | internal/files/upload.go:88-142 | so does any run of cut, retried and refused chunks and rows that were not saved |
| `Uploads.PublishedHash` | internal/files/upload.go:145-196 | so what is published has the hash of exactly its object, for a declared length never outgrown |
| `Uploads.HashIsOfObject` | internal/files/upload.go:265-285 | the hash is of the object exactly when the running hash was given up or the row knows of every byte |
| `Uploads.OutgrownObject` | internal/files/upload.go:150-153 | without a declared length one row that was not saved is enough for a wrong hash |
| `Uploads.ReadWhatItRefused` | internal/files/upload.go:120-131 | so is a store that reads what it refuses |
| `Uploads.AheadOfTheRow` | internal/files/upload.go:120-131 | so is a client that is ahead of the row |
| `Uploads.Resumable.BeginUpload` | internal/files/upload.go:32-76 | a row and an empty upload, or neither |
| `Uploads.Resumable.AppendUpload` | internal/files/upload.go:88-142 | the row follows the store's offset and keeps the hash true for a client that sends the row's offset |
| `Uploads.Resumable.CompleteUpload` | internal/files/upload.go:145-196 | publishes exactly what was accepted, after an attempt that published and failed too, or leaves the table as it was; the service's invariant holds whenever the hash was of the object |
| `Uploads.Resumable.AbortUpload` | internal/files/upload.go:200-212 | forgets the upload and its bytes, and does nothing when there is none |
| `Uploads.Resumable.CollectUploads` | internal/files/upload.go:219-239 | forgets uploads whose time is up and no other, all of them when it succeeds, each one's bytes before its row |
| `Files.ContentTypeIs` | internal/files/files.go:333-341 | a type a client named stands unless it names nothing |
| `Reader.BlobReader.Read` | internal/files/files.go:551-568 | gives the blob's bytes at the logical offset, whatever ranges were opened and dropped before |
| `Reader.BlobReader.Seek` | internal/files/files.go:570-595 | moves the offset where it was asked to, or refuses and leaves it |
| `Reader.BlobReader.Drain` | internal/files/files.go:551-568 | reading on to the end gives everything from the offset |
| `Sync.Calendar.Put` | internal/calendar/calendar.go:229-275 | stamps the object with the next token and forgets its tombstone, or changes nothing, each refusal with its reason |
| `Sync.Calendar.Delete` | internal/calendar/calendar.go:278-289 | leaves a tombstone stamped with the next token |
| `Sync.Calendar.Prune` | internal/db/sqlite/calendars.go:162-179 | forgets exactly the deletions before a time and marks the highest token forgotten |
| `Sync.Calendar.CalendarChanges` | internal/db/sqlite/calendars.go:147-159 | every name written or deleted after a token, once each, in token order |
| `Sync.Calendar.Changes` | internal/calendar/calendar.go:298-319 | refuses exactly the tokens it cannot answer; answers with what changed, and with no deletion on a first sync |
| `Sync.KeepChanges` | internal/calendar/calendar.go:308-317 | the filter in place keeps what it should in order and raises the token to the highest seen |
| `Sync.PruneKeepsMark` | internal/db/calendar.go:140-143 | every deletion remembered stays above the mark exactly when a pass forgets the oldest first |
| `Sync.PrunedIs` | internal/db/sqlite/calendars.go:162-179 | a pass takes exactly what was deleted before a time and its mark is the highest token of that |
| `Sync.ForwardIsInOrder` | internal/calendar/calendar.go:323-331 | which it does when deletions are stamped by a clock that does not run back |
| `Sync.WrittenKeeps` | internal/calendar/calendar.go:229-275 | a write keeps tokens apart, identifiers apart and the mark below what is remembered |
| `Sync.TokenReadBack` | internal/dav/caldavsync.go:63-83 | a token is read back by the collection it came from and by no other |
| `SyncRuns.StepKeeps` | internal/calendar/calendar.go:298-331 | every step of a server or a client keeps what is known of every client |
| `SyncRuns.EveryRunConverges` | internal/dav/caldavsync.go:175-211 | over every run, where a client differs from the server a write or a tombstone stands above its token, or its token is too old to be answered |
| `SyncRuns.CaughtUp` | internal/calendar/calendar.go:298-319 | a client as far on as the server holds exactly what it does |
| `SyncRuns.QuietSync` | internal/dav/caldavsync.go:175-211 | a sync with no write in the middle of it ends with exactly the server's collection |
| `SyncRuns.AssumptionsAreExact` | internal/calendar/calendar.go:299-306 | some run comes to a state where a client differs from the server on a name its next sync will not mention exactly when deletions may be forgotten between the calendar read and the change read, or out of order |
| `SyncRuns.ForwardRunConverges` | internal/calendar/calendar.go:323-331 | with deletions stamped by a clock that does not run back, keeping passes apart from those two reads is enough over every run |
| `SyncRuns.ForgottenBetween` | internal/calendar/calendar.go:299-306 | a deletion forgotten between the two reads is in neither answer |
| `SyncRuns.ForgottenOutOfOrder` | internal/db/sqlite/calendars.go:162-179 | a mark set back lets a token through whose deletions are gone |
| `SyncRuns.AnswerableExactly` | internal/calendar/calendar.go:298-319 | which tokens can be answered from, as the server refuses them |
| `SyncRuns.ChangesRead` | internal/calendar/calendar.go:298-319 | what the changes do not mention the client already holds as the server does |
| `SyncRuns.WriteFeed` | internal/dav/caldavsync.go:234-253 | a deletion answered for each, a member for what its own read found, one gone since left out |
| `SyncRuns.FollowedFeed` | internal/dav/caldavsync.go:234-253 | what following an answer does to each name |
| `SyncRuns.FeedIsTheSteps` | internal/dav/caldavsync.go:194-253 | a client that follows the answer ends with what the protocol's reads, one at a time, end with |
| `SyncRuns.WrittenIsRead` | internal/calendar/calendar.go:229-275 | a write is read with its tag and its token until the name is next written or removed, whatever else is done |
| `SyncRuns.RemovedIsGone` | internal/calendar/calendar.go:278-289 | and a removal as gone |
| `SyncRuns.WrittenIsSynced` | internal/dav/caldavsync.go:194-253 | a client that syncs with nothing in its way then holds that tag |
| `LockRuns.SharedExactly` | internal/dav/locks.go:362-438 | in every state of every run, two requests whose own locks last and were not undone have one name exactly when the list of one spelled the other's lock; when a client gave one back or cut it short its name can be common too, and in no other way |
| `LockRuns.EveryRunIsSafe` | internal/dav/locks.go:207-258 | when no list and no UNLOCK spells such a token and no refresh that does is most of an hour late, no two requests let in have one name while their own locks last, and no lock reaches it but one the request has |
| `LockRuns.SharingIsExact` | internal/dav/locks.go:90-95 | some run lets two requests in on one name exactly when an If header or an UNLOCK may spell the token of a lock a request took for itself, or a refresh may that goes by a moment more than fifty-nine minutes behind |
| `LockRuns.RefreshCutsItShort` | internal/dav/lock.go:159-171 | the run in which such a refresh does |
| `LockRuns.LeavingIsExact` | internal/dav/locks.go:429-437 | some run leaves such a lock in the table when its request goes by it no longer exactly when an If header may |
| `LockRuns.ListSpellsIt` | internal/dav/locks.go:238-258 | the run of two requests writing one name at once |
| `LockRuns.UnlockSpellsIt` | internal/dav/lock.go:186-205 | the run in which a client gives back a lock it never had |
| `LockRuns.LeavesItBehind` | internal/dav/locks.go:429-437 | the run in which a request cannot give its lock back |
| `LockRuns.LeftWasClaimed` | internal/dav/locks.go:429-437 | a lock left behind was claimed by somebody's list |
| `LockRuns.NoForeignLock` | internal/dav/locks.go:362-438 | while its own locks stand, no lock reaches a name a request was let in on but one it has |
| `Locks.OneReaches` | internal/dav/memlocks.go:62-69 | of locks that were all granted at most one reaches a name |
| `Locks.ReachesIs` | internal/dav/locks.go:349-358 | a lock on a directory reaches a file exactly when the file is that or, unless its depth is zero, climbs to it |
| `Locks.CanTakeIs` | internal/dav/locks.go:513-522 | a request's own lock may be granted exactly when no lock there reaches its name |
| `Locks.StepKeeps` | internal/dav/memlocks.go:43-69 | every step of every request and client keeps what holds of the lock system |
| `Locks.Guarantee` | internal/dav/locks.go:362-438 | no step of anybody else's touches what a request goes by: what the gate relies on of others is what every step does |
| `Locks.ClaimOk` | internal/dav/memlocks.go:62-69 | a claim is of a lock nobody else claims |
| `Gate.LockSystem.ConfirmLocks` | internal/dav/locks.go:207-258 | let in with every name it writes to its own, claiming only what a list that was true of the resource it is about names; or refused, going by nothing and leaving no lock of its own but one somebody's list had claimed: without a header because a name was not free when it was asked for, with one because every list was about something else, had a condition that was false when asked, or could claim nothing at a time when a name was not free |
| `Gate.LockSystem.Holds` | internal/dav/locks.go:268-284 | true exactly when every condition was, each of the locks there were at its turn in the run; false when one was not |
| `Gate.LockSystem.ClaimTouched` | internal/dav/locks.go:362-389 | both names claimed, or one claimed and the other held; or nothing, when each of those ways was refused |
| `Gate.LockSystem.ClaimOneHoldTheOther` | internal/dav/locks.go:393-407 | both; or nothing, when the claim or the other half was refused, and a claim whose other half is refused is let go |
| `Gate.LockSystem.LockForTheRequest` | internal/dav/locks.go:411-438 | a lock of its own on each name; or none, exactly when a lock there clashed with one of them as it was asked for |
| `Gate.LockSystem.HoldBriefly` | internal/dav/locks.go:513-522 | a lock that lasts a minute from when it was taken, refused exactly when a lock there clashed with it then |
| `Gate.LockSystem.Covers` | internal/dav/memlocks.go:77-87 | says whether the token names an unclaimed lock that reaches the name among the locks there were when it asked, and keeps nothing of the claim it asks by |
| `Gate.LockSystem.Finish` | internal/dav/locks.go:429-437 | what a request was let in with is all given back; a lock of its own stays only if somebody's list had claimed it |
| `Gate.LockSystem.Unlock` | internal/dav/locks.go:429-437 | a lock given back stays behind exactly when somebody claims it |
| `Gate.LockSystem.Confirm` | internal/dav/memlocks.go:67-69 | claims a lock that reaches each name, whoever took it, exactly when the conditions name one for each among the locks there were when it asked; or nothing |
| `Gate.OnlyWhatItSupplied` | internal/dav/locks.go:207-258 | while its own locks last and stand, a lock that reaches a name a request was let in on is its own or one its list supplied |
| `Gate.SharedInTheGate` | internal/dav/locks.go:207-258 | so it is of any two requests the gate has let in, whatever has been done with the lock system since |
| `Gate.SpelledByHeader` | internal/dav/locks.go:137-151 | the header `(<opaquelocktoken:0>)` is true of a name another request holds by that lock, and claims it |
| `Gate.HeededIfItCouldReach` | internal/dav/locks.go:326-358 | a tagged list is heeded exactly when a lock on its tag could reach a name the request writes to; of one that is not, no lock there can |
| `Gate.ClaimableHas` | internal/dav/locks.go:312-320 | exactly the tokens said in the positive are claims |
| `Gate.LookupExactly` | internal/dav/memlocks.go:62-69 | a claim finds a lock exactly when a condition names an unclaimed one that reaches the name, and then the only one that does |
| `Gate.AskingIs` | internal/dav/memlocks.go:62-69 | so a claim is let exactly when a condition names, for each name, an unclaimed lock there that reaches it, and claims exactly the locks that reach the names |
| `Gate.TookIs` | internal/dav/locks.go:513-522 | and a lock of a request's own is refused exactly when a lock there reached the name |
| `Gate.TrueExactly` | internal/dav/locks.go:268-284 | what a condition says, in locks and tags: a token that such a lock is there, a tag that it is the file's, a Not that it is not so |
| `Gate.OneOfTheTwo` | internal/dav/locks.go:279-279 | of a condition and its denial exactly one is true |
| `Gate.DeniesATag` | internal/dav/locks.go:268-284 | the header `(Not ["e"])` lets nobody in on a file with that tag, and on another refuses only for want of a free name |
| `Gate.DeniesNoLock` | internal/dav/locks.go:268-284 | the header `(Not <DAV:no-lock>)` is refused only for want of a free name |
| `Gate.InnerTokenIs` | internal/dav/locks.go:143-151 | a token is the lock system's by its scheme and no other |
| `IfHeader.Lex` | internal/dav/ifheader.go:150-190 | every token short of the end of the input uses up at least a byte of it |
| `IfHeader.LexLoop` | internal/dav/ifheader.go:150-190 | the scanning loops find the token the grammar has |
| `IfHeader.ParseListLoop` | internal/dav/ifheader.go:100-120 | the loop over one list is the recursive reading of it, and ends |
| `IfHeader.ParseTaggedListsLoop` | internal/dav/ifheader.go:71-98 | so is the loop over tagged lists |
| `IfHeader.ParseNoTagListsLoop` | internal/dav/ifheader.go:57-69 | and the one over lists without tags |
| `IfHeader.ReadsBack` | internal/dav/ifheader.go:45-190 | a header of section 10.4.2 of RFC 4918, written with any spacing, is read back as what it means exactly when no entity-tag holds a `]` |
| `IfHeader.ParseTrims` | internal/dav/ifheader.go:45-55 | what stands around a header is not read and nothing of it is lost |
| `Recurrence.HoldsOne` | internal/calendar/timerange.go:201-209 | looking at one instance answers for all of them, for instances of any length |
| `Recurrence.After` | internal/calendar/timerange.go:201-209 | the first instance past a time, which the walk reaches though there be no last one |
| `Recurrence.Overlaps` | internal/calendar/timerange.go:25-53 | some component has an instance in the window, an overridden occurrence counting where it went |
| `Recurrence.Expand` | internal/calendar/expand.go:18-80 | exactly the instances that come, of each component, and none twice over |
| `Recurrence.AgreesExactly` | internal/calendar/expand.go:18-80 | on an object that could be stored, any window and any lengths: the test and the expansion agree however it repeats exactly when something is in the window by itself or no instance could be missed |
| `Recurrence.ZonesExactly` | internal/calendar/expand.go:25-36 | for a window that ends and no negative length, exactly when something is in the window by itself or no time zone's RECURRENCE-ID is an instant that would be |
| `Recurrence.NoEndHides` | internal/calendar/expand.go:68-78 | a window with no end misses an instance of everything that repeats |
| `Recurrence.OverlapsIsExpand` | internal/calendar/timerange.go:25-135 | so with the rules it has an object overlaps the window exactly when expanding it yields a component of its kind |
| `Recurrence.WindowsExactly` | internal/calendar/expand.go:68-78 | for one event, the two agree on every rule exactly when the window ends and the length is not negative or the window is empty |
| `Recurrence.ZoneOverride` | internal/calendar/expand.go:25-36 | an event beside any number of time zones that claim to be overrides: the two agree whatever it repeats by exactly when none of their instants would be in the window |
| `Recurrence.OnceIsAnInstance` | internal/calendar/timerange.go:211-228 | an event that does not repeat is in a window exactly as the one instance of a rule would be |
| `Recurrence.TaskRows` | internal/calendar/timerange.go:230-280 | the table of section 9.9 of RFC 4791 for a task: by start and length, start and due, either, completed and created, either, or always |
| `Recurrence.EventRows` | internal/calendar/timerange.go:211-228 | the same for an event |
| `Recurrence.JournalRows` | internal/calendar/timerange.go:282-295 | the same for a journal entry |
| `Recurrence.LengthRows` | internal/calendar/timerange.go:159-185 | how long each instance lasts, in each case |
| `Recurrence.RepeatingRows` | internal/calendar/timerange.go:60-88 | a component that repeats is in a window exactly when an instance of it is |
| `Recurrence.WiderKeeps` | internal/calendar/timerange.go:25-53 | a wider window loses nothing of any kind |
| `Keyframes.TrackKeyframes` | internal/media/keyframes.go:115-159 | for any tables, however long and however they wrap, the walk finds the index the tables written out have; its times never go back |
| `Keyframes.IndexRefines` | internal/media/keyframes.go:115-159 | when nothing wraps the samples are the ones picked, each at the time it is shown, and there is an index exactly when there are any and they are shown in order |
| `Keyframes.ClimbsExactly` | internal/media/keyframes.go:118-144 | over all tables a file can store, the samples of every index of so many climb exactly when there are at most 2^32 of them, or more than any file can have |
| `Keyframes.MarkedTwice` | internal/media/keyframes.go:118-144 | two of the longest runs and one mark twice give an index with one sample twice |
| `Keyframes.PicksExactly` | internal/media/keyframes.go:138-144 | marks that climb within the table are taken exactly; without marks every sample is |
| `Keyframes.NextOffset` | internal/media/keyframes.go:128-137 | the cursor over the run-length table gives the expanded table's next entry |
| `Keyframes.FlatAt` | internal/media/keyframes.go:126-127 | a sample inside a run is the expanded table's sample at the runs before it |
| `Keyframes.ReadRuns` | internal/media/keyframes.go:171-190 | every entry the table says it has, or a refusal |
| `Keyframes.ReadMarks` | internal/media/keyframes.go:104-114 | the marks of a whole table; a table of none reads as no table |
| `Keyframes.EditShift` | internal/media/keyframes.go:195-223 | the first edit that is not a pause |
| `Keyframes.QuotientIs` | internal/media/keyframes.go:115-117 | ticks are converted by the division nearest zero |
| `Keyframes.ShownIs` | internal/media/keyframes.go:138-141 | a sample's time in nanoseconds is its ticks', cut short and never negative |
| `Keyframes.AnIndex` | internal/media/keyframes.go:76-159 | one index spelled out: two samples, their offsets, an edit list |
| `Keyframes.RunsReadBack` | internal/media/keyframes.go:171-190 | runs written out, signed or not, are read back whatever follows them, and cut anywhere are refused |
| `Keyframes.MarksReadBack` | internal/media/keyframes.go:104-114 | marks written out are read back, none as no table |
| `Keyframes.EditsReadBack` | internal/media/keyframes.go:195-223 | an edit list written in either width is read as where its first edit that is no pause begins, and as nothing else |
| `Keyframes.TwoOfAThousand` | internal/media/keyframes.go:171-190 | the bytes of two samples of a thousand ticks |
| `Tracks.IndexOfTrack` | internal/media/keyframes.go:76-159 | from a track's bytes to its index, or none, or a panic, through its boxes in the order they are asked for |
| `Tracks.TrackReadsBack` | internal/media/keyframes.go:76-159 | a track written out, its boxes in any order and form and with others among them, is read as the index of its tables and nothing else |
| `Tracks.ClockReadsBack` | internal/media/keyframes.go:77-93 | a media header of either version is read as its clock |
| `Boxes.AtomsInOrder` | internal/media/mp4.go:578-605 | on any bytes the boxes found are in order, in bounds and apart |
| `Boxes.WrappedIs` | internal/media/mp4.go:584-599 | a box's end is past 64 bits exactly when it is not the first and a 64-bit size says so |
| `Boxes.PanicsExactly` | internal/media/mp4.go:578-605 | a walk panics exactly when a place it looks at states a size whose end is past 64 bits |
| `Boxes.Box` | internal/media/mp4.go:610-624 | the body of the first box of each name in turn, or none, or a panic |
| `Boxes.ReadsBack` | internal/media/mp4.go:578-624 | boxes written out, each with its size in 32 bits, in 64 or, the last, not at all, are read back as the body of the first of a name |
| `Boxes.PathPanicsExactly` | internal/media/mp4.go:610-624 | which it is exactly when the path leads to a buffer whose walk comes to such a place before a box of the next name |
| `Boxes.TwoBoxesPanic` | internal/media/mp4.go:595-599 | twenty-four bytes on which it does |
| `Boxes.Reader.FindAtom` | internal/media/mp4.go:633-669 | leaves the reader where the walk over a file finds the box, with its length |
| `Boxes.WalksAgree` | internal/media/mp4.go:633-669 | over the same bytes both walks find the same box in the same place, when none on the way states its size in 64 bits |
| `Boxes.AgreeAfterExactly` | internal/media/mp4.go:633-669 | after any whole boxes that are not the one sought they agree about whatever may follow exactly when none of those states its size in 64 bits |
| `Boxes.FoundAlike` | internal/media/mp4.go:633-669 | a box the buffer's walk finds the file's finds in the same place, exactly unless it has no size of its own and a box before it states its size in 64 bits |
| `Boxes.Overruns` | internal/media/mp4.go:642-659 | after any whole boxes with one that does, eight more bytes on which the file's walk finds a box and the buffer's none |
| `Boxes.WideParts` | internal/media/mp4.go:642-659 | and the shortest of those |
| `Ebml.ReadVintLoop` | internal/media/mkv.go:521-548 | the scan of the marker and the bytes after it |
| `Ebml.Source.ReadInt` | internal/media/mkv.go:458-491 | the reader and the buffer agree on every input, on the value and on the bytes used |
| `Ebml.Source.ReadHeader` | internal/media/mkv.go:435-450 | an element's identifier and length; an unknown length is refused |
| `Ebml.ReadsVint` | internal/media/mkv.go:521-548 | an integer written in any width that holds it is read back, but for the one value that means unknown |
| `Ebml.WalkElements` | internal/media/mkv.go:495-517 | the loop finds the elements the grammar has, to the first that is not whole |
| `Ebml.ElementsInOrder` | internal/media/mkv.go:495-517 | on any bytes the elements found are in order, in bounds and apart |
| `Ebml.ReadsBack` | internal/media/mkv.go:495-517 | walking the encoding of any list of elements gives back the list (section 4 of RFC 8794) |
| `Throttling.Throttle.TakeSlot` | internal/auth/throttle.go:132-152 | the slot taken, when it may be answered, and a refusal that would be too long a wait |
| `Throttling.Throttle.Delay` | internal/auth/throttle.go:111-128 | a success waits for nothing and takes no slot |
| `Throttling.AtMost` | internal/auth/throttle.go:132-152 | over any run of any callers, a closed window holds at most the burst and one answer for every spacing that fits in it |
| `Throttling.AtMostExactly` | internal/auth/throttle.go:132-152 | and it does for any burst, none and negative ones included, exactly when the burst is one at least or even an idle queue is too far behind to answer |
| `Throttling.WaitsNoLonger` | internal/auth/throttle.go:132-152 | no answered failure waits longer than it may |
| `Throttling.Spaced` | internal/auth/throttle.go:132-152 | of two failures in a row the second's slot is a spacing after the first's, or more when the queue has been idle |
| `Throttling.BurstAtOnce` | internal/auth/throttle.go:132-152 | a burst at once is answered at once, so a window of no length reaches the bound |
| `Throttling.BoundReached` | internal/auth/throttle.go:132-152 | the bound is reached in a window of any number of spacings |
| `Throttling.BurstOfNone` | internal/auth/throttle.go:134-138 | with a burst of none or fewer a failure is answered after the spacings it is short of, when it may be held so long |

## Left out

- Adopt: not a step of the two-store runs, whose keys are all drawn at random; the keys it files may already be in the sweep's trash, and nothing here says their bytes are there.
- Copy: what room the store has left is one more call that may say no; the sum the source compares with it is not modelled.
- Write: the first bytes are read ahead to sniff a type in the source; here the type they give is a parameter.
- Collect: two orphans with one key, the counts it reports and a database that fails are not modelled.
- ConfirmLocks: claims nothing about members inside a deleted or moved folder, since the gate takes locks on the two names alone.
- Move: the service is proved over the move the interface promises; `Moves` has the drivers' statements, whose UPDATE may also stop at a clash between two rows on the way.
- WriteIsARun: of the service's calls, a write, a finished upload, a removal, a restore, a destroyed deletion and a pass of the sweep are shown to be runs; a copy is not.
- IndexOfTrack: from the picture track's bytes on; which of a file's tracks is the picture's is not modelled.
- FindAtom: over a file that holds all the bytes it is told it may look within.
- Overlaps: dates are read in one zone, so a floating time in a window of another zone is not modelled; RRULE itself is an ordered set of times.
- Expand: which instances come and not how each is written out, in UTC and without its rule.
- A database that fails between statements: a transaction that does not commit changes nothing, which is what a refusal does here.
- Directory modification times, row ids, listings by page, quotas and the watcher told of new files.
- Unicode: an extension is lowercased as ASCII.
- Contacts, which sync by the same protocol as calendars.
- Parse: of the white space trimmed around a header only ASCII's is modelled.
- HTTP handlers, XML, PROPFIND and SEARCH bodies, the web pages, compression, logging and startup.
- The SQL drivers, the disk and S3 stores, and golang.org/x/net's lock table beyond their contracts.
- Backups, the import folder, music lookups and settings.
- Codec configuration, colour tables, bit rates, the Matroska cue index and ffprobe's reports.
