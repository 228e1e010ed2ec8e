# A verified model of the image host's stateful core

This project models the parts of the image host that keep state under concurrency, and proves what they are
relied on for. Each engine is modelled twice where the program works by changing things step by step: as a class
or method that updates its fields in place, and as a function or a relation over states whose properties are
proved as lemmas; the method's contract ties the first to the second.

- **Image store** (`StoreState`, `Purge`, `Rehome`, `Accounts`, `Cleanup`, `ImageService`): image, file, user and
  album tables, the object storage behind them and the queue of pending physical deletions. Files are shared by
  content and surface and counted; images are live, trashed or gone; `used_storage` is a running total per user.
  `StoreRuns`, `StoreSafety` and `RequestEffects` let any number of surface moves, purges, uploads, trashing, restoring, account
  deletions, deletion tasks, failures and crashes interleave, one committed transaction or storage call at a time,
  and prove the global invariant for every run. `Agreement` and `Schedules` say when visibility and surface can
  drift apart and when they cannot, `AlbumRaces` does the same for private albums, `Operations`, `AlbumPrivacy` and
  `Repair` treat whole operations, `OperationRuns` shows that a move done in one go is one of the interleavings, and
  `Counterexamples` holds the short runs that show where a guard stops. `ImageFates` and `OperationEffects` follow one
  image through all of this: what may remove it, what may write to it, and that its bytes never change; `AlbumSteps`
  ties the steps of `AlbumRaces` to the whole operations.
- **Task runner** (`Tasks`, `TaskRunner`): the claim, run, retry and restart protocol, and the drain loop.
- **Rate limiter** (`Limiter`, `LimiterBounds`, `RateLimiter`): fixed windows with lazy expiry and sweeping.
- **Paged lists** (`Keyset`, `Paging`, `ImageLists`, `OtherLists`, `ListOrders`) and their cursors (`Decimal`,
  `Base64Url`, `Cursors`).
- **Disk cache** (`ServeCache`), **bandwidth meter** (`Bandwidth`, `BandwidthGate`) and **group expiry caps**
  (`Lifecycle`).

Conventions. A committed transaction is one atomic step. SHA-256 is injective, so a file's hash is represented by
its content and a cache file by its key. Rendered storage paths are fresh. Row ids are never reused. Clock readings
are parameters and never run backwards where a statement says so. What a database query returns is given by a
predicate (`Lists`, `ListsAlbum`, `ListsMismatched`, `Chosen`) or by the sorted set of matching keys. Sums over
tables are `Prelude.Sum`.

Some properties hold only under a condition; each has its condition and a short run that fails without it. A purge
that uses an older copy of the image row keeps counts if and only if the copy's file is current
(`Purge.StaleCopyKeepsCountsIff`). Visibility and surface agree when requests on one image do not overlap
(`Schedules.OneAtATimeAgrees`, step by step `Agreement.AgreementStep`). Live images in private albums are private
when, in addition, no album changes while a request about it is open (`AlbumRaces.ClashFreeRunsCover`), and `Restore`
looks at no album (`AlbumPrivacy.RestoreKeepsPrivateIff`). The meter shows a month exactly if no entry of another month
follows (`Bandwidth.ShowsMonthIff`). Requeueing stuck tasks can start a task twice at once
(`Tasks.StuckRequeueBreaksUnlessIdle`). One bound is sharper than the two windows it spans: an interval as long as a
rate window holds at most 2L - 1 admissions, not 2L.

Where a comment and the code disagree, the model follows the code: the trash list is said to be ordered by deletion
time and is ordered by id (internal/service/imagesvc/trash.go:7-23), and the images of a public album are said to be
paged by id and are paged by position and id (internal/service/albumsvc/albumsvc.go:252-283).

## Model

| member | source | states |
|---|---|---|
| `Purge.PurgeOneKeepsInv` | internal/service/imagesvc/purge.go:23-64 | A purge transaction run with a current copy of the row keeps every reference count exact, every image on an existing file, (hash, surface) unique, every original stored and unqueued, and every quota exact; it never fails. |
| `Purge.RefundIsExactAndOnce` | internal/service/imagesvc/purge.go:24-46 | The owner is refunded exactly the file's size, the clamp at zero never takes effect, and purging the same image again changes nothing. |
| `Purge.RefundNeverNegative` | internal/service/imagesvc/purge.go:33-46 | Whatever copy of the row a purge uses, no `used_storage` becomes negative or grows, and only that of the copy's owner changes. |
| `Purge.FreedIffNoRefs` | internal/service/imagesvc/purge.go:47-63 | The file row goes if and only if no live or trashed image points at it any more. |
| `Purge.StaleCopyKeepsCountsIff` | internal/service/imagesvc/purge.go:23-64 | With any copy of the row, however old, counts stay exact if and only if the gate stops the purge, the copy's file is gone, or the copy names the present file. |
| `Purge.PurgeAllIsExact` | internal/service/imagesvc/purge.go:256-279 | Purging a duplicate-free list in one transaction removes exactly those images, lowers each file's count by exactly their share, frees exactly the files that lose all references (each path once), and leaves other users' quotas alone. |
| `Purge.WithoutMeans` | internal/service/imagesvc/purge.go:47-63 | The closed form of a batch, row by row: a file stays if an image outside the batch points at it or none ever did, its count is the number of images outside that point at it, and a file that goes hands its original over. |
| `Accounts.DeleteUserIsExact` | internal/service/imagesvc/purge.go:102-144 | Account deletion equals its loop-free description: the user's images, row and albums go, each file loses exactly the user's share, and exactly the originals whose references were all the user's are freed. |
| `Accounts.DeleteUserEffect` | internal/service/imagesvc/purge.go:102-144 | Said of the rows alone: exactly the user's images, row and albums go, rows of others stay as they were, a file goes exactly when images point at it and all were the user's, otherwise it counts the others, and exactly the originals of the files that go are freed. |
| `Accounts.DeleteUserOrderIrrelevant` | internal/service/imagesvc/purge.go:110-122 | The order in which the images are loaded does not change the resulting state or the set of freed originals. |
| `Accounts.DeleteUserKeepsInv` | internal/service/imagesvc/purge.go:102-144 | Account deletion keeps counts, quotas, uniqueness and stored originals consistent. |
| `Accounts.UploadAgainKeepsInv` | internal/service/upload/instant.go:55-130 | An upload that finds its content on the same surface adds one image, one reference and one charge, or, when the file is gone or the quota has no room, is rolled back; either way the store stays consistent. |
| `Accounts.UploadNewKeepsInv` | internal/service/upload/save.go:250-288 | An upload of new content stores the object and then row, image and charge in one transaction, or rolls back and hands the stored original over for deletion; either way the store stays consistent and no row claims that original. |
| `Accounts.UploadsWithinQuota` | internal/service/upload/instant.go:97-128 | With a positive quota no upload, of known or of new content, brings its owner's use above the quota, or else every user's use is as before. |
| `Cleanup.OneMorePurged` | internal/service/imagesvc/purge.go:310-344 | Purging images one transaction at a time, live or trashed, adds up to the same closed form as one batch: counts, freed originals in the queue, untouched quotas of others. |
| `Rehome.CommitKeepsInv` | internal/service/imagesvc/surface.go:43-75 | The re-pointing transaction keeps the store consistent for any file ids it is called with, provided both hold the same content: a lost race changes nothing, a won one moves exactly one reference; no quota changes because equal content has equal size. |
| `Rehome.CreateKeepsInv` | internal/service/imagesvc/surface.go:202-220 | Creating the row for a copied object in a slot nobody takes keeps the store consistent. |
| `StoreSafety.EventKeepsSystem` | internal/service/imagesvc/surface.go:29-81 | Every atomic step of every operation, including failures, compensating deletes and crashes, keeps the global invariant of tables, objects, queue and requests in flight. |
| `StoreSafety.CommitKeepsSystem` | internal/service/imagesvc/surface.go:43-80 | A move that resolved its target earlier may commit after purges and other moves touched both files: the system invariant survives. |
| `StoreSafety.CreateKeepsSystem` | internal/service/imagesvc/surface.go:202-220 | Won, lost or failed, the creation of the (hash, surface) row keeps the system invariant, so no copy leaks and no row is left without its original. |
| `RequestEffects.CreateEffect` | internal/service/imagesvc/surface.go:202-220 | A request that loses the race for the (hash, surface) row deletes its copy and goes on with the winner, one whose insert fails deletes its copy and ends, and one that wins has a row for exactly its copy; a copy that could not be deleted is recorded as lost. |
| `RequestEffects.CopyEffect` | internal/service/imagesvc/surface.go:184-201 | Without the source object a request ends; when the thumbnail cannot be written its copy is taken back; otherwise the copy holds the row's content under a fresh name on the target surface. |
| `OperationRuns.CopiedAndCreated` | internal/service/imagesvc/surface.go:184-220 | The separate steps of copying the object and creating its row make exactly the row and object that finding-or-creating makes. |
| `StoreSafety.RunsKeepSystem` | internal/service/imagesvc/surface.go:175-221 | Every interleaved run from a consistent system stays consistent. |
| `StoreSafety.ReachableStore` | internal/service/imagesvc/purge.go:52-86 | In every reachable state each file row's original is stored with the content of its hash and is not queued, counts equal references, no image points at a missing file, (hash, surface) is unique, `used_storage` equals the size of the user's images, and, as long as nothing crashed or failed, every stored original is owned, queued, about to be queued or held by one resolve. |
| `ImageFates.StepOnImage` | internal/service/imagesvc/purge.go:23-64 | Of all atomic steps only the purge of an image and the removal of its owner's account remove it; every other step keeps its owner and writes to its row exactly the columns it is meant to write: trashed, or the visibility and album of a due write or of a move that meets its row. |
| `ImageFates.StepKeepsBytes` | internal/service/imagesvc/surface.go:29-81 | No atomic step, moves between surfaces included, changes the stored bytes behind an image that it leaves. |
| `ImageFates.ImageSurvives` | internal/service/imagesvc/surface.go:29-81 | In every interleaved run an image that nobody purges and whose owner's account nobody removes is still there at the end, its owner's, with the bytes it had at the start. |
| `ImageFates.StepAddsImage` | internal/service/upload/save.go:250-288 | Only uploads add images, one under the next id, with the sent bytes, the owner and album asked for, live, and with the visibility of the surface stored to. |
| `ImageFates.NewAdds` | internal/service/upload/save.go:250-288 | An upload of new content adds its image exactly when no row holds the content on that surface and the owner, if any, exists and has room under a positive quota. |
| `ImageFates.AgainAdds` | internal/service/upload/instant.go:55-130 | An upload of known content adds its image exactly when the file row is still there with a surface and the owner, if any, exists and has room; otherwise nothing changes. |
| `OperationRuns.MoveIsARun` | internal/service/imagesvc/surface.go:29-81 | In any consistent system a move done in one go leaves exactly the tables, objects, queue and requests of its atomic steps run without interruption. |
| `Agreement.WriteKeepsAgreeIff` | internal/service/imagesvc/update.go:186-190 | A plain column write keeps visibility and surface in agreement if and only if it writes no visibility or that of the file the image is on by now. |
| `Agreement.CommitKeepsAgreeIff` | internal/service/imagesvc/surface.go:43-75 | A committed move keeps agreement if and only if the image ends with the visibility of the target surface. |
| `Agreement.AgreementStep` | internal/service/imagesvc/update.go:168-190 | From a state where all images agree, any interleaved step leaves all agreeing if and only if it is not a write after a stale look or a repair overtaken by an update. |
| `Schedules.OneAtATimeAgrees` | internal/service/imagesvc/update.go:168-190 | When an update or repair of an image begins only while no other one on that image is open, every image's visibility equals its file's surface at every point of the run, whatever uploads, purges, trash, restores, account deletions, deletion tasks, failures and crashes interleave. |
| `Schedules.EventStaysSteady` | internal/service/imagesvc/surface.go:29-81 | Under that schedule every step keeps what each open request has learned about its image true: its file, the surface of that file, and, for a repair, its visibility. |
| `Schedules.SteadyNeverRaces` | internal/service/imagesvc/update.go:168-190 | A request whose knowledge is still true neither writes after a stale look nor is a repair overtaken by an update. |
| `Operations.UpdateEffect` | internal/service/imagesvc/update.go:39-192 | An image update succeeds exactly when image and album are the user's and it does not go public inside a private album; it then writes exactly the requested (or forced) visibility and album of that one image, and otherwise changes nothing. |
| `Operations.UpdateWrites` | internal/service/imagesvc/update.go:59-111 | After an accepted update the row's album is the one asked for, none, or the old one; an image moved into a private album is private; otherwise the visibility is the one asked for or the old one. |
| `Operations.UpdateKeepsInv` | internal/service/imagesvc/update.go:168-184 | An update keeps the store consistent and images in agreement, and one that writes a visibility brings its image into agreement even when it was not, as with rows from before surfaces existed. |
| `Operations.UpdateKeepsTidy` | internal/service/imagesvc/update.go:59-83 | An update keeps the store consistent, visibilities and surfaces in agreement, and live images in private albums private. |
| `Operations.PublicInsideRefused` | internal/service/imagesvc/update.go:59-83 | Whatever an update asks for, it leaves its image public in a private album only if the image was public there before and the update touches neither visibility nor album; a private image inside can only become public by leaving. |
| `Operations.ConvertAllWorks` | internal/service/albumsvc/extra.go:148-156 | Converting a list of images one update after another succeeds and changes the visibility of exactly the listed images. |
| `Operations.UpdateAlbumWorks` | internal/service/albumsvc/albumsvc.go:422-434 | Making an album private makes every live image in it private, and either change keeps everything tidy. |
| `Operations.UpdateAlbumEffect` | internal/service/albumsvc/albumsvc.go:355-434 | A change by the owner writes the album's visibility; public leaves images, files, objects and queue exactly as they were; private sets exactly the owner's live images in the album to private and leaves every other image row as it was; for anybody else nothing changes. |
| `Operations.SetImagesVisibilityKeepsTidy` | internal/service/albumsvc/extra.go:127-157 | The album-wide change succeeds exactly for the owner and not for public in a private album, and keeps everything tidy. |
| `Operations.SetImagesVisibilityEffect` | internal/service/albumsvc/extra.go:127-157 | The result names a foreign album or a private one asked to go public; otherwise exactly the user's live images in the album get the visibility, in either direction, and every other row, album and quota stays. |
| `AlbumPrivacy.OpKeepsSurfaces` | internal/service/albumsvc/extra.go:139-157 | Every completed operation, trash and restore by owner or administrator, upload, album deletion and account deletion included, keeps consistency and keeps visibility equal to surface. |
| `AlbumPrivacy.OpKeepsPrivacy` | internal/service/imagesvc/update.go:59-83 | Every operation other than restoring keeps live images in private albums private. |
| `AlbumPrivacy.RunsWithoutRestore` | internal/service/albumsvc/albumsvc.go:332-434 | Every run of operations without a restore keeps that, and all else tidy. |
| `AlbumPrivacy.RunsKeepSurfaces` | internal/service/imagesvc/trash.go:43-54 | Every run, restores included, keeps visibility equal to surface. |
| `AlbumRaces.StepKeepsOrder` | internal/service/albumsvc/extra.go:139-157 | Under a schedule where updates of one image do not overlap and no album changes while an update or upload about it is open, every atomic step keeps what open requests decided about album rows right. |
| `AlbumRaces.ClashFreeRunsCover` | internal/service/albumsvc/albumsvc.go:422-434 | In every interleaved run under that schedule a live image in a private album is private at every point, unless the conversion of that album is still going on or was given up. |
| `AlbumRaces.LateMoveUncovers` | internal/service/imagesvc/update.go:60-73 | A run in which an update reads an album while it is public and writes after it was turned private and converted, leaving a public image inside. |
| `AlbumRaces.CrossedUpdatesUncover` | internal/service/imagesvc/update.go:74-91 | A run in which two updates of one image cross and leave it public in a private album. |
| `AlbumSteps.UpdateAlone` | internal/service/imagesvc/update.go:59-190 | The steps of an update, uninterrupted, write exactly the columns that the whole operation writes, refusals included. |
| `AlbumSteps.UploadAlone` | internal/service/upload/resolve.go:11-25 | The steps of a user's upload, uninterrupted, add exactly the row that the whole operation adds, or none when it is rolled back. |
| `AlbumSteps.ChangeAlone` | internal/service/albumsvc/albumsvc.go:422-434 | The row, the listing and one conversion per listed image, uninterrupted, leave exactly the columns that the whole change of an album leaves. |
| `AlbumSteps.DeleteAlone` | internal/service/albumsvc/albumsvc.go:438-462 | The deletion step leaves exactly the columns that the operation leaves. |
| `AlbumPrivacy.RestoreKeepsPrivateIff` | internal/service/adminsvc/images.go:177-192 | A restore, the owner's or an administrator's, keeps the private-album claim if and only if the image is not a public one in a private album. |
| `AlbumPrivacy.DeleteAlbumKeepsAlbums` | internal/service/albumsvc/albumsvc.go:438-462 | Deleting an album, with or without trashing its images, leaves no image pointing at it and no public image in a private album. |
| `OperationEffects.DeleteAlbumEffect` | internal/service/albumsvc/albumsvc.go:438-462 | Deleting an album takes its owner's images out of it, trashes them exactly when asked to, leaves those already in the trash there, removes the row and touches nothing else; somebody else's album stays. |
| `OperationEffects.UploadRow` | internal/service/upload/resolve.go:11-25 | An upload adds exactly one live row, or nothing when the album is not the user's or the quota has no room: guests' rows are public and in no album, rows in a private album are private, all others have the visibility asked for, and the row holds the sent bytes. |
| `OperationEffects.OpDoes` | internal/service/imagesvc/trash.go:43-54 | Each operation that passes its checks has, when it is over, trashed, restored, removed, converted, created or deleted what it was asked to. |
| `OperationEffects.OpLeavesNoOrphans` | internal/service/imagesvc/purge.go:66-98 | Every completed operation leaves each stored original with a row or in the deletion queue: moves, purges, account deletions and rolled-back uploads queue all they free. |
| `OperationEffects.OpKeepsBytes` | internal/service/imagesvc/update.go:168-190 | No whole operation changes the stored bytes behind an image that it leaves. |
| `OperationEffects.OthersRowsStay` | internal/service/imagesvc/update.go:39-58 | Whatever a user does, album-wide changes, album deletion and account deletion included, the image rows of other users and of guests stay exactly as they are. |
| `Repair.RepairEstablishesAgreement` | internal/service/imagesvc/surface.go:85-118 | From any consistent store, whatever its visibilities, the repair run alone leaves no live image mismatched, changes no visibility and no image that agreed, and counts exactly the images it moved. |
| `OperationEffects.RepairKeepsContents` | internal/service/imagesvc/surface.go:85-118 | Every image points, after the repair of any part of the list, at a file of the content it had before. |
| `Counterexamples.StalePurgeBreaksCounts` | internal/service/imagesvc/purge.go:310-333 | A run of two users' uploads and one move after which the clean-up of expired images, holding the row it read before the move, deletes a file that the other user's image still shows. |
| `Counterexamples.LateWriteBreaksAgreement` | internal/service/imagesvc/update.go:168-190 | A run of two overlapping updates of one owned image that leaves a public image on a private file; the schedule above is violated. |
| `Counterexamples.RestoreIntoPrivateAlbum` | internal/service/imagesvc/trash.go:43-54 | A concrete run of tidy operations after which a restore puts a public image into a private album. |
| `ImageService.Service.PurgeImage` | internal/service/imagesvc/purge.go:23-64 | The transaction on the tables in place leaves exactly the state and outcome of `PurgeOne`. |
| `ImageService.Service.PurgeBatch` | internal/service/imagesvc/purge.go:263-272 | The loop over rows read beforehand leaves the state and the freed originals of `PurgeAll`, which `PurgeAllIsExact` describes without a loop. |
| `ImageService.Service.DeleteUserData` | internal/service/imagesvc/purge.go:102-144 | The loop and the enqueues leave the loop-free state, with exactly the user's orphaned originals queued, for any order; the images left are the others', as they were. |
| `ImageService.Service.EmptyTrash` | internal/service/imagesvc/purge.go:256-279 | Exactly the user's trashed images go, exactly the originals they orphan are queued, and other users' quotas are untouched. |
| `ImageService.Service.AdminPurge` | internal/service/imagesvc/purge.go:149-195 | The image is gone, and its original is queued if and only if no other image retains the file. |
| `ImageService.Service.PurgeEachDue` | internal/service/imagesvc/group_lifecycle.go:78-109 | Exactly the listed images that are still live and due when their turn comes are purged, their orphaned originals queued, and counted. |
| `ImageService.Service.TrashEachDue` | internal/service/imagesvc/group_lifecycle.go:37-49 | Exactly the listed images that are still live and due are trashed and counted; nothing else changes. |
| `ImageService.Service.ResolveFileForSurface` | internal/service/imagesvc/surface.go:175-221 | Finds the row of the content on the surface or copies the object and creates one; fails only when the source object is missing. |
| `ImageService.Service.CommitMove` | internal/service/imagesvc/surface.go:43-75 | The compare-and-swap transaction in place leaves exactly the state and outcome of `Commit`. |
| `ImageService.Service.RehomeWithUpdates` | internal/service/imagesvc/surface.go:29-81 | On a live image the move succeeds, keeps the store consistent and queues the original of a file left without references. |
| `ImageService.Service.RehomeMismatchedSurfaces` | internal/service/imagesvc/surface.go:85-118 | Run alone it moves every mismatched live image, none other, and leaves all live images in agreement. |
| `ImageService.Service.Update` | internal/service/imagesvc/update.go:39-192 | The update in place is the one whose effect `UpdateEffect` states, and keeps consistency and agreement. |
| `ImageService.Service.SetAlbumVisibility` | internal/service/albumsvc/extra.go:127-157 | The loop over the album's live images stops at no image and gives exactly them the visibility; the refusals change nothing. |
| `ImageService.Service.UpdateAlbumRow` | internal/service/albumsvc/albumsvc.go:422-434 | The album row first, then, only when it turned private, its live images: public changes nothing but the row, private exactly the owner's live images in the album; the result is tidy. |
| `Tasks.EventKeepsInv` | internal/task/task.go:63-128 | Every step of enqueue, claim, run and restart keeps: one holder per running task, the holder's attempts are the row's, every start is paid for by an attempt, a crash or the one success. |
| `Tasks.ExecutionBound` | internal/task/task.go:97-128 | In every run with C restarts and no stuck-requeue a task's handler is started at most 3 + C times, by at most one worker at a time, whose attempts equal the row's. |
| `Tasks.BoundIsReached` | internal/task/task.go:156-172 | For every C some run starts a handler exactly 3 + C times. |
| `Tasks.SettledIsFinal` | internal/task/task.go:115-127 | A done or failed row never changes again, and its handler is never started again. |
| `Tasks.RestartEffect` | internal/task/task.go:156-172 | A restart settles and unsettles no task: running ones become pending with kind, payload and attempts as they were, all other rows stay, and no worker holds anything. |
| `Tasks.EnqueueEffect` | internal/task/task.go:50-60 | An enqueued task comes in under an id above all others, pending, untried and due now, with the given kind and payload, and changes no other. |
| `Tasks.StuckRequeueBreaksUnlessIdle` | internal/task/task.go:175-191 | A stuck-requeue keeps the protocol's invariant if and only if the task was not running. |
| `Tasks.StuckRequeueOvertakes` | internal/task/task.go:175-191 | A concrete run in which two workers run one task and a done row falls back to pending. |
| `TaskRunner.Runner.Enqueue` | internal/task/task.go:50-60 | Adds one pending, untried task of the given kind and payload under an id above all others, due now. |
| `TaskRunner.Runner.Claim` | internal/task/task.go:63-95 | Claims the pending task with the smallest id and marks it running, or finds that none is pending. |
| `TaskRunner.Runner.Run` | internal/task/task.go:97-128 | Writes failed without a handler, done after a return, and otherwise one more attempt with pending or, at the third, failed; a panic counts as an error. |
| `TaskRunner.Runner.RequeueAllRunning` | internal/task/task.go:156-172 | After a restart exactly the tasks that were running are pending, with kind, payload and attempts as they were, and every other row is unchanged. |
| `TaskRunner.Runner.DrainOnce` | internal/task/task.go:131-146 | The drain terminates; it executes ids in non-decreasing order, each exactly as often as its own attempts and handler demand; every task keeps the ending it would have alone; unless cancelled, nothing is left pending. |
| `TaskRunner.DrainedTasks` | internal/task/task.go:131-146 | A completed drain took at most the sum of the attempts left, and every task has its own ending. |
| `TaskRunner.DrainedAfterRestart` | internal/task/task.go:131-172 | A drain that completes after a restart ends every task that was pending or running as it would have ended from pending with its attempts; done and failed rows keep status and attempts. |
| `TaskRunner.DoneIff` | internal/task/task.go:97-128 | A task ends done if and only if its kind has a handler that returns within the attempts left. |
| `TaskRunner.TurnFollowsProtocol` | internal/task/task.go:131-146 | Claiming and executing one task is a stretch of the protocol by one idle worker, with no restart and no stuck-requeue, so the protocol's bounds hold for the drain. |
| `Limiter.SweepingIsInvisible` | internal/handler/ratelimit.go:49-62 | Over every run with a monotone clock a limiter that sweeps at any moments answers, names tiers and gives retry times like one that never sweeps. |
| `Limiter.AllowOne` | internal/handler/ratelimit.go:87-104 | A single window admits exactly when it is not full; an admission shows one more in the open window or the first of a new one, a refusal and every other key show what they showed. |
| `Limiter.RefusalIff` | internal/handler/ratelimit.go:119-128 | The pre-check refuses exactly when some enabled tier is full, names the first such tier, and asks to wait until its window ends, never a negative time. |
| `Limiter.RefusalCountsNothing` | internal/handler/ratelimit.go:108-128 | A refusal changes no count that can still be seen. |
| `Limiter.EachTierCountedOnce` | internal/handler/ratelimit.go:129-136 | Once the pre-check passed, every enabled tier is counted exactly once, at its own later clock reading, and no other key changes. |
| `LimiterBounds.AdmissionBounds` | internal/handler/ratelimit.go:87-104 | Over every run, with limits up to L on a key, one window admits at most L and any closed interval of a window's length at most 2L - 1. |
| `LimiterBounds.BurstReachesBound` | internal/handler/ratelimit.go:87-104 | For every limit L some run admits 2L - 1 requests of one key within one minute. |
| `LimiterBounds.AnswersTell` | internal/handler/ratelimit.go:87-104 | A limited request is one of the counted admissions exactly when its answer grants it. |
| `LimiterBounds.TieredAnswersTell` | internal/handler/ratelimit.go:119-136 | A refused tiered request is admitted under no key; a granted one exactly once under the key of each enabled tier. |
| `RateLimiter.RateLimiter.SweepExpired` | internal/handler/ratelimit.go:49-55 | Deletes exactly the keys whose window ended before `now` and changes no other. |
| `RateLimiter.RateLimiter.Allow` | internal/handler/ratelimit.go:87-104 | A limit of zero or less admits without counting. Otherwise the request passes exactly when the window is over or holds less than the limit; it counts one more in an open window, whose end stays, or opens one that ends `dur` later; other keys lose at most windows that have ended. |
| `RateLimiter.RateLimiter.CountEach` | internal/handler/ratelimit.go:129-135 | The loop counts every enabled tier once, at clock readings that never run backwards. |
| `RateLimiter.RateLimiter.AllowN` | internal/handler/ratelimit.go:108-137 | With the three windows written out: the answer names minute, hour or day, the first whose own positive limit is reached in an open window, and the time until that window ends; a refusal changes no visible count; an admission shows one more in exactly the windows whose limit is positive, a new one ending 60, 3600 or 86400 seconds after its reading; no key of another id changes. |
| `RateLimiter.ThreeTiersChecked` | internal/handler/ratelimit.go:108-128 | The pre-check of minute, hour and day in terms of the three keys and limits themselves, swept or not. |
| `RateLimiter.ThreeTiersCounted` | internal/handler/ratelimit.go:129-136 | What the three keys and all others show after the counting, with the windows' lengths in nanoseconds. |
| `RateLimiter.OtherIdsUntouched` | internal/handler/ratelimit.go:124-135 | No window of another id is one of this id's three, whatever characters the ids hold. |
| `Decimal.UintRoundTrip` | internal/service/imagesvc/cursor.go:44-47 | Parsing a formatted unsigned 64-bit number gives it back. |
| `Decimal.IntRoundTrip` | internal/service/imagesvc/cursor.go:52-55 | Parsing a formatted signed 64-bit number gives it back. |
| `Decimal.Itoa` | internal/handler/ratelimit.go:230-242 | Filling the 20-byte buffer from its end never runs out of room and yields the decimal numeral. |
| `Base64Url.RoundTrip` | internal/service/imagesvc/cursor.go:25-27 | Decoding the unpadded base64url text of any byte string gives it back. |
| `Base64Url.GroupsAreNumbers` | internal/service/imagesvc/cursor.go:25-27 | A group of one, two or three bytes, read as a number in base 256, is its characters read in base 64 and filled up with zero bits. |
| `Cursors.ListCursorRoundTrip` | internal/service/imagesvc/cursor.go:19-58 | Decoding an encoded list cursor gives it back for every value, id and byte string as name, if and only if the sort holds no separator. |
| `Cursors.FeedCursorRoundTrip` | internal/service/discoversvc/cursor.go:18-41 | The same for the public feed's cursor. |
| `Cursors.CursorLayouts` | internal/service/imagesvc/cursor.go:19-27 | Decoded, a list cursor is sort, encoded value and id, and a feed cursor sort, value and id, around the unit separator. |
| `Keyset.PageIsExact` | internal/service/imagesvc/list.go:60-82 | Between the old cursor and the new one a page returns every key and no other, in order, at most `limit` of them. |
| `Keyset.WalkIncreases` | internal/service/imagesvc/list.go:27-82 | Whatever happens to the table between pages, keys come back strictly increasing, so none twice. |
| `Keyset.CompleteWalk` | internal/service/imagesvc/list.go:27-82 | A finished traversal returns every key present throughout exactly once. |
| `Keyset.StillWalkEnds` | internal/service/imagesvc/list.go:60-82 | On a table that stands still the traversal ends after ceil(size / limit) pages with the whole sorted table. |
| `Paging.LessIsTotal` | internal/service/imagesvc/imagesvc.go:80-96 | Every order used for paging is a strict total order, ids breaking all ties. |
| `Paging.NeverTwice` | internal/service/imagesvc/list.go:27-82 | A client following cursor texts never gets a row twice while its sort key stays as it is, whatever else changes between pages. |
| `Paging.ExactlyOnce` | internal/service/imagesvc/list.go:27-82 | A finished traversal by texts returns every row listed throughout under one sort key exactly once. |
| `Paging.StillTraversal` | internal/service/imagesvc/list.go:27-82 | Over a table that stands still the pages are the sorted list cut into pages, and the last text is empty exactly after the last page. |
| `ImageLists.ClauseIsOrder` | internal/service/imagesvc/list.go:27-59 | For date, size, name and position the WHERE clause of a cursor selects exactly the rows that ORDER BY puts after it. |
| `ImageLists.ListServes` | internal/service/imagesvc/list.go:11-88 | In every sort, and for any collation that tells different names apart, the list answers every text it has handed out with the page after it, so the traversal theorems hold for it. |
| `ImageLists.UnchangedKey` | internal/service/imagesvc/list.go:50-59 | The condition of the two traversal theorems is that every table listing the image gives it the same sort column. |
| `ImageLists.CursorsDoNotMix` | internal/service/imagesvc/list.go:28-31 | A cursor of one sort is refused by a list in another, and only then. |
| `ListOrders.ListOrder` | internal/service/imagesvc/list.go:60-67 | Every answer, for any cursor, holds kept images in the order of the columns themselves: size descending then id descending, name ascending then id ascending, position ascending then id descending, or id descending. |
| `ListOrders.WholeList` | internal/service/imagesvc/list.go:11-88 | Over a table that stands still, following the texts from none to none returns exactly the kept images, once each, in that order of the columns, in pages of the limit (24 by default), all but the last full. |
| `ListOrders.ListRefusals` | internal/service/imagesvc/list.go:12-31 | An unknown sort, then a refused filter, then a cursor that does not decode or was made in another sort is refused, and nothing else. |
| `ListOrders.DateIsDefault` | internal/service/imagesvc/list.go:92-97 | Without a sort the list answers every cursor as the list by date does. |
| `OtherLists.TrashServes` | internal/service/imagesvc/trash.go:8-38 | The trash list is such an endpoint. |
| `ListOrders.TrashOrder` | internal/service/imagesvc/trash.go:25-27 | Every answer holds trashed images, latest ids first. |
| `ListOrders.WholeTrash` | internal/service/imagesvc/trash.go:8-38 | A finished traversal of a trash that stands still is exactly the trash, latest ids first, in full pages of the limit, 24 by default. |
| `ListOrders.TrashRefusals` | internal/service/imagesvc/trash.go:16-20 | The trash refuses exactly cursors that do not decode or name another list, among them every cursor of the image list. |
| `OtherLists.HotServes` | internal/service/discoversvc/discoversvc.go:105-152 | The feed by views is such an endpoint. |
| `ListOrders.HotOrder` | internal/service/discoversvc/discoversvc.go:105-152 | Every answer holds listed images, most viewed first, equal views by latest id. |
| `ListOrders.WholeFeed` | internal/service/discoversvc/discoversvc.go:105-152 | A finished traversal of a feed that stands still is exactly the feed, in that order, in full pages of at most 60. |
| `ListOrders.HotRefusals` | internal/service/discoversvc/discoversvc.go:105-152 | The feed refuses exactly cursors that do not decode or name another order. |
| `OtherLists.AlbumsServe` | internal/service/albumsvc/extra.go:205-256 | The stream of public albums is such an endpoint. |
| `ListOrders.AlbumOrder` | internal/service/albumsvc/extra.go:205-256 | Every answer holds listed albums, latest ids first. |
| `ListOrders.WholeStream` | internal/service/albumsvc/extra.go:205-256 | A finished traversal of albums that stand still is exactly the albums, in that order, in full pages of at most 60. |
| `ListOrders.StreamCursors` | internal/service/albumsvc/extra.go:205-256 | Blanks around a cursor numeral make no difference; zero and texts that are no numeral start from the beginning. |
| `OtherLists.GridServes` | internal/service/albumsvc/albumsvc.go:253-313 | The images of a public album are such an endpoint. |
| `ListOrders.GridOrder` | internal/service/albumsvc/albumsvc.go:253-313 | Every answer holds images of the album by ascending position, equal positions by latest id. |
| `ListOrders.WholeGrid` | internal/service/albumsvc/albumsvc.go:253-313 | A finished traversal of an album that stands still is exactly the album, in that order, in full pages of at most 100. |
| `OtherLists.LoneIdsContinueIff` | internal/service/albumsvc/albumsvc.go:284-286 | Old cursors, a lone id, continue the listing from every image if and only if positions follow the ids. |
| `ServeCache.PutBound` | internal/servecache/cache.go:66-91 | After every accepted put, from any directory, the entries total at most the budget or the size of the new one, and the new one is there. |
| `ServeCache.PutLeaves` | internal/servecache/cache.go:66-91 | An accepted put leaves the new entry and, with bytes and times as they were, every other path that is no victim and not the entry's own temporary file; with room for the bytes nothing is a victim. |
| `ServeCache.PutKeepsNewest` | internal/servecache/cache.go:119-127 | What an accepted put takes away is an entry no newer than any other entry it leaves; temporary files of other keys stay. |
| `ServeCache.VictimsAreOldest` | internal/servecache/cache.go:119-127 | No victim is newer than an entry that survives the eviction. |
| `ServeCache.NoFewerVictims` | internal/servecache/cache.go:116-127 | The victims are the shortest oldest-first prefix that makes room. |
| `ServeCache.JustReadGoesLast` | internal/servecache/cache.go:52-64 | An entry read just now is evicted only when every entry used before it is. |
| `ServeCache.HitIsLatestPut` | internal/servecache/cache.go:52-91 | In every run a hit returns the bytes of the latest accepted put of its key. |
| `ServeCache.HitIsOriginal` | internal/servecache/cache.go:52-64 | Without an accepted put of its key a hit returns what the directory held at the start. |
| `ServeCache.Cache.Scan` | internal/servecache/cache.go:99-119 | The walk lists every entry once, oldest first, ignores temporary files, and adds up their sizes. |
| `ServeCache.Cache.Evict` | internal/servecache/cache.go:99-129 | The loop removes oldest entries one by one and stops as soon as the incoming bytes fit. |
| `ServeCache.Cache.Put` | internal/servecache/cache.go:66-91 | Empty and oversized data changes nothing; anything else is stored within the bound, other entries stay with their bytes and times unless they are evicted, oldest first, and all stay when the bytes fit. |
| `ServeCache.Cache.Get` | internal/servecache/cache.go:52-64 | Returns the stored bytes, dates the entry now, and leaves every other entry, its time included, as it was. |
| `Bandwidth.ShowsMonthIff` | internal/service/bandwidth/bandwidth.go:94-106 | The (used, period) pair shows exactly the month's bytes if and only if no entry of the month is followed by one of another month. |
| `Bandwidth.CurrentMonthExact` | internal/service/bandwidth/bandwidth.go:35-43 | With non-decreasing periods the effective use of the current month is the sum of its entries. |
| `Bandwidth.NeverOverstates` | internal/service/bandwidth/bandwidth.go:35-43 | In any order of entries no month is shown with more than its bytes. |
| `Bandwidth.LateEntryForgetsMonth` | internal/service/bandwidth/bandwidth.go:98-104 | An entry computed before the turn of the month and written after it wipes out the new month's use. |
| `Bandwidth.UserRow.Add` | internal/service/bandwidth/bandwidth.go:94-106 | One update adds within the month or starts over, so that the month's effective use grows by exactly the bytes. |
| `Bandwidth.UserRow.Check` | internal/service/bandwidth/bandwidth.go:67-91 | The gate opens exactly when there is no quota or the month's effective use is below it. |
| `BandwidthGate.OvershootBound` | internal/service/servesvc/servesvc.go:100-106 | Under every interleaving of looks, decisions, month readings and adds of at most K requests in flight of at most S bytes, across any turns of the month, no month's effective use exceeds quota - 1 + K * S, if it starts within that. |
| `BandwidthGate.OvershootIsReached` | internal/service/servesvc/servesvc.go:141-146 | For every quota, K and S some run reaches that bound exactly. |
| `BandwidthGate.DecideEffect` | internal/service/bandwidth/bandwidth.go:67-91 | A request is let through exactly when there is no quota or the row it read, if of the present month, shows less than the quota. |
| `BandwidthGate.AddEffect` | internal/service/bandwidth/bandwidth.go:94-106 | A served request adds its bytes to the month it read, starting over when the row is of another one. |
| `Lifecycle.ChecksAgree` | internal/service/imagesvc/group_access_check.go:10-35 | An expiry passes the check on an update at `now` if and only if clamping at `now` would leave it alone, wrapped products included. |
| `Lifecycle.StoredCapIsMeant` | internal/service/adminsvc/groups.go:171-192 | For every group that passes the validation no product wraps; the computed cap is zero exactly when neither limit is set, and otherwise the smallest of the limits that are set and a year; an update's expiry passes exactly when there is no cap or it is within it. |
| `Lifecycle.ValidSettingsIff` | internal/service/adminsvc/groups.go:171-192 | Settings are storable exactly when each lies within its bound (a year, 10000 views, 3650 days) and no default exceeds a maximum that is set. |
| `Lifecycle.CapIsMeantIff` | internal/service/imagesvc/apply_lifecycle.go:122-140 | For arbitrary numbers, the computed cap is the one described if and only if the 64-bit product has not wrapped below it. |
| `Lifecycle.NeverLengthens` | internal/service/imagesvc/apply_lifecycle.go:71-109 | Clamping sets what it changes to now + cap, never lengthens an expiry and touches only listed images past the cap. |
| `Lifecycle.CallEffect` | internal/service/imagesvc/apply_lifecycle.go:71-109 | One call alone dates at now plus the cap exactly min(due, limit) of the listed images that never expire or expire later, 500 by default, the lowest ids first, and changes no other row. |
| `Lifecycle.EnoughCalls` | internal/service/imagesvc/apply_lifecycle.go:84-107 | ceil(n / limit) calls at advancing times leave no candidate. |
| `Lifecycle.DoneMeansChecked` | internal/service/imagesvc/group_access_check.go:27-34 | No candidate is left if and only if every listed image of the group passes the check. |
| `Lifecycle.PreviewCountsCandidates` | internal/service/imagesvc/apply_lifecycle.go:50-59 | The preview's two counts add up to the number of candidates. |
| `Lifecycle.GroupImages.ApplyLifecycle` | internal/service/imagesvc/apply_lifecycle.go:71-109 | Exactly the queried images that are still listed and never expire or expire after now + cap end there and are counted as updated; all other rows stay, and the rest of the query is counted as skipped. |
| `Lifecycle.CallAlone` | internal/service/imagesvc/apply_lifecycle.go:87-108 | Run on what its own query returned, a call updates min(candidates, limit) images and skips none. |

## Left out

- `ImageLists.ListServes`: collations under which different names compare as equal are not modelled.
- `OtherLists.GridServes`: the cursor parser reads "pos:id" and a lone id, but not the leading blanks and trailing text that the scanning function tolerates.
- `Accounts.UploadAgainKeepsInv`: the search for a reusable row, naming and moderation are not modelled; an upload's steps are one event of the interleaved runs.
- `Accounts.UploadNewKeepsInv`: decoding, checks and thumbnails before the transaction are not modelled; storing the object and the transaction are one event of the interleaved runs.
- `Operations.UpdateEffect`: only visibility and album; name, slug, password, expiry and view limit and their validation errors are not modelled.
- `ImageService.Service.Update`: as `Operations.UpdateEffect`.
- `AlbumPrivacy.RunsWithoutRestore`: operations run one after another; `AlbumRaces` treats interleavings, on album and visibility columns alone and without restores.
- `TaskRunner.Runner.DrainOnce`: handlers that enqueue further tasks while the drain runs are not modelled.
- `BandwidthGate.OvershootBound`: administrators' requests, which skip the check and are still metered, are not part of the runs.
- `Tasks.ExecutionBound`: runs with a stuck-requeue are excluded, because a worker that is still running writes its result all the same; `Tasks.StuckRequeueOvertakes` shows what then happens.
- Callers that read an image row before the purge transaction take load and transaction as one step in the interleaved runs; what an older copy does is stated by `Purge.StaleCopyKeepsCountsIff` alone.
- Thumbnails: their keys follow from surface and hash and they are regenerated on demand, so objects and queue hold originals only.
- File rows created by a resolve whose commit then loses its race stay with a count of zero; nothing collects them, in the program or here.
- Crashes between a commit and its enqueue, failed enqueues and deletions given up are steps of the interleaved runs, but then nothing is claimed about unowned objects.
- Storage policies other than one, and per-policy drivers.
- Batch renaming with templates, placeholder expansion and case folding: string processing of the library kind.
- The feed sorted by "new": its cursor truncates timestamps to seconds.
- The multiplier on named buckets: floating-point scaling of a limit.
- Overflow of the 64-bit byte counter of the bandwidth meter, and the calendar that turns instants into months.
- View limits (`ClaimView`, `checkGroupMaxViews`) and the other branches of `Authorize`: each is one guarded update or one comparison.
- Failed database writes inside the runner, and the polling, waking and cancellation of its worker pool.
- Moderation, settings, users, HTTP handlers, mail, sign-in, image codecs and the front end.
