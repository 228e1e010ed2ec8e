/**
  The image service as it runs: tables, objects and queue are fields that the operations update in place.
  Every method is tied to the state functions whose properties the other modules prove.
 */
module ImageService {
  import opened Prelude
  import opened StoreState
  import opened Purge
  import opened Rehome
  import opened Accounts
  import opened StoreRuns
  import opened StoreSafety
  import opened Agreement
  import opened Operations
  import opened AlbumPrivacy
  import opened Repair
  import opened Cleanup

  class Service {
    var images: map<ImageId, Image>
    var files: map<FileId, File>
    var users: map<UserId, int>
    var albums: map<AlbumId, Album>
    var objects: map<Path, Content>
    var queue: set<Path>
    var nextImage: ImageId
    var nextFile: FileId
    var nextName: nat

    function View(): State
      reads this
    {
      State(images, files, users, albums, objects, queue, nextImage, nextFile, nextName)
    }

    constructor ()
      ensures View() == EMPTY
    {
      images, files, users, albums, objects, queue := map[], map[], map[], map[], map[], {};
      nextImage, nextFile, nextName := 0, 0, 0;
    }

    /** `used_storage` down by the size, or to zero. */
    method RefundQuota(owner: Option<UserId>, size: nat)
      modifies this`users
      ensures users == RefundOwner(old(users), owner, size)
    {
      if owner.Some? && owner.value in users {
        if users[owner.value] >= size {
          users := users[owner.value := users[owner.value] - size];
        } else {
          users := users[owner.value := 0];
        }
      }
    }

    /** Decrement, then delete the row if nothing is left; tells whether it did. */
    method ReleaseFile(f: FileId) returns (gone: bool)
      modifies this`files
      ensures files == DropRef(old(files), f)
      ensures gone <==> f in old(files) && f !in files
    {
      gone := false;
      if f in files {
        files := files[f := files[f].(refCount := files[f].refCount - 1)];
        if files[f].refCount <= 0 {
          files := files - {f};
          gone := true;
        }
      }
    }

    method PurgeImage(id: ImageId, img: Image) returns (o: Outcome)
      modifies this`images, this`files, this`users
      ensures (View(), o) == PurgeOne(old(View()), id, img)
    {
      if id !in images || !images[id].trashed {
        return Skipped;
      }
      if img.file !in files {
        return Failed;
      }
      images := images - {id};
      var file := files[img.file];
      RefundQuota(img.user, file.size);
      var gone := ReleaseFile(img.file);
      o := if gone then FileFreed(file.path) else FileKept;
    }

    /** Queues the original; true when something was queued. */
    method EnqueuePhysical(o: Outcome) returns (queued: bool)
      modifies this`queue
      ensures queue == old(queue) + FreedBy(o)
      ensures queued <==> o.FileFreed?
    {
      queued := o.FileFreed?;
      if queued {
        queue := queue + {o.path};
      }
    }

    method MoveToTrash(id: ImageId)
      modifies this`images
      ensures View() == SetTrashed(old(View()), id, true)
    {
      if id in images {
        images := images[id := images[id].(trashed := true)];
      }
    }

    /**
      Account deletion. The result is the closed form, whatever the order of the loop, and exactly the
      originals that only this user's images referenced are queued.
     */
    method DeleteUserData(user: UserId, order: seq<ImageId>)
      requires Inv(View()) && Lists(order, View(), user)
      modifies this
      ensures View() == WithoutUser(old(View()), user)
                        .(queue := old(queue) + PathsFreed(old(View()), Owned(old(images), user)))
      ensures Inv(View())
      ensures forall i :: i in images <==> i in old(images) && old(images)[i].user != Some(user)
      ensures forall i :: i in images ==> images[i] == old(images)[i]
      ensures user !in users && forall a :: a in albums ==> albums[a].owner != user
    {
      hide Inv, WithoutUser, FilesPresent, PathsFreed;
      ghost var start := View();
      images := TrashAllOf(View(), user).images;
      assert View() == TrashAllOf(start, user);
      var freed := PurgeBatch(order);
      users := users - {user};
      albums := map a | a in albums && albums[a].owner != user :: albums[a];
      DeletedThenQueued(start, user, order);
      WithoutUserRows(start, user);
      EnqueueAll(freed);
    }

    method EnqueueAll(freed: seq<Path>)
      modifies this`queue
      ensures queue == old(queue) + Elements(freed)
    {
      var k := 0;
      while k < |freed|
        invariant 0 <= k <= |freed|
        invariant queue == old(queue) + Elements(freed[..k])
      {
        var _ := EnqueuePhysical(FileFreed(freed[k]));
        k := k + 1;
        DropLastElement(freed[..k]);
        assert freed[..k][..k - 1] == freed[..k - 1];
      }
      assert freed[..k] == freed;
    }

    /** Purges a batch of trashed rows, read once, in one transaction. */
    method PurgeBatch(order: seq<ImageId>) returns (freed: seq<Path>)
      requires forall id :: id in order ==> id in images
      modifies this`images, this`files, this`users
      ensures (View(), freed) == PurgeAll(old(View()), order, old(images))
    {
      ghost var start := View();
      var rows := images;
      freed := [];
      var k := 0;
      while k < |order|
        invariant 0 <= k <= |order|
        invariant (View(), freed) == PurgeAll(start, order[..k], rows)
      {
        var o := PurgeImage(order[k], rows[order[k]]);
        if o.FileFreed? {
          freed := freed + [o.path];
        }
        k := k + 1;
        assert order[..k][..k - 1] == order[..k - 1];
      }
      assert order[..k] == order;
    }

    /** Empties a user's trash in one transaction: exactly those images go, and exactly their orphans are queued. */
    method EmptyTrash(user: UserId, order: seq<ImageId>) returns (n: nat)
      requires Inv(View()) && NoDuplicates(order)
      requires forall id :: id in order <==> id in images && images[id].user == Some(user) && images[id].trashed
      modifies this
      ensures n == |order| && Inv(View())
      ensures images == old(images) - Elements(order)
      ensures files == FilesWithout(old(View()), Elements(order))
      ensures queue == old(queue) + PathsFreed(old(View()), Elements(order))
      ensures forall u :: u in old(users) && u != user ==> u in users && users[u] == old(users)[u]
    {
      hide Inv, PurgeAll;
      BatchThenQueue(View(), order);
      assert forall u :: u != user ==> OwnsNone(images, u, Elements(order));
      var freed := PurgeBatch(order);
      EnqueueAll(freed);
      n := |order|;
    }

    /**
      Administrative purge of a live or trashed image. The image is gone, and either its original was
      queued or its file is retained for others, never both.
     */
    method AdminPurge(id: ImageId) returns (found: bool, queued: bool, retained: bool)
      requires Inv(View())
      modifies this
      ensures found <==> id in old(images)
      ensures View() == PerformPurge(old(View()), id)
      ensures found ==> id !in images && (queued <==> !retained)
      ensures found ==> (retained <==> exists i :: i in images && images[i].file == old(images)[id].file)
      ensures Inv(View())
    {
      hide FilesBacked, QuotasExact, PathsDistinct, HashSurfaceUnique, Inv;
      found, queued, retained := id in images, false, false;
      if !found {
        return;
      }
      ghost var start := View();
      var file := images[id].file;
      MoveToTrash(id);
      ghost var ready := View();
      var o := PurgeImage(id, images[id]);
      SetTrashedSameLinks(start, id, true);
      SameLinksKeepsInv(start, ready);
      PurgeOneKeepsInv(ready, id, ready.images[id]);
      FreedIffNoRefs(ready, id, ready.images[id]);
      queued := EnqueuePhysical(o);
      retained := file in files;
      PurgeStepDrops(start, id);
      DropThenQueue(start, View().(queue := start.queue), FreedBy(o));
      assert retained <==> Refs(images, file) != {};
    }

    // ----- scheduled clean-ups -----

    /** Purges every listed image that is still live and due; the count is the number of images gone. */
    method PurgeEachDue(order: seq<ImageId>, due: set<ImageId>) returns (n: nat)
      requires Inv(View()) && NoDuplicates(order)
      modifies this
      ensures PurgedAndQueued(old(View()), DueIn(old(images), order, due), View())
      ensures n == |DueIn(old(images), order, due)|
      ensures Inv(View())
      ensures forall i :: i in images <==>
                i in old(images) && (i !in order || i !in due || old(images)[i].trashed)
      ensures forall i :: i in images ==> images[i] == old(images)[i]
      ensures forall f :: f in old(files) && f !in files ==> old(files)[f].path in queue
    {
      hide Inv, PurgedAndQueued, DueIn, PerformPurge;
      ghost var start := View();
      assert FilesPresent(start) && RefsExact(start) && PathsDistinct(start) by { InvParts(start); }
      NothingPurged(start);
      DueInNone(start.images, due);
      n := 0;
      var k := 0;
      while k < |order|
        invariant 0 <= k <= |order|
        invariant Inv(View())
        invariant PurgedAndQueued(start, DueIn(start.images, order[..k], due), View())
        invariant n == |DueIn(start.images, order[..k], due)|
      {
        var id := order[k];
        DueInOneMore(start.images, order[..k], due, id);
        RemainingRows(start, DueIn(start.images, order[..k], due), View(), id);
        assert order[..k + 1] == order[..k] + [id];
        if id in images && !images[id].trashed && id in due {
          OneMorePurged(start, DueIn(start.images, order[..k], due), View(), id);
          var _, _, _ := AdminPurge(id);
          n := n + 1;
        } else {
          assert DueIn(start.images, order[..k + 1], due) == DueIn(start.images, order[..k], due);
        }
        k := k + 1;
      }
      assert order[..k] == order;
      DueRows(start, order, due, View());
    }

    /** Trashes every listed image that is still live and due; nothing else changes. */
    method TrashEachDue(order: seq<ImageId>, due: set<ImageId>) returns (n: nat)
      requires Inv(View()) && NoDuplicates(order)
      modifies this`images
      ensures images == Trashed(old(images), DueIn(old(images), order, due))
      ensures n == |DueIn(old(images), order, due)|
      ensures Inv(View())
      ensures images.Keys == old(images).Keys
      ensures forall i :: i in images ==>
                images[i] == if i in order && i in due then old(images)[i].(trashed := true) else old(images)[i]
    {
      hide DueIn, Inv, Trashed;
      ghost var start := View();
      DueInNone(start.images, due);
      TrashedNone(images);
      n := 0;
      var k := 0;
      while k < |order|
        invariant 0 <= k <= |order|
        invariant images == Trashed(start.images, DueIn(start.images, order[..k], due))
        invariant n == |DueIn(start.images, order[..k], due)|
      {
        var id := order[k];
        DueInOneMore(start.images, order[..k], due, id);
        TrashedOneMore(start.images, DueIn(start.images, order[..k], due), id);
        assert order[..k + 1] == order[..k] + [id];
        if id in images && !images[id].trashed && id in due {
          MoveToTrash(id);
          n := n + 1;
        }
        k := k + 1;
      }
      assert order[..k] == order;
      TrashedKeepsInv(start, DueIn(start.images, order, due));
      TrashedRows(start.images, order, due);
    }

    // ----- moving between surfaces -----

    method FindRow(hash: Content, target: Visibility) returns (r: Option<FileId>)
      requires HashSurfaceUnique(View())
      ensures r == FindFile(View(), hash, target)
    {
      if f :| f in files && InSlot(files[f], hash, target) {
        r := Some(f);
      } else {
        r := None;
      }
    }

    method ResolveFileForSurface(row: File, target: Visibility) returns (r: Option<FileId>)
      requires HashSurfaceUnique(View())
      modifies this`files, this`objects, this`nextFile, this`nextName
      ensures (View(), r) == Resolve(old(View()), row, target)
    {
      var existing := FindRow(row.hash, target);
      if existing.Some? {
        return existing;
      }
      if row.path !in objects {
        return None;
      }
      var path := Path(target, nextName);
      nextName := nextName + 1;
      objects := objects[path := objects[row.path]];
      files := files[nextFile := File(row.hash, On(target), path, row.size, 0)];
      nextFile := nextFile + 1;
      r := Some(nextFile - 1);
    }

    /** The transaction: compare-and-swap on the image, one reference more, one less, drop at zero. */
    method CommitMove(id: ImageId, from: FileId, target: FileId, u: Updates) returns (o: CommitOutcome)
      modifies this`images, this`files
      ensures (View(), o) == Commit(old(View()), id, from, target, u)
    {
      if id !in images || images[id].trashed || images[id].file != from {
        return Conflict;
      }
      if target !in files {
        return TargetGone;
      }
      images := images[id := Updated(images[id], u).(file := target)];
      files := files[target := files[target].(refCount := files[target].refCount + 1)];
      var path := if from in files then Some(files[from].path) else None;
      var gone := ReleaseFile(from);
      o := Moved(if gone then path else None);
    }

    method RehomeWithUpdates(id: ImageId, target: Visibility, u: Updates) returns (r: Result)
      requires Inv(View()) && id in images && images[id].file in files
      modifies this
      ensures (View(), r) == Move(old(View()), id, target, u)
      ensures !old(images)[id].trashed ==> r == Ok && Inv(View())
    {
      hide Freed, FilesPresent, RefsExact;
      if !images[id].trashed {
        MoveKeepsInv(View(), id, target, u);
      }
      var from := images[id].file;
      var file := ResolveFileForSurface(files[from], target);
      if file.None? {
        return StorageError;
      }
      var o := CommitMove(id, from, file.value, u);
      if o.TargetGone? {
        return StorageError;
      }
      queue := queue + (if o.Moved? then Freed(o.freed) else {});
      r := Ok;
    }

    /** One turn of the repair: load the file, skip an image that agrees by now, move it otherwise. */
    method RepairOne(id: ImageId) returns (moved: bool)
      requires Inv(View()) && id in images && !images[id].trashed && images[id].file in files
      modifies this
      ensures moved <==> !Agrees(old(View()), id)
      ensures View() == if moved then Move(old(View()), id, old(images)[id].visibility, NOTHING).0 else old(View())
    {
      moved := FileSurface(files[images[id].file]) != images[id].visibility;
      if moved {
        var r := RehomeWithUpdates(id, images[id].visibility, NOTHING);
        moved := r == Ok;
      }
    }

    /** The loop of the repair. */
    method RepairInOrder(order: seq<ImageId>) returns (n: nat)
      requires Inv(View()) && ListsMismatched(order, View())
      modifies this
      ensures (View(), n) == RepairAll(old(View()), order)
    {
      hide Move, Inv;
      ghost var start := View();
      n := 0;
      var k := 0;
      while k < |order|
        invariant 0 <= k <= |order|
        invariant (View(), n) == RepairAll(start, order[..k])
      {
        NextIsMismatched(start, order, k);
        RepairAllAppended(start, order[..k], order[k]);
        assert order[..k + 1] == order[..k] + [order[k]];
        var moved := RepairOne(order[k]);
        if moved {
          n := n + 1;
        }
        k := k + 1;
      }
      assert order[..k] == order;
    }

    /** The start-up repair, run alone: afterwards no live image is mismatched, and no visibility changed. */
    method RehomeMismatchedSurfaces(order: seq<ImageId>) returns (n: nat)
      requires Inv(View()) && ListsMismatched(order, View())
      modifies this
      ensures n == |order| && LiveAgree(View()) && Inv(View())
      ensures images.Keys == old(images).Keys
      ensures forall i :: i in images ==> images[i] == old(images)[i].(file := images[i].file)
      ensures forall i :: i in images && !Mismatched(old(View()), i) ==> images[i] == old(images)[i]
    {
      RepairEstablishesAgreement(View(), order);
      n := RepairInOrder(order);
    }

    /** The visibility and album part of an image update. */
    method Update(user: UserId, id: ImageId, p: Patch) returns (r: Result)
      requires Inv(View())
      modifies this
      ensures (View(), r) == UpdateImage(old(View()), user, id, p)
      ensures Inv(View()) && (Agree(old(View())) ==> Agree(View()))
    {
      hide Move, Inv;
      UpdateKeepsInv(View(), user, id, p);
      if id !in images || images[id].trashed || images[id].user != Some(user) {
        return NotFound;
      }
      var visibility := p.visibility;
      if p.album.Some? && p.album.value.Into? {
        var a := p.album.value.album;
        if a !in albums || albums[a].owner != user {
          return AlbumNotFound;
        }
        if albums[a].visibility == Private {
          visibility := Some(Private);
        }
      }
      if visibility == Some(Public) && p.album.None? && images[id].album.Some? {
        var cur := images[id].album.value;
        if cur in albums && albums[cur].visibility == Private {
          return AlbumForcesPrivate;
        }
      }
      var u := Updates(visibility, AlbumColumn(p));
      assert images[id].file in files by { InvFiles(View()); }
      if visibility.Some? && FileSurface(files[images[id].file]) != visibility.value {
        r := RehomeWithUpdates(id, visibility.value, u);
        return;
      }
      images := images[id := Updated(images[id], u)];
      r := Ok;
    }

    /** All live images of an album, one update after another. */
    method SetAlbumVisibility(user: UserId, a: AlbumId, v: Visibility, order: seq<ImageId>) returns (r: Result)
      requires Inv(View()) && ListsAlbum(order, View(), user, a)
      modifies this
      ensures (View(), r) == SetImagesVisibility(old(View()), user, a, v, order)
      ensures Inv(View()) && (Agree(old(View())) ==> Agree(View()))
      ensures r == (if a !in old(albums) || old(albums)[a].owner != user then NotFound
                    else if old(albums)[a].visibility == Private && v == Public then AlbumForcesPrivate
                    else Ok)
      ensures r != Ok ==> View() == old(View())
      ensures images.Keys == old(images).Keys && albums == old(albums) && users == old(users)
      ensures r == Ok ==> forall i :: i in images ==>
                var was := old(images)[i];
                if !was.trashed && was.album == Some(a) && was.user == Some(user)
                then images[i] == was.(visibility := v, file := images[i].file) else images[i] == was
    {
      hide Inv, Agree, UpdateImage;
      SetImagesVisibilityEffect(View(), user, a, v, order);
      if a !in albums || albums[a].owner != user {
        return NotFound;
      }
      if albums[a].visibility == Private && v == Public {
        return AlbumForcesPrivate;
      }
      ghost var start := View();
      var k := 0;
      r := Ok;
      while k < |order|
        invariant 0 <= k <= |order|
        invariant Inv(View()) && (Agree(start) ==> Agree(View()))
        invariant (View(), r) == ConvertAll(start, user, order[..k], v) && r == Ok
      {
        assert order[..k + 1][..k] == order[..k];
        r := Update(user, order[k], Patch(Some(v), None));
        k := k + 1;
        ConvertAllWorks(start, user, order[..k], v);
      }
      assert order[..k] == order;
    }

    /** A new album visibility; a private one takes its live images along. */
    method UpdateAlbumRow(user: UserId, a: AlbumId, v: Visibility, order: seq<ImageId>) returns (r: Result)
      requires Tidy(View()) && ListsAlbum(order, View(), user, a)
      modifies this
      ensures (View(), r) == UpdateAlbum(old(View()), user, a, v, order)
      ensures Tidy(View())
      ensures r == if a in old(albums) && old(albums)[a].owner == user then Ok else NotFound
      ensures r == NotFound ==> View() == old(View())
      ensures r == Ok ==> albums == old(albums)[a := Album(user, v)]
      ensures images.Keys == old(images).Keys && users == old(users)
      ensures v == Public ==>
                images == old(images) && files == old(files) && objects == old(objects) && queue == old(queue)
      ensures r == Ok && v == Private ==> forall i :: i in images ==>
                var was := old(images)[i];
                if !was.trashed && was.album == Some(a) && was.user == Some(user)
                then images[i] == was.(visibility := Private, file := images[i].file) else images[i] == was
    {
      hide Inv, SetImagesVisibility;
      UpdateAlbumEffect(View(), user, a, v, order);
      if a !in albums || albums[a].owner != user {
        return NotFound;
      }
      UpdateAlbumWorks(View(), user, a, v, order);
      AlbumsKeepInv(View(), albums[a := albums[a].(visibility := v)]);
      AlbumsKeepAgree(View(), albums[a := albums[a].(visibility := v)]);
      albums := albums[a := albums[a].(visibility := v)];
      r := Ok;
      if v == Private {
        r := SetAlbumVisibility(user, a, Private, order);
      }
    }
  }

  lemma InvFiles(s: State)
    requires Inv(s)
    ensures FilesPresent(s)
  {
  }

  /** A purged batch drops exactly the rows it frees. */
  lemma PurgedDrops(s: State, gone: set<ImageId>, t: State, freed: seq<Path>)
    requires Purged(s, gone, t, freed)
    ensures Drops(s, t, Elements(freed))
  {
    forall x | x in Elements(freed)
      ensures Gone(s, t, x)
    {
      var f :| f in s.files && LosesAll(s.images, f, gone) && s.files[f].path == x;
      assert f !in t.files;
    }
  }

  /** The next image of a repair is still mismatched when its turn comes. */
  lemma NextIsMismatched(s: State, order: seq<ImageId>, k: nat)
    requires Inv(s) && ListsMismatched(order, s) && k < |order|
    ensures var t := RepairAll(s, order[..k]).0;
            && Inv(t) && Mismatched(t, order[k]) && t.images[order[k]].file in t.files
            && Move(t, order[k], t.images[order[k]].visibility, NOTHING).1 == Ok
  {
    assert order[k] in order && Mismatched(s, order[k]);
    RepairAllWorks(s, order[..k]);
    var t := RepairAll(s, order[..k]).0;
    assert order[k] !in Elements(order[..k]);
    StillMismatched(s, t, Elements(order[..k]), order[k]);
    MoveKeepsInv(t, order[k], t.images[order[k]].visibility, NOTHING);
  }

  lemma WithoutUserRows(s: State, user: UserId)
    ensures var t := WithoutUser(s, user);
            && (forall i :: i in t.images <==> i in s.images && s.images[i].user != Some(user))
            && (forall i :: i in t.images ==> t.images[i] == s.images[i])
            && user !in t.users && (forall a :: a in t.albums ==> t.albums[a].owner != user)
  {
  }

  /** The orphaned originals may be queued once the account is gone. */
  lemma DeletedThenQueued(s: State, user: UserId, order: seq<ImageId>)
    requires Inv(s) && Lists(order, s, user)
    ensures var (t, freed) := DeleteUser(s, user, order);
            && t == WithoutUser(s, user) && Elements(freed) == PathsFreed(s, Owned(s.images, user))
            && Inv(t) && Inv(t.(queue := t.queue + Elements(freed)))
  {
    hide Inv, WithoutUser, PathsFreed, DeleteUser, Drops, Lists, Owned;
    DeleteUserIsExact(s, user, order);
    DeleteUserKeepsInv(s, user, order);
    WithoutUserDrops(s, user);
    DropThenQueue(s, WithoutUser(s, user), PathsFreed(s, Owned(s.images, user)));
  }

  /** One more turn of the repair moves the next image. */
  lemma RepairAllAppended(s: State, ids: seq<ImageId>, id: ImageId)
    requires var t := RepairAll(s, ids).0;
             && Mismatched(t, id) && t.images[id].file in t.files
             && Move(t, id, t.images[id].visibility, NOTHING).1 == Ok
    ensures var (t, n) := RepairAll(s, ids);
            RepairAll(s, ids + [id]) == (Move(t, id, t.images[id].visibility, NOTHING).0, n + 1)
  {
    hide Move;
    assert (ids + [id])[..|ids|] == ids;
  }

  lemma StillMismatched(s: State, t: State, done: set<ImageId>, id: ImageId)
    requires FilesPresent(t) && Repaired(s, t, done) && Mismatched(s, id) && id !in done
    ensures Mismatched(t, id) && t.images[id].file in t.files
  {
    assert id in t.images;
  }

  /** A batch purge followed by queueing what it freed. */
  lemma BatchThenQueue(s: State, ids: seq<ImageId>)
    requires Inv(s) && NoDuplicates(ids)
    requires forall id :: id in ids ==> id in s.images && s.images[id].trashed
    ensures var (t, freed) := PurgeAll(s, ids, s.images);
            Purged(s, Elements(ids), t, freed) && Inv(t.(queue := t.queue + Elements(freed)))
  {
    PurgeAllIsExact(s, ids);
    PurgeAllKeepsInv(s, ids);
    var (t, freed) := PurgeAll(s, ids, s.images);
    PurgedDrops(s, Elements(ids), t, freed);
    DropThenQueue(s, t, Elements(freed));
  }
}
