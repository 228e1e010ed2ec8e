/**
  What whole operations do to image rows, said of the columns: an album's deletion, the reach of one user's
  operations, and that no operation changes the bytes behind an image.
 */
module OperationEffects {
  import opened Prelude
  import opened StoreState
  import opened Purge
  import opened Rehome
  import opened Accounts
  import opened StoreRuns
  import opened StoreSafety
  import opened Agreement
  import opened Operations
  import opened AlbumPrivacy
  import opened ImageFates
  import opened Repair

  /**
    Deleting an album takes its owner's images out of it, trashing them only if asked to (images already in the trash
    stay there), removes the row, and touches nothing else. Somebody else's album stays.
   */
  lemma DeleteAlbumEffect(s: State, user: UserId, a: AlbumId, withImages: bool)
    ensures var t := PerformDeleteAlbum(s, user, a, withImages);
            if a in s.albums && s.albums[a].owner == user then
              && t == s.(images := t.images, albums := s.albums - {a})
              && t.images.Keys == s.images.Keys
              && (forall i :: i in s.images ==>
                    var was := s.images[i];
                    t.images[i] == if was.album == Some(a) && was.user == Some(user)
                                   then Image(was.user, was.file, None, was.visibility, was.trashed || withImages)
                                   else was)
            else t == s
  {
  }

  // ----- bytes -----

  /** Every image of both tables has the content it had. */
  ghost predicate SameContents(s: State, t: State)
  {
    forall i :: i in s.images && i in t.images ==>
      && s.images[i].file in s.files && t.images[i].file in t.files
      && t.files[t.images[i].file].hash == s.files[s.images[i].file].hash
  }

  lemma SameFilesSameContents(s: State, t: State)
    requires FilesPresent(s) && FilesPresent(t) && RowsTrue(s, t)
    requires forall i :: i in s.images && i in t.images ==> t.images[i].file == s.images[i].file
    ensures SameContents(s, t)
  {
  }

  lemma MoveKeepsContents(s: State, id: ImageId, target: Visibility, u: Updates)
    requires Inv(s) && id in s.images && !s.images[id].trashed
    ensures s.images[id].file in s.files && SameContents(s, Move(s, id, target, u).0)
  {
    hide RefsExact, QuotasExact, PathsDistinct, HashSurfaceUnique, FindFile;
    var from := s.images[id].file;
    assert Backed(s, s.files[from]);
    ResolveKeepsInv(s, s.files[from], target);
    var (t, file) := Resolve(s, s.files[from], target);
    MoveKeepsInv(s, id, target, u);
    CommitKeepsContents(s, t, id, from, file.value, u);
  }

  lemma CommitKeepsContents(s: State, t: State, id: ImageId, from: FileId, file: FileId, u: Updates)
    requires FilesPresent(s) && id in s.images && s.images[id].file == from
    requires t.images == s.images && forall f :: f in s.files ==> f in t.files && t.files[f] == s.files[f]
    requires file in t.files && t.files[file].hash == s.files[from].hash
    requires FilesPresent(Commit(t, id, from, file, u).0)
    ensures SameContents(s, Commit(t, id, from, file, u).0)
  {
  }

  lemma UpdateKeepsContents(s: State, user: UserId, id: ImageId, p: Patch)
    requires Inv(s)
    ensures SameContents(s, UpdateImage(s, user, id, p).0)
  {
    hide Move, RefsExact, QuotasExact, PathsDistinct, HashSurfaceUnique, FilesBacked;
    if Accepted(s, user, id, p) {
      MoveKeepsContents(s, id, if WantedVisibility(s, p).Some? then WantedVisibility(s, p).value else Public,
                        Updates(WantedVisibility(s, p), AlbumColumn(p)));
    }
  }

  lemma {:induction false} ConvertKeepsContents(s: State, user: UserId, ids: seq<ImageId>, v: Visibility)
    requires Inv(s)
    requires forall i :: i in ids ==> i in s.images && !s.images[i].trashed && s.images[i].user == Some(user)
    requires v == Public ==> forall i :: i in ids ==> !InPrivateAlbum(s, s.images[i])
    ensures SameContents(s, ConvertAll(s, user, ids, v).0)
  {
    hide Inv, Agree, UpdateImage;
    if ids == [] {
      assert FilesPresent(s) by { InvHasFiles(s); }
    } else {
      var n := |ids| - 1;
      DropLastElement(ids);
      ConvertKeepsContents(s, user, ids[..n], v);
      ConvertAllWorks(s, user, ids[..n], v);
      UpdateKeepsContents(ConvertAll(s, user, ids[..n], v).0, user, ids[n], Patch(Some(v), None));
    }
  }

  lemma InvHasFiles(s: State)
    requires Inv(s)
    ensures FilesPresent(s)
  {
  }

  lemma SetVisibilityKeepsContents(s: State, user: UserId, a: AlbumId, v: Visibility, order: seq<ImageId>)
    requires Inv(s) && ListsAlbum(order, s, user, a)
    ensures SameContents(s, SetImagesVisibility(s, user, a, v, order).0)
  {
    hide Inv, ConvertAll;
    InvHasFiles(s);
    if OwnsAlbum(s, user, a) && !(s.albums[a].visibility == Private && v == Public) {
      ConvertKeepsContents(s, user, order, v);
    }
  }

  lemma UpdateAlbumKeepsContents(s: State, user: UserId, a: AlbumId, v: Visibility, order: seq<ImageId>)
    requires Inv(s) && ListsAlbum(order, s, user, a)
    ensures SameContents(s, UpdateAlbum(s, user, a, v, order).0)
  {
    hide Inv, SetImagesVisibility;
    InvHasFiles(s);
    if OwnsAlbum(s, user, a) {
      var t := s.(albums := s.albums[a := s.albums[a].(visibility := v)]);
      AlbumsKeepInv(s, t.albums);
      SetVisibilityKeepsContents(t, user, a, Private, order);
    }
  }

  lemma UploadKeepsContents(s: State, owner: Option<UserId>, content: Content, v: Visibility, album: Option<AlbumId>,
                            quota: int)
    requires Inv(s)
    ensures var t := PerformUpload(s, owner, content, v, album, quota);
            RowsTrue(s, t) && forall i :: i in s.images ==> i in t.images && t.images[i] == s.images[i]
  {
    hide RefsExact, QuotasExact, PathsDistinct, HashSurfaceUnique, FilesBacked, UploadNew, UploadAgain, FindFile;
    var chosen := if owner.Some? then album else None;
    var surface := UploadVisibility(s, owner, v, chosen);
    var found := FindFile(s, content, surface);
    if found.Some? {
      AgainKeepsRows(s, owner, found.value, chosen, quota);
    } else {
      NewKeepsRows(s, owner, content, surface, chosen, quota);
    }
  }

  /** No operation changes the bytes behind an image that it leaves. */
  lemma OpKeepsBytes(s: State, op: Op, id: ImageId)
    requires Inv(s) && Agree(s) && id in s.images && id in Perform(s, op).images
    ensures Bytes(s, id).Some? && Bytes(Perform(s, op), id) == Bytes(s, id)
  {
    hide Inv, Agree, Bytes, Perform;
    OpKeepsSurfaces(s, op);
    BytesAreHash(s, id);
    BytesAreHash(Perform(s, op), id);
    OpKeepsContents(s, op);
  }

  lemma PurgeKeepsContents(s: State, id: ImageId)
    ensures var t := PerformPurge(s, id);
            RowsTrue(s, t) && forall i :: i in t.images ==> i in s.images && t.images[i].file == s.images[i].file
  {
    hide RefundOwner;
  }

  lemma CloseKeepsContents(s: State, u: UserId, order: seq<ImageId>)
    requires Inv(s)
    ensures var t := Perform(s, CloseAccount(u, order));
            RowsTrue(s, t) && forall i :: i in t.images ==> i in s.images && t.images[i] == s.images[i]
  {
    hide Inv, DeleteUser, Lists;
    if Lists(order, s, u) {
      DeleteUserIsExact(s, u, order);
    }
  }

  lemma OpKeepsContents(s: State, op: Op)
    requires Inv(s) && Inv(Perform(s, op))
    ensures SameContents(s, Perform(s, op))
  {
    hide Inv, SameContents, UpdateImage, UpdateAlbum, SetImagesVisibility, PerformUpload, PerformPurge, DeleteUser,
      Lists;
    InvHasFiles(s);
    InvHasFiles(Perform(s, op));
    match op
    case Change(u, id, p) => UpdateKeepsContents(s, u, id, p);
    case ConvertAlbum(u, a, v, order) =>
      SameFilesSameContents(s, s);
      if ListsAlbum(order, s, u, a) { SetVisibilityKeepsContents(s, u, a, v, order); }
    case ChangeAlbum(u, a, v, order) =>
      SameFilesSameContents(s, s);
      if ListsAlbum(order, s, u, a) { UpdateAlbumKeepsContents(s, u, a, v, order); }
    case _ =>
      OtherOpsKeepFiles(s, op);
      SameFilesSameContents(s, Perform(s, op));
  }

  lemma OtherOpsKeepFiles(s: State, op: Op)
    requires Inv(s) && !op.Change? && !op.ConvertAlbum? && !op.ChangeAlbum?
    ensures var t := Perform(s, op);
            && RowsTrue(s, t)
            && forall i :: i in s.images && i in t.images ==> t.images[i].file == s.images[i].file
  {
    hide Inv, UpdateImage, UpdateAlbum, SetImagesVisibility, PerformUpload, PerformPurge, DeleteUser, Lists,
      ListsAlbum, OwnsImage;
    match op
    case AddUpload(o, content, v, album, quota) => UploadKeepsContents(s, o, content, v, album, quota);
    case Purge(id) => PurgeKeepsContents(s, id);
    case CloseAccount(u, order) => CloseKeepsContents(s, u, order);
    case _ =>
  }

  lemma SameContentsJoin(s: State, t: State, u: State)
    requires SameContents(s, t) && SameContents(t, u) && t.images.Keys == s.images.Keys
    ensures SameContents(s, u)
  {
  }

  /** The repair of mismatched surfaces changes no bytes either. */
  lemma {:induction false} RepairKeepsContents(s: State, order: seq<ImageId>)
    requires Inv(s) && NoDuplicates(order) && forall id :: id in order ==> Mismatched(s, id)
    ensures SameContents(s, RepairAll(s, order).0)
  {
    hide Inv, Move, SameContents, Mismatched, Repaired;
    if order == [] {
      InvHasFiles(s);
      SameFilesSameContents(s, s);
    } else {
      var n := |order| - 1;
      DropLastElement(order);
      assert NoDuplicates(order[..n]) && forall id :: id in order[..n] ==> id in order;
      RepairKeepsContents(s, order[..n]);
      RepairAllWorks(s, order[..n]);
      var t := RepairAll(s, order[..n]).0;
      RepairStep(s, t, Elements(order[..n]), order[n]);
      NextIsLive(s, t, Elements(order[..n]), order[n]);
      MoveKeepsContents(t, order[n], t.images[order[n]].visibility, StoreRuns.NOTHING);
      SameContentsJoin(s, t, RepairAll(s, order).0);
    }
  }

  lemma NextIsLive(s: State, t: State, done: set<ImageId>, id: ImageId)
    requires Repaired(s, t, done) && Mismatched(s, id)
    ensures t.images.Keys == s.images.Keys && id in t.images && !t.images[id].trashed
  {
  }

  // ----- whose images an operation reaches -----

  /** The operation is a user's own, and not the given owner's; uploads and queued deletions reach no image. */
  predicate ByOther(op: Op, owner: Option<UserId>)
  {
    match op
    case Change(u, _, _) => owner != Some(u)
    case ConvertAlbum(u, _, _, _) => owner != Some(u)
    case ChangeAlbum(u, _, _, _) => owner != Some(u)
    case DeleteAlbum(u, _, _) => owner != Some(u)
    case SoftDelete(u, _) => owner != Some(u)
    case Restore(u, _) => owner != Some(u)
    case CloseAccount(u, _) => owner != Some(u)
    case AdminSoftDelete(_) => false
    case AdminRestore(_) => false
    case Purge(_) => false
    case _ => true
  }

  /** Whatever a user does, the rows of other users' and of guests' images stay exactly as they are. */
  lemma OthersRowsStay(s: State, op: Op, id: ImageId)
    requires Inv(s) && id in s.images && ByOther(op, s.images[id].user)
    ensures id in Perform(s, op).images && Perform(s, op).images[id] == s.images[id]
  {
    hide Inv, UpdateImage, UpdateAlbum, SetImagesVisibility, PerformUpload, PerformPurge, DeleteUser, Lists;
    match op
    case AddUpload(o, content, v, album, quota) => UploadKeepsContents(s, o, content, v, album, quota);
    case Change(u, i, p) => UpdateEffect(s, u, i, p);
    case ConvertAlbum(u, a, v, order) => if ListsAlbum(order, s, u, a) { SetImagesVisibilityEffect(s, u, a, v, order); }
    case ChangeAlbum(u, a, v, order) => if ListsAlbum(order, s, u, a) { UpdateAlbumEffect(s, u, a, v, order); }
    case CloseAccount(u, order) => if Lists(order, s, u) { DeleteUserIsExact(s, u, order); }
    case _ =>
  }

  // ----- what each operation brings about -----

  /** The new row of an upload: guests' images are public and in no album, a private album makes its images private. */
  lemma UploadRow(s: State, owner: Option<UserId>, content: Content, v: Visibility, album: Option<AlbumId>, quota: int)
    requires Inv(s)
    ensures var t := PerformUpload(s, owner, content, v, album, quota);
            && (s.nextImage in t.images <==>
                  && (owner.Some? && album.Some? ==>
                        album.value in s.albums && s.albums[album.value].owner == owner.value)
                  && (owner.Some? ==>
                        owner.value in s.users && (quota <= 0 || s.users[owner.value] + |content| <= quota)))
            && (s.nextImage in t.images ==>
                  var row := t.images[s.nextImage];
                  && t.images == s.images[s.nextImage := row]
                  && row.user == owner && !row.trashed
                  && row.album == (if owner.None? then None else album)
                  && row.visibility == (if owner.None? then Public
                                        else if album.Some? && s.albums[album.value].visibility == Private then Private
                                        else v)
                  && row.file in t.files && t.files[row.file].hash == content)
            && (s.nextImage !in t.images ==> t.images == s.images && t.files == s.files && t.users == s.users)
  {
    hide RefsExact, QuotasExact, PathsDistinct, HashSurfaceUnique, FilesBacked, UploadNew, UploadAgain, FindFile;
    var chosen := if owner.Some? then album else None;
    var surface := UploadVisibility(s, owner, v, chosen);
    var found := FindFile(s, content, surface);
    if found.Some? {
      AgainAdds(s, owner, found.value, chosen, quota);
    } else {
      NewAdds(s, owner, content, surface, chosen, quota);
    }
  }

  lemma TrashedRow(s: State, id: ImageId, trashed: bool)
    requires id in s.images
    ensures id in SetTrashed(s, id, trashed).images && SetTrashed(s, id, trashed).images[id].trashed == trashed
  {
  }

  lemma PurgedRow(s: State, id: ImageId)
    requires FilesPresent(s)
    ensures PerformPurge(s, id).images == s.images - {id}
  {
    hide RefundOwner, DropRef;
  }

  lemma DeletedObject(s: State, path: Path)
    ensures DeleteObject(s, path).objects == s.objects - {path} && DeleteObject(s, path).queue == s.queue
  {
  }

  /** What an operation that passes its checks has done when it is over. */
  lemma OpDoes(s: State, op: Op)
    requires Inv(s)
    ensures var t := Perform(s, op);
            match op
            case Register(u) => u in t.users && (u !in s.users ==> t.users[u] == 0)
            case CreateAlbum(u, a, v) => u in s.users && a !in s.albums ==> a in t.albums && t.albums[a] == Album(u, v)
            case ConvertAlbum(u, a, v, order) =>
              ListsAlbum(order, s, u, a) && a in s.albums && s.albums[a].owner == u
              && !(s.albums[a].visibility == Private && v == Public) ==>
                forall i ::
                  i in s.images && !s.images[i].trashed && s.images[i].album == Some(a) && s.images[i].user == Some(u)
                  ==> i in t.images && t.images[i].visibility == v
            case ChangeAlbum(u, a, v, order) =>
              ListsAlbum(order, s, u, a) && a in s.albums && s.albums[a].owner == u ==>
                a in t.albums && t.albums[a] == Album(u, v)
            case SoftDelete(u, id) =>
              id in s.images && s.images[id].user == Some(u) ==> id in t.images && t.images[id].trashed
            case Restore(u, id) =>
              id in s.images && s.images[id].user == Some(u) ==> id in t.images && !t.images[id].trashed
            case AdminSoftDelete(id) => id in s.images ==> id in t.images && t.images[id].trashed
            case AdminRestore(id) => id in s.images ==> id in t.images && !t.images[id].trashed
            case Purge(id) => id !in t.images && t.images == s.images - {id}
            case CloseAccount(u, order) =>
              Lists(order, s, u) ==> u !in t.users && forall i :: i in t.images ==> t.images[i].user != Some(u)
            case DeleteQueued(path) => path in s.queue ==> path !in t.objects && t.queue == s.queue - {path}
            case _ => true
  {
    hide RefsExact, QuotasExact, PathsDistinct, HashSurfaceUnique, FilesBacked, UpdateAlbum, SetImagesVisibility,
      PerformUpload, DeleteUser, UpdateImage, PerformPurge, PerformDeleteAlbum, DeleteObject, SetTrashed, Lists,
      NoDuplicates;
    match op
    case SoftDelete(_, id) => if id in s.images { TrashedRow(s, id, true); }
    case Restore(_, id) => if id in s.images { TrashedRow(s, id, false); }
    case AdminSoftDelete(id) => if id in s.images { TrashedRow(s, id, true); }
    case AdminRestore(id) => if id in s.images { TrashedRow(s, id, false); }
    case Purge(id) => PurgedRow(s, id);
    case DeleteQueued(path) => DeletedObject(s, path);
    case ConvertAlbum(u, a, v, order) => if ListsAlbum(order, s, u, a) { SetImagesVisibilityEffect(s, u, a, v, order); }
    case ChangeAlbum(u, a, v, order) => if ListsAlbum(order, s, u, a) { UpdateAlbumEffect(s, u, a, v, order); }
    case CloseAccount(u, order) => if Lists(order, s, u) { DeleteUserIsExact(s, u, order); }
    case _ =>
  }

  // ----- nothing is left lying about -----

  /** Every stored original has a row or is queued for deletion. */
  ghost predicate NoOrphans(s: State)
  {
    forall p :: p in s.objects ==> p in s.queue || exists f :: f in s.files && s.files[f].path == p
  }

  lemma DropsThenQueued(s: State, t: State, freed: set<Path>)
    requires NoOrphans(s) && Drops(s, t, freed)
    ensures NoOrphans(t.(queue := t.queue + freed))
  {
    forall p | p in t.objects && p !in t.queue + freed
      ensures exists f :: f in t.files && t.files[f].path == p
    {
      var f :| f in s.files && s.files[f].path == p;
      assert f in t.files;
    }
  }

  lemma SamePathsNoOrphans(s: State, t: State)
    requires NoOrphans(s) && t.objects == s.objects && s.queue <= t.queue
    requires forall f :: f in s.files ==> f in t.files && t.files[f].path == s.files[f].path
    ensures NoOrphans(t)
  {
    forall p | p in t.objects && p !in t.queue
      ensures exists f :: f in t.files && t.files[f].path == p
    {
      var f :| f in s.files && s.files[f].path == p;
      assert f in t.files;
    }
  }

  /** A stored original that gets its row at once. */
  lemma PutAndClaimed(s: State, prefix: Visibility, content: Content, row: File, target: Visibility)
    requires NoOrphans(s) && CountersAhead(s)
    ensures var (stored, path) := PutObject(s, prefix, content);
            NoOrphans(CreateRow(stored, row, target, path).0)
  {
    var (stored, path) := PutObject(s, prefix, content);
    var (t, f) := CreateRow(stored, row, target, path);
    assert f in t.files && t.files[f].path == path;
    forall p | p in t.objects && p !in t.queue && p != path
      ensures exists g :: g in t.files && t.files[g].path == p
    {
      var g :| g in s.files && s.files[g].path == p;
      assert g in t.files;
    }
  }

  lemma MoveKeepsOwned(s: State, id: ImageId, target: Visibility, u: Updates)
    requires Inv(s) && NoOrphans(s) && id in s.images && !s.images[id].trashed
    ensures s.images[id].file in s.files && NoOrphans(Move(s, id, target, u).0)
  {
    hide RefsExact, QuotasExact, PathsDistinct, HashSurfaceUnique, FilesBacked, FindFile, NoOrphans, Commit, Drops;
    var from := s.images[id].file;
    if s.files[from].path in s.objects {
      PutAndClaimed(s, target, s.objects[s.files[from].path], s.files[from], target);
    }
    var (t, file) := Resolve(s, s.files[from], target);
    if file.Some? {
      CommitDrops(t, id, from, file.value, u);
      var (moved, o) := Commit(t, id, from, file.value, u);
      DropsThenQueued(t, moved, if o.Moved? then Freed(o.freed) else {});
      MoveKeepsInv(s, id, target, u);
    }
  }

  lemma WriteKeepsOwned(s: State, id: ImageId, u: Updates)
    requires NoOrphans(s)
    ensures NoOrphans(WriteColumns(s, id, u))
  {
  }

  lemma UpdateKeepsOwned(s: State, user: UserId, id: ImageId, p: Patch)
    requires Inv(s) && NoOrphans(s)
    ensures NoOrphans(UpdateImage(s, user, id, p).0)
  {
    hide Move, WriteColumns, NoOrphans, RefsExact, QuotasExact, PathsDistinct, HashSurfaceUnique, FilesBacked;
    if Accepted(s, user, id, p) {
      var u := Updates(WantedVisibility(s, p), AlbumColumn(p));
      WriteKeepsOwned(s, id, u);
      MoveKeepsOwned(s, id, if u.visibility.Some? then u.visibility.value else Public, u);
    }
  }

  lemma {:induction false} ConvertKeepsOwned(s: State, user: UserId, ids: seq<ImageId>, v: Visibility)
    requires Inv(s) && NoOrphans(s)
    requires forall i :: i in ids ==> i in s.images && !s.images[i].trashed && s.images[i].user == Some(user)
    requires v == Public ==> forall i :: i in ids ==> !InPrivateAlbum(s, s.images[i])
    ensures NoOrphans(ConvertAll(s, user, ids, v).0)
  {
    hide Inv, Agree, UpdateImage, NoOrphans;
    if ids != [] {
      var n := |ids| - 1;
      ConvertKeepsOwned(s, user, ids[..n], v);
      ConvertAllWorks(s, user, ids[..n], v);
      UpdateKeepsOwned(ConvertAll(s, user, ids[..n], v).0, user, ids[n], Patch(Some(v), None));
    }
  }

  lemma SetVisibilityKeepsOwned(s: State, user: UserId, a: AlbumId, v: Visibility, order: seq<ImageId>)
    requires Inv(s) && NoOrphans(s) && ListsAlbum(order, s, user, a)
    ensures NoOrphans(SetImagesVisibility(s, user, a, v, order).0)
  {
    hide Inv, ConvertAll, NoOrphans;
    if OwnsAlbum(s, user, a) && !(s.albums[a].visibility == Private && v == Public) {
      ConvertKeepsOwned(s, user, order, v);
    }
  }

  lemma AlbumsKeepOwned(s: State, albums: map<AlbumId, Album>)
    requires NoOrphans(s)
    ensures NoOrphans(s.(albums := albums))
  {
  }

  lemma UpdateAlbumKeepsOwned(s: State, user: UserId, a: AlbumId, v: Visibility, order: seq<ImageId>)
    requires Inv(s) && NoOrphans(s) && ListsAlbum(order, s, user, a)
    ensures NoOrphans(UpdateAlbum(s, user, a, v, order).0)
  {
    hide Inv, SetImagesVisibility, NoOrphans;
    if OwnsAlbum(s, user, a) {
      var t := s.(albums := s.albums[a := s.albums[a].(visibility := v)]);
      AlbumsKeepInv(s, t.albums);
      AlbumsKeepOwned(s, t.albums);
      SetVisibilityKeepsOwned(t, user, a, Private, order);
    }
  }

  lemma AgainKeepsOwned(s: State, owner: Option<UserId>, f: FileId, album: Option<AlbumId>, quota: int)
    requires NoOrphans(s)
    ensures NoOrphans(UploadAgain(s, owner, f, album, quota))
  {
    hide Chargeable, Charge, NoOrphans;
    SamePathsNoOrphans(s, UploadAgain(s, owner, f, album, quota));
  }

  lemma UploadKeepsOwned(s: State, owner: Option<UserId>, content: Content, v: Visibility, album: Option<AlbumId>,
                         quota: int)
    requires CountersAhead(s) && NoOrphans(s)
    ensures NoOrphans(PerformUpload(s, owner, content, v, album, quota))
  {
    hide FindFile, UploadAgain, UploadVisibility, NoOrphans;
    var chosen := if owner.Some? then album else None;
    var surface := UploadVisibility(s, owner, v, chosen);
    var found := FindFile(s, content, surface);
    if found.Some? {
      AgainKeepsOwned(s, owner, found.value, chosen, quota);
    } else {
      var (stored, path) := PutObject(s, surface, content);
      var row := File(content, On(surface), path, |content|, 0);
      PutAndClaimed(s, surface, content, row, surface);
      var (created, f) := CreateRow(stored, row, surface, path);
      AgainKeepsOwned(created, owner, f, chosen, quota);
      LostIsQueued(s, surface, content);
      var t := UploadAgain(created, owner, f, chosen, quota);
      assert t.(queue := t.queue + {}) == t;
    }
  }

  /** The original of an upload that is rolled back. */
  lemma LostIsQueued(s: State, surface: Visibility, content: Content)
    requires NoOrphans(s)
    ensures var (stored, path) := PutObject(s, surface, content);
            NoOrphans(stored.(queue := stored.queue + Freed(Some(path))))
  {
  }

  lemma CloseKeepsOwned(s: State, u: UserId, order: seq<ImageId>)
    requires Inv(s) && NoOrphans(s)
    ensures NoOrphans(Perform(s, CloseAccount(u, order)))
  {
    hide Inv, DeleteUser, NoOrphans, WithoutUser, Drops;
    if Lists(order, s, u) {
      DeleteUserIsExact(s, u, order);
      WithoutUserDrops(s, u);
      var (t, freed) := DeleteUser(s, u, order);
      DropsThenQueued(s, t, Elements(freed));
    }
  }

  lemma PurgeKeepsOwned(s: State, id: ImageId)
    requires Inv(s) && NoOrphans(s)
    ensures NoOrphans(PerformPurge(s, id))
  {
    hide Inv, NoOrphans, Drops, PurgeOne;
    if id in s.images {
      var ready := SetTrashed(s, id, true);
      var (t, o) := PurgeOne(ready, id, ready.images[id]);
      PurgeStepDrops(s, id);
      DropsThenQueued(s, t, FreedBy(o));
    }
  }

  lemma SameFilesKeepOwned(s: State, op: Op)
    requires NoOrphans(s)
    requires op.Register? || op.CreateAlbum? || op.DeleteAlbum? || op.SoftDelete? || op.Restore? || op.AdminSoftDelete?
             || op.AdminRestore? || op.DeleteQueued?
    ensures NoOrphans(Perform(s, op))
  {
    hide PerformUpload, PerformPurge, DeleteUser, UpdateImage, UpdateAlbum, SetImagesVisibility;
    match op
    case DeleteQueued(_) =>
    case _ =>
  }

  /** Every operation that completes leaves each stored original with a row or in the queue. */
  lemma OpLeavesNoOrphans(s: State, op: Op)
    requires Inv(s) && NoOrphans(s)
    ensures NoOrphans(Perform(s, op))
  {
    hide RefsExact, QuotasExact, PathsDistinct, HashSurfaceUnique, FilesBacked, NoOrphans, UpdateImage, UpdateAlbum,
      SetImagesVisibility, PerformUpload, PerformPurge, PerformDeleteAlbum, DeleteUser, DeleteObject, NewUser,
      SetTrashed;
    match op
    case AddUpload(o, content, v, album, quota) => UploadKeepsOwned(s, o, content, v, album, quota);
    case Change(u, id, p) => UpdateKeepsOwned(s, u, id, p);
    case ConvertAlbum(u, a, v, order) => if ListsAlbum(order, s, u, a) { SetVisibilityKeepsOwned(s, u, a, v, order); }
    case ChangeAlbum(u, a, v, order) => if ListsAlbum(order, s, u, a) { UpdateAlbumKeepsOwned(s, u, a, v, order); }
    case Purge(id) => PurgeKeepsOwned(s, id);
    case CloseAccount(u, order) => CloseKeepsOwned(s, u, order);
    case _ => SameFilesKeepOwned(s, op);
  }
}
