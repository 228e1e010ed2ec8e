/**
  Runs of whole operations: visibility always matches the file's surface, and, without restores, a live
  image in a private album is private. Restoring is the one operation that can break the latter.
 */
module AlbumPrivacy {
  import opened Prelude
  import opened StoreState
  import opened Purge
  import opened Rehome
  import opened Accounts
  import opened StoreRuns
  import opened StoreSafety
  import opened Agreement
  import opened Operations

  datatype Op =
    | Register(user: UserId)
    | AddUpload(owner: Option<UserId>, content: Content, v: Visibility, album: Option<AlbumId>, quota: int)
    | Change(user: UserId, image: ImageId, patch: Patch)
    | ConvertAlbum(user: UserId, a: AlbumId, v: Visibility, order: seq<ImageId>)
    | ChangeAlbum(user: UserId, a: AlbumId, v: Visibility, order: seq<ImageId>)
    | CreateAlbum(user: UserId, a: AlbumId, v: Visibility)
    | DeleteAlbum(user: UserId, a: AlbumId, withImages: bool)
    | SoftDelete(user: UserId, image: ImageId)
    | Restore(user: UserId, image: ImageId)
    | AdminSoftDelete(image: ImageId)
    | AdminRestore(image: ImageId)
    | Purge(image: ImageId)
    | CloseAccount(user: UserId, order: seq<ImageId>)
    | DeleteQueued(path: Path)

  /** Guests upload publicly; a private album forces private. */
  function UploadVisibility(s: State, owner: Option<UserId>, v: Visibility, album: Option<AlbumId>): Visibility
  {
    if owner.None? then Public
    else if album.Some? && album.value in s.albums && s.albums[album.value].visibility == Private then Private
    else v
  }

  ghost function PerformUpload(s: State, owner: Option<UserId>, content: Content, v: Visibility,
                               album: Option<AlbumId>, quota: int): State
  {
    if owner.Some? && album.Some? && !OwnsAlbum(s, owner.value, album.value) then s
    else
      var chosen := if owner.Some? then album else None;
      var surface := UploadVisibility(s, owner, v, chosen);
      var found := FindFile(s, content, surface);
      if found.Some? then UploadAgain(s, owner, found.value, chosen, quota)
      else
        var (t, lost) := UploadNew(s, owner, content, surface, chosen, quota);
        t.(queue := t.queue + Freed(lost))
  }

  function PerformPurge(s: State, id: ImageId): State
  {
    if id !in s.images then s
    else
      var ready := SetTrashed(s, id, true);
      var (t, o) := PurgeOne(ready, id, ready.images[id]);
      t.(queue := t.queue + FreedBy(o))
  }

  /** Images of a deleted album go to the trash or stay, and in either case lose the album. */
  function PerformDeleteAlbum(s: State, user: UserId, a: AlbumId, withImages: bool): State
  {
    if !OwnsAlbum(s, user, a) then s
    else
      s.(albums := s.albums - {a},
         images := map i | i in s.images ::
           if s.images[i].album == Some(a) && s.images[i].user == Some(user)
           then s.images[i].(album := None, trashed := withImages || s.images[i].trashed)
           else s.images[i])
  }

  predicate OwnsImage(s: State, user: UserId, id: ImageId)
  {
    id in s.images && s.images[id].user == Some(user)
  }

  ghost function Perform(s: State, op: Op): State
  {
    match op
    case Register(u) => NewUser(s, u)
    case AddUpload(o, content, v, album, quota) => PerformUpload(s, o, content, v, album, quota)
    case Change(u, id, p) => UpdateImage(s, u, id, p).0
    case ConvertAlbum(u, a, v, order) =>
      if ListsAlbum(order, s, u, a) then SetImagesVisibility(s, u, a, v, order).0 else s
    case ChangeAlbum(u, a, v, order) => if ListsAlbum(order, s, u, a) then UpdateAlbum(s, u, a, v, order).0 else s
    case CreateAlbum(u, a, v) => if a in s.albums || u !in s.users then s else s.(albums := s.albums[a := Album(u, v)])
    case DeleteAlbum(u, a, withImages) => PerformDeleteAlbum(s, u, a, withImages)
    case SoftDelete(u, id) => if OwnsImage(s, u, id) then SetTrashed(s, id, true) else s
    case Restore(u, id) => if OwnsImage(s, u, id) then SetTrashed(s, id, false) else s
    case AdminSoftDelete(id) => SetTrashed(s, id, true)
    case AdminRestore(id) => SetTrashed(s, id, false)
    case Purge(id) => PerformPurge(s, id)
    case CloseAccount(u, order) =>
      if Lists(order, s, u) then
        var (t, freed) := DeleteUser(s, u, order);
        t.(queue := t.queue + Elements(freed))
      else s
    case DeleteQueued(path) =>
      if path in s.queue then DeleteObject(s, path).(queue := s.queue - {path}) else s
  }

  ghost function PerformAll(s: State, ops: seq<Op>): State
  {
    if ops == [] then s else Perform(PerformAll(s, ops[..|ops| - 1]), ops[|ops| - 1])
  }

  // ----- operations that only take images away or out of sight -----

  /** Remaining images are as before, or trashed, or out of their album. */
  ghost predicate Withdraws(s: State, t: State)
  {
    forall i :: i in t.images ==>
      && i in s.images
      && t.images[i].user == s.images[i].user && t.images[i].visibility == s.images[i].visibility
      && (s.images[i].trashed ==> t.images[i].trashed)
      && (t.images[i].album == s.images[i].album || t.images[i].album == None)
  }

  /** Albums still in use are as before. */
  ghost predicate AlbumsKept(s: State, t: State)
  {
    forall i :: i in t.images && t.images[i].album.Some? && t.images[i].album.value in s.albums ==>
      t.images[i].album.value in t.albums && t.albums[t.images[i].album.value] == s.albums[t.images[i].album.value]
  }

  lemma WithdrawalKeepsAlbums(s: State, t: State)
    requires AlbumsLinked(s) && Withdraws(s, t) && AlbumsKept(s, t)
    ensures AlbumsLinked(t)
    ensures PrivateInside(s) ==> PrivateInside(t)
  {
    if PrivateInside(s) {
      forall i | i in t.images
        ensures PrivateIfHidden(t, t.images[i])
      {
        assert PrivateIfHidden(s, s.images[i]);
      }
    }
  }

  /** After dropping rows, their originals may be queued. */
  lemma DropThenQueue(s: State, t: State, freed: set<Path>)
    requires Inv(s) && Inv(t) && Drops(s, t, freed)
    ensures Inv(t.(queue := t.queue + freed))
  {
    forall p | p in t.queue + freed
      ensures p.name < t.nextName && Unclaimed(t, p)
    {
      DropsKeepsUnclaimed(s, t, freed, p);
      if p in freed {
        var f :| f in s.files && f !in t.files && s.files[f].path == p;
        assert Backed(s, s.files[f]);
      } else {
        assert forall f :: f in t.files ==> Backed(t, t.files[f]);
      }
    }
    QueueKeepsInv(t, t.queue + freed);
  }

  lemma PurgeKeepsSurfaces(s: State, id: ImageId)
    requires Inv(s) && Agree(s)
    ensures Inv(PerformPurge(s, id)) && Agree(PerformPurge(s, id))
  {
    if id in s.images {
      PurgeStepDrops(s, id);
      var ready := SetTrashed(s, id, true);
      var (t, o) := PurgeOne(ready, id, ready.images[id]);
      DropThenQueue(s, t, FreedBy(o));
      SameFacesKeepAgree(s, PerformPurge(s, id));
    }
  }

  lemma CloseAccountKeepsSurfaces(s: State, u: UserId, order: seq<ImageId>)
    requires Inv(s) && Agree(s)
    ensures var t := Perform(s, CloseAccount(u, order));
            Inv(t) && Agree(t)
  {
    if Lists(order, s, u) {
      DeleteUserKeepsInv(s, u, order);
      DeleteUserIsExact(s, u, order);
      WithoutUserDrops(s, u);
      var freed := PathsFreed(s, Owned(s.images, u));
      DropThenQueue(s, WithoutUser(s, u), freed);
      SameFacesKeepAgree(s, WithoutUser(s, u).(queue := s.queue + freed));
    }
  }

  lemma CloseAccountKeepsAlbums(s: State, u: UserId, order: seq<ImageId>)
    requires Tidy(s)
    ensures var t := Perform(s, CloseAccount(u, order));
            AlbumsLinked(t) && PrivateInside(t)
  {
    hide Inv;
    if Lists(order, s, u) {
      DeleteUserIsExact(s, u, order);
      var t := Perform(s, CloseAccount(u, order));
      forall i | i in t.images && t.images[i].album.Some?
        ensures t.images[i].album.value in t.albums
      {
        assert i !in Owned(s.images, u);
      }
      WithdrawalKeepsAlbums(s, t);
    }
  }

  lemma DeleteAlbumKeepsInv(s: State, user: UserId, a: AlbumId, withImages: bool)
    requires Inv(s)
    ensures Inv(PerformDeleteAlbum(s, user, a, withImages))
  {
    hide Inv;
    if OwnsAlbum(s, user, a) {
      var t := PerformDeleteAlbum(s, user, a, withImages);
      var images := s.(images := t.images);
      assert SameLinks(s, images);
      SameLinksKeepsInv(s, images);
      AlbumsKeepInv(images, t.albums);
    }
  }

  lemma DeleteAlbumWithdraws(s: State, user: UserId, a: AlbumId, withImages: bool)
    requires AlbumsLinked(s)
    ensures var t := PerformDeleteAlbum(s, user, a, withImages);
            Withdraws(s, t) && AlbumsKept(s, t)
  {
  }

  lemma DeleteAlbumKeepsAlbums(s: State, user: UserId, a: AlbumId, withImages: bool)
    requires AlbumsLinked(s) && PrivateInside(s)
    ensures AlbumsLinked(PerformDeleteAlbum(s, user, a, withImages))
    ensures PrivateInside(PerformDeleteAlbum(s, user, a, withImages))
  {
    hide PrivateInside, AlbumsLinked, PerformDeleteAlbum, Withdraws, AlbumsKept;
    DeleteAlbumWithdraws(s, user, a, withImages);
    WithdrawalKeepsAlbums(s, PerformDeleteAlbum(s, user, a, withImages));
  }

  // ----- operations that add -----

  lemma UploadKeepsSurfaces(s: State, owner: Option<UserId>, content: Content, v: Visibility, album: Option<AlbumId>,
                            quota: int)
    requires Inv(s) && Agree(s)
    ensures Inv(PerformUpload(s, owner, content, v, album, quota))
    ensures Agree(PerformUpload(s, owner, content, v, album, quota))
  {
    var chosen := if owner.Some? then album else None;
    var surface := UploadVisibility(s, owner, v, chosen);
    var found := FindFile(s, content, surface);
    if found.Some? {
      UploadAgainKeepsInv(s, owner, found.value, chosen, quota);
      UploadAgainKeepsAgree(s, owner, found.value, chosen, quota);
    } else {
      NewUploadKeepsSurfaces(s, owner, content, surface, chosen, quota);
    }
  }

  lemma NewUploadKeepsSurfaces(s: State, owner: Option<UserId>, content: Content, v: Visibility,
                               album: Option<AlbumId>, quota: int)
    requires Inv(s) && Agree(s)
    ensures var (t, lost) := UploadNew(s, owner, content, v, album, quota);
            Inv(t.(queue := t.queue + Freed(lost))) && Agree(t.(queue := t.queue + Freed(lost)))
  {
    var (t, lost) := UploadNew(s, owner, content, v, album, quota);
    UploadNewKeepsInv(s, owner, content, v, album, quota);
    UploadNewKeepsAgree(s, owner, content, v, album, quota);
    var u := t.(queue := t.queue + Freed(lost));
    QueueMoreKeepsInv(t, Freed(lost));
    SameFacesKeepAgree(t, u);
  }

  /** Queueing a path that no row claims. */
  lemma QueueMoreKeepsInv(s: State, more: set<Path>)
    requires Inv(s) && forall p :: p in more ==> p.name < s.nextName && Unclaimed(s, p)
    ensures Inv(s.(queue := s.queue + more))
  {
    assert forall f :: f in s.files ==> Backed(s, s.files[f]);
    QueueKeepsInv(s, s.queue + more);
  }

  lemma UploadKeepsAlbums(s: State, owner: Option<UserId>, content: Content, v: Visibility, album: Option<AlbumId>,
                          quota: int)
    requires CountersAhead(s) && AlbumsLinked(s) && PrivateInside(s)
    ensures AlbumsLinked(PerformUpload(s, owner, content, v, album, quota))
    ensures PrivateInside(PerformUpload(s, owner, content, v, album, quota))
  {
    var t := PerformUpload(s, owner, content, v, album, quota);
    UploadEffect(s, owner, content, v, album, quota);
    forall i | i in t.images
      ensures PrivateIfHidden(t, t.images[i])
    {
      if i in s.images {
        assert PrivateIfHidden(s, s.images[i]);
      }
    }
  }

  /** The image table gained nothing, or one live image with the given owner, album and visibility. */
  predicate OneMoreImage(s: State, t: State, owner: Option<UserId>, album: Option<AlbumId>, v: Visibility)
  {
    && t.albums == s.albums
    && (t.images == s.images
        || (s.nextImage in t.images
            && t.images[s.nextImage] == Image(owner, t.images[s.nextImage].file, album, v, false)
            && t.images == s.images[s.nextImage := t.images[s.nextImage]]))
  }

  lemma UploadAddsOne(s: State, owner: Option<UserId>, content: Content, v: Visibility, album: Option<AlbumId>,
                      quota: int)
    ensures FindFile(s, content, v).None? ==>
              OneMoreImage(s, UploadNew(s, owner, content, v, album, quota).0, owner, album, v)
    ensures FindFile(s, content, v).Some? ==>
              OneMoreImage(s, UploadAgain(s, owner, FindFile(s, content, v).value, album, quota), owner, album, v)
  {
    hide Charge;
  }

  /** An upload adds at most one image, in an album of its owner, private if the album is. */
  lemma UploadEffect(s: State, owner: Option<UserId>, content: Content, v: Visibility, album: Option<AlbumId>,
                     quota: int)
    requires CountersAhead(s)
    ensures var t := PerformUpload(s, owner, content, v, album, quota);
            && t.albums == s.albums
            && (forall i :: i in s.images ==> i in t.images && t.images[i] == s.images[i])
            && (forall i :: i in t.images && i !in s.images ==>
                  && t.images[i].user == owner
                  && (t.images[i].album.Some? ==> owner.Some? && OwnsAlbum(s, owner.value, t.images[i].album.value))
                  && PrivateIfHidden(s, t.images[i]))
  {
    hide UploadNew, UploadAgain, FindFile;
    var chosen := if owner.Some? then album else None;
    UploadAddsOne(s, owner, content, UploadVisibility(s, owner, v, chosen), chosen, quota);
  }

  // ----- every operation, every run -----

  lemma DeleteQueuedKeepsInv(s: State, path: Path)
    requires Inv(s)
    ensures Inv(Perform(s, DeleteQueued(path)))
  {
    if path in s.queue {
      assert Unclaimed(s, path) by {
        assert forall f :: f in s.files ==> Backed(s, s.files[f]);
      }
      DeleteObjectKeepsInv(s, path);
      QueueShrinksKeepsInv(DeleteObject(s, path), path);
    }
  }

  lemma AlbumOpKeepsSurfaces(s: State, user: UserId, a: AlbumId, v: Visibility, order: seq<ImageId>)
    requires Inv(s) && Agree(s) && ListsAlbum(order, s, user, a)
    ensures var t := SetImagesVisibility(s, user, a, v, order).0;
            Inv(t) && Agree(t)
  {
    if OwnsAlbum(s, user, a) && !(s.albums[a].visibility == Private && v == Public) {
      ConvertAllWorks(s, user, order, v);
    }
  }

  lemma ChangeAlbumKeepsSurfaces(s: State, user: UserId, a: AlbumId, v: Visibility, order: seq<ImageId>)
    requires Inv(s) && Agree(s) && ListsAlbum(order, s, user, a)
    ensures var t := UpdateAlbum(s, user, a, v, order).0;
            Inv(t) && Agree(t)
  {
    if OwnsAlbum(s, user, a) {
      var t := s.(albums := s.albums[a := s.albums[a].(visibility := v)]);
      AlbumsKeepInv(s, t.albums);
      AlbumsKeepAgree(s, t.albums);
      AlbumOpKeepsSurfaces(t, user, a, v, order);
    }
  }

  /** Operations on albums as a whole. */
  predicate OnAlbum(op: Op)
  {
    op.ConvertAlbum? || op.ChangeAlbum? || op.CreateAlbum? || op.DeleteAlbum?
  }

  lemma AlbumOpsKeepSurfaces(s: State, op: Op)
    requires Inv(s) && Agree(s) && OnAlbum(op)
    ensures Inv(Perform(s, op)) && Agree(Perform(s, op))
  {
    match op
    case ConvertAlbum(u, a, v, order) => if ListsAlbum(order, s, u, a) { AlbumOpKeepsSurfaces(s, u, a, v, order); }
    case ChangeAlbum(u, a, v, order) => if ListsAlbum(order, s, u, a) { ChangeAlbumKeepsSurfaces(s, u, a, v, order); }
    case CreateAlbum(u, a, v) => AlbumsKeepInv(s, Perform(s, op).albums); AlbumsKeepAgree(s, Perform(s, op).albums);
    case DeleteAlbum(u, a, w) => DeleteAlbumKeepsSurfaces(s, u, a, w);
  }

  lemma DeleteAlbumKeepsSurfaces(s: State, user: UserId, a: AlbumId, withImages: bool)
    requires Inv(s) && Agree(s)
    ensures var t := PerformDeleteAlbum(s, user, a, withImages);
            Inv(t) && Agree(t)
  {
    hide Inv;
    DeleteAlbumKeepsInv(s, user, a, withImages);
    SameFacesKeepAgree(s, PerformDeleteAlbum(s, user, a, withImages));
  }

  /** Every operation, restores included, keeps visibility and surface in agreement. */
  lemma OpKeepsSurfaces(s: State, op: Op)
    requires Inv(s) && Agree(s)
    ensures Inv(Perform(s, op)) && Agree(Perform(s, op))
  {
    hide Inv, Agree, UpdateImage, PerformUpload, SetTrashed, PerformPurge, DeleteUser;
    if OnAlbum(op) {
      AlbumOpsKeepSurfaces(s, op);
    } else {
      match op
      case Register(u) => NewUserKeepsInv(s, u); SameFacesKeepAgree(s, NewUser(s, u));
      case AddUpload(o, content, v, album, quota) => UploadKeepsSurfaces(s, o, content, v, album, quota);
      case Change(u, id, p) => UpdateKeepsInv(s, u, id, p);
      case SoftDelete(u, id) => SetTrashedKeepsSurfaces(s, id, true);
      case Restore(u, id) => SetTrashedKeepsSurfaces(s, id, false);
      case AdminSoftDelete(id) => SetTrashedKeepsSurfaces(s, id, true);
      case AdminRestore(id) => SetTrashedKeepsSurfaces(s, id, false);
      case Purge(id) => PurgeKeepsSurfaces(s, id);
      case CloseAccount(u, order) => CloseAccountKeepsSurfaces(s, u, order);
      case DeleteQueued(path) => DeleteQueuedKeepsInv(s, path); SameFacesKeepAgree(s, Perform(s, op));
    }
  }

  lemma SetTrashedKeepsSurfaces(s: State, id: ImageId, trashed: bool)
    requires Inv(s) && Agree(s)
    ensures Inv(SetTrashed(s, id, trashed)) && Agree(SetTrashed(s, id, trashed))
  {
    hide Inv, Agree;
    SetTrashedSameLinks(s, id, trashed);
    SameLinksKeepsInv(s, SetTrashed(s, id, trashed));
    SameFacesKeepAgree(s, SetTrashed(s, id, trashed));
  }

  /** The two ways out of the trash. */
  predicate Restores(op: Op)
  {
    op.Restore? || op.AdminRestore?
  }

  /** Every operation except restoring keeps live images in private albums private. */
  lemma OpKeepsPrivacy(s: State, op: Op)
    requires Tidy(s) && !Restores(op)
    ensures AlbumsLinked(Perform(s, op)) && PrivateInside(Perform(s, op))
  {
    match op
    case AddUpload(o, content, v, album, quota) => UploadKeepsAlbums(s, o, content, v, album, quota);
    case Change(u, id, p) => UpdateKeepsAlbums(s, u, id, p);
    case ConvertAlbum(u, a, v, order) =>
      if ListsAlbum(order, s, u, a) { SetImagesVisibilityKeepsTidy(s, u, a, v, order); }
    case ChangeAlbum(u, a, v, order) =>
      if ListsAlbum(order, s, u, a) && OwnsAlbum(s, u, a) { UpdateAlbumWorks(s, u, a, v, order); }
    case CloseAccount(u, order) => CloseAccountKeepsAlbums(s, u, order);
    case DeleteAlbum(u, a, w) => DeleteAlbumKeepsAlbums(s, u, a, w);
    case Purge(id) => PurgeKeepsAlbums(s, id);
    case _ => SimpleOpKeepsAlbums(s, op);
  }

  lemma PurgeWithdraws(s: State, id: ImageId)
    ensures Withdraws(s, PerformPurge(s, id)) && AlbumsKept(s, PerformPurge(s, id))
  {
    hide RefundOwner, DropRef;
  }

  lemma PurgeKeepsAlbums(s: State, id: ImageId)
    requires AlbumsLinked(s) && PrivateInside(s)
    ensures AlbumsLinked(PerformPurge(s, id)) && PrivateInside(PerformPurge(s, id))
  {
    hide AlbumsLinked, PrivateInside, PerformPurge, Withdraws, AlbumsKept;
    PurgeWithdraws(s, id);
    WithdrawalKeepsAlbums(s, PerformPurge(s, id));
  }

  lemma TrashWithdraws(s: State, id: ImageId)
    ensures Withdraws(s, SetTrashed(s, id, true)) && AlbumsKept(s, SetTrashed(s, id, true))
  {
  }

  lemma SameImagesWithdraw(s: State, t: State)
    requires t.images == s.images && forall a :: a in s.albums ==> a in t.albums && t.albums[a] == s.albums[a]
    ensures Withdraws(s, t) && AlbumsKept(s, t)
  {
  }

  lemma SimpleOpWithdraws(s: State, op: Op)
    requires op.Register? || op.CreateAlbum? || op.SoftDelete? || op.AdminSoftDelete? || op.DeleteQueued?
    ensures Withdraws(s, Perform(s, op)) && AlbumsKept(s, Perform(s, op))
  {
    hide SetTrashed, Withdraws, AlbumsKept, PerformUpload, PerformDeleteAlbum, PerformPurge, DeleteUser, UpdateImage,
      UpdateAlbum, SetImagesVisibility;
    SameImagesWithdraw(s, s);
    match op
    case SoftDelete(_, id) => TrashWithdraws(s, id);
    case AdminSoftDelete(id) => TrashWithdraws(s, id);
    case _ => SameImagesWithdraw(s, Perform(s, op));
  }

  lemma SimpleOpKeepsAlbums(s: State, op: Op)
    requires AlbumsLinked(s) && PrivateInside(s)
    requires op.Register? || op.CreateAlbum? || op.SoftDelete? || op.AdminSoftDelete? || op.DeleteQueued?
    ensures AlbumsLinked(Perform(s, op)) && PrivateInside(Perform(s, op))
  {
    hide AlbumsLinked, PrivateInside, Perform, Withdraws, AlbumsKept;
    SimpleOpWithdraws(s, op);
    WithdrawalKeepsAlbums(s, Perform(s, op));
  }

  /** Runs of any operations keep visibility and surface in agreement. */
  lemma {:induction false} RunsKeepSurfaces(s: State, ops: seq<Op>)
    requires Inv(s) && Agree(s)
    ensures Inv(PerformAll(s, ops)) && Agree(PerformAll(s, ops))
  {
    if ops != [] {
      RunsKeepSurfaces(s, ops[..|ops| - 1]);
      OpKeepsSurfaces(PerformAll(s, ops[..|ops| - 1]), ops[|ops| - 1]);
    }
  }

  /** Runs without restores keep every live image in a private album private, and all else tidy. */
  lemma {:induction false} RunsWithoutRestore(s: State, ops: seq<Op>)
    requires Tidy(s) && forall i :: 0 <= i < |ops| ==> !Restores(ops[i])
    ensures Tidy(PerformAll(s, ops))
  {
    if ops != [] {
      RunsWithoutRestore(s, ops[..|ops| - 1]);
      OpKeepsSurfaces(PerformAll(s, ops[..|ops| - 1]), ops[|ops| - 1]);
      OpKeepsPrivacy(PerformAll(s, ops[..|ops| - 1]), ops[|ops| - 1]);
    }
  }

  lemma EmptyIsTidy()
    ensures Tidy(EMPTY)
  {
    EmptyIsConsistent();
  }

  /**
    A restore, the owner's or an administrator's, looks at no album: it keeps the claim if and only if the image
    is not public in a private album.
   */
  lemma RestoreKeepsPrivateIff(s: State, user: UserId, id: ImageId)
    requires PrivateInside(s) && id in s.images
    ensures PrivateInside(Perform(s, AdminRestore(id)))
            <==> !(InPrivateAlbum(s, s.images[id]) && s.images[id].visibility == Public)
    ensures OwnsImage(s, user, id) ==> Perform(s, Restore(user, id)) == Perform(s, AdminRestore(id))
  {
    var t := Perform(s, AdminRestore(id));
    assert t == s.(images := s.images[id := s.images[id].(trashed := false)]);
    if PrivateInside(t) {
      assert PrivateIfHidden(t, t.images[id]);
    }
    forall i | i in t.images && i != id
      ensures PrivateIfHidden(t, t.images[i])
    {
      assert PrivateIfHidden(s, s.images[i]);
    }
  }
}
