/**
  Images coming in by upload, going to the trash and back, and the deletion of a whole account.
 */
module Accounts {
  import opened Prelude
  import opened StoreState
  import opened Purge
  import opened Rehome

  // ----- uploads: the environment of the image service -----

  /** A guest is never charged; a user's row must exist and, with a positive quota, have room. */
  predicate Chargeable(s: State, owner: Option<UserId>, size: nat, quota: int)
  {
    owner.Some? ==> owner.value in s.users && (quota > 0 ==> s.users[owner.value] + size <= quota)
  }

  function Charge(users: map<UserId, int>, owner: Option<UserId>, size: nat): map<UserId, int>
  {
    if owner.Some? && owner.value in users then users[owner.value := users[owner.value] + size] else users
  }

  function AddImage(s: State, img: Image, size: nat): State
  {
    s.(images := s.images[s.nextImage := img], nextImage := s.nextImage + 1,
       users := Charge(s.users, img.user, size))
  }

  /** Upload of content that a row of the same surface already holds: one more reference to it, or a rollback. */
  function UploadAgain(s: State, owner: Option<UserId>, f: FileId, album: Option<AlbumId>, quota: int): State
  {
    if f in s.files && s.files[f].surface.On? && Chargeable(s, owner, |s.files[f].hash|, quota) then
      AddImage(s.(files := AddRef(s.files, f)),
               Image(owner, f, album, s.files[f].surface.visibility, false), |s.files[f].hash|)
    else s
  }

  /**
    Upload of new content: the object first, then file row, image row and charge in one transaction. When the
    transaction rolls back, the stored original is returned for deletion.
   */
  ghost function UploadNew(s: State, owner: Option<UserId>, hash: Content, surface: Visibility,
                           album: Option<AlbumId>, quota: int): (State, Option<Path>)
  {
    var (stored, path) := PutObject(s, surface, hash);
    if FindFile(s, hash, surface).None? && Chargeable(s, owner, |hash|, quota) then
      var (t, f) := CreateRow(stored, File(hash, On(surface), path, |hash|, 0), surface, path);
      (UploadAgain(t, owner, f, album, quota), None)
    else (stored, Some(path))
  }

  lemma AgainWithinQuota(s: State, owner: UserId, f: FileId, album: Option<AlbumId>, quota: int)
    ensures var t := UploadAgain(s, Some(owner), f, album, quota);
            t.users == s.users || (owner in t.users && (quota > 0 ==> t.users[owner] <= quota))
  {
    hide AddRef;
  }

  /** An upload raises its owner's use to the quota at most, or leaves every user's use as it was. */
  lemma UploadsWithinQuota(s: State, owner: UserId, f: FileId, hash: Content, surface: Visibility,
                           album: Option<AlbumId>, quota: int)
    ensures var t := UploadAgain(s, Some(owner), f, album, quota);
            t.users == s.users || (owner in t.users && (quota > 0 ==> t.users[owner] <= quota))
    ensures var t := UploadNew(s, Some(owner), hash, surface, album, quota).0;
            t.users == s.users || (owner in t.users && (quota > 0 ==> t.users[owner] <= quota))
  {
    hide FindFile, AddRef, UploadAgain;
    AgainWithinQuota(s, owner, f, album, quota);
    var (stored, path) := PutObject(s, surface, hash);
    var (t, g) := CreateRow(stored, File(hash, On(surface), path, |hash|, 0), surface, path);
    AgainWithinQuota(t, owner, g, album, quota);
  }

  lemma UploadAgainKeepsQuotas(s: State, owner: Option<UserId>, f: FileId, album: Option<AlbumId>, quota: int)
    requires FilesPresent(s) && CountersAhead(s) && QuotasExact(s) && FilesBacked(s)
    ensures QuotasExact(UploadAgain(s, owner, f, album, quota))
  {
    hide FilesPresent, Usage;
    var t := UploadAgain(s, owner, f, album, quota);
    if t != s {
      assert Backed(s, s.files[f]);
      assert s.nextImage !in s.images && s.images == t.images - {s.nextImage};
      forall u | u in t.users
        ensures t.users[u] == Usage(t, u)
      {
        UsageAfterInsert(s, t, s.nextImage, u);
      }
    }
  }

  lemma UploadAgainKeepsCounts(s: State, owner: Option<UserId>, f: FileId, album: Option<AlbumId>, quota: int)
    requires RefsExact(s) && CountersAhead(s)
    ensures RefsExact(UploadAgain(s, owner, f, album, quota))
  {
    var t := UploadAgain(s, owner, f, album, quota);
    if t != s {
      forall g | g in t.files
        ensures t.files[g].refCount == |Refs(t.images, g)|
      {
        RefsAfterInsert(s.images, s.nextImage, t.images[s.nextImage], g);
      }
    }
  }

  lemma UploadAgainKeepsRows(s: State, owner: Option<UserId>, f: FileId, album: Option<AlbumId>, quota: int)
    requires FilesPresent(s) && CountersAhead(s)
    ensures var t := UploadAgain(s, owner, f, album, quota);
            && t.files.Keys == s.files.Keys && (forall g :: g in t.files ==> SameRow(t.files[g], s.files[g]))
            && t.objects == s.objects && t.queue == s.queue
            && FilesPresent(t) && CountersAhead(t)
  {
    hide Chargeable, Charge;
    var t := UploadAgain(s, owner, f, album, quota);
    assert t.files == s.files || t.files == AddRef(s.files, f);
  }

  lemma UploadAgainKeepsInv(s: State, owner: Option<UserId>, f: FileId, album: Option<AlbumId>, quota: int)
    requires Inv(s)
    ensures Inv(UploadAgain(s, owner, f, album, quota))
  {
    var t := UploadAgain(s, owner, f, album, quota);
    if t != s {
      UploadAgainKeepsQuotas(s, owner, f, album, quota);
      UploadAgainKeepsCounts(s, owner, f, album, quota);
      UploadAgainKeepsRows(s, owner, f, album, quota);
      SameRowsKeepObjects(s, t);
    }
  }

  lemma UploadNewKeepsInv(s: State, owner: Option<UserId>, hash: Content, surface: Visibility,
                          album: Option<AlbumId>, quota: int)
    requires Inv(s)
    ensures var (t, lost) := UploadNew(s, owner, hash, surface, album, quota);
            && Inv(t)
            && (lost.Some? ==> lost.value.name < t.nextName && Unclaimed(t, lost.value) && lost.value !in t.queue)
  {
    hide FindFile, Inv, UploadAgain;
    PutKeepsInv(s, surface, hash);
    var (stored, path) := PutObject(s, surface, hash);
    var row := File(hash, On(surface), path, |hash|, 0);
    if FindFile(s, hash, surface).None? {
      PutLooksAlike(s, surface, hash);
      CreateKeepsInv(stored, row, surface, path);
      var (t, f) := CreateRow(stored, row, surface, path);
      UploadAgainKeepsInv(t, owner, f, album, quota);
    }
  }

  lemma PutLooksAlike(s: State, surface: Visibility, hash: Content)
    ensures FindFile(s, hash, surface).None? ==> FindFile(PutObject(s, surface, hash).0, hash, surface).None?
  {
  }

  // ----- users -----

  function NewUser(s: State, u: UserId): State
  {
    if u in s.users then s else s.(users := s.users[u := 0])
  }

  lemma NewUserKeepsQuotas(s: State, u: UserId)
    requires QuotasExact(s)
    ensures QuotasExact(NewUser(s, u))
  {
    var t := NewUser(s, u);
    if u !in s.users {
      assert Sizes(t, u) == map[];
      forall v | v in s.users
        ensures Usage(t, v) == Usage(s, v)
      {
        UsageUnchanged(s, t, v);
      }
    }
  }

  lemma NewUserKeepsInv(s: State, u: UserId)
    requires Inv(s)
    ensures Inv(NewUser(s, u))
  {
    var t := NewUser(s, u);
    NewUserKeepsQuotas(s, u);
    assert forall f :: f in t.files ==> Backed(s, s.files[f]) && Backed(t, t.files[f]);
  }

  // ----- the trash -----

  function SetTrashed(s: State, id: ImageId, trashed: bool): State
  {
    if id in s.images then s.(images := s.images[id := s.images[id].(trashed := trashed)]) else s
  }

  /** A plain write of columns to a live image that stays on its file. */
  function WriteColumns(s: State, id: ImageId, u: Updates): State
  {
    if id in s.images && !s.images[id].trashed then s.(images := s.images[id := Updated(s.images[id], u)]) else s
  }

  lemma SetTrashedSameLinks(s: State, id: ImageId, trashed: bool)
    ensures SameLinks(s, SetTrashed(s, id, trashed))
  {
  }

  lemma WriteColumnsSameLinks(s: State, id: ImageId, u: Updates)
    ensures SameLinks(s, WriteColumns(s, id, u))
  {
  }

  /** Soft deletion of all live images of a user. */
  function TrashAllOf(s: State, u: UserId): State
  {
    s.(images := map i | i in s.images
                   :: if s.images[i].user == Some(u) then s.images[i].(trashed := true) else s.images[i])
  }

  // ----- account deletion -----

  /** `order` lists the images of user u, each once, in whatever order the query returned them. */
  ghost predicate Lists(order: seq<ImageId>, s: State, u: UserId)
  {
    NoDuplicates(order) && Elements(order) == Owned(s.images, u) && (forall id :: id in order ==> id in s.images)
  }

  /** The account-deletion transaction: trash all, purge in order, drop the user's albums and row. */
  function DeleteUser(s: State, u: UserId, order: seq<ImageId>): (r: (State, seq<Path>))
    requires forall id :: id in order ==> id in s.images
  {
    var t := TrashAllOf(s, u);
    var (p, freed) := PurgeAll(t, order, t.images);
    (p.(users := p.users - {u},
        albums := map a | a in p.albums && p.albums[a].owner != u :: p.albums[a]),
     freed)
  }

  /** What account deletion should leave behind, said without any loop. */
  function WithoutUser(s: State, u: UserId): State
  {
    var gone := Owned(s.images, u);
    s.(images := s.images - gone,
       files := FilesWithout(s, gone),
       users := s.users - {u},
       albums := map a | a in s.albums && s.albums[a].owner != u :: s.albums[a])
  }

  lemma TrashAllSameLinks(s: State, u: UserId)
    ensures SameLinks(s, TrashAllOf(s, u))
    ensures Owned(TrashAllOf(s, u).images, u) == Owned(s.images, u)
    ensures forall f :: Refs(TrashAllOf(s, u).images, f) == Refs(s.images, f)
  {
  }

  /** Other users' images own nothing that goes. */
  lemma OthersOwnNone(s: State, u: UserId, v: UserId)
    requires u != v
    ensures OwnsNone(s.images, v, Owned(s.images, u))
  {
  }

  /**
    Deleting an account frees exactly the originals all of whose references were the user's, lowers every
    other file's count by exactly the user's share, leaves other users' images and quotas alone, and the
    result does not depend on the order in which the images are purged.
   */
  lemma DeleteUserIsExact(s: State, u: UserId, order: seq<ImageId>)
    requires Inv(s) && Lists(order, s, u)
    ensures DeleteUser(s, u, order).0 == WithoutUser(s, u)
    ensures Elements(DeleteUser(s, u, order).1) == PathsFreed(s, Owned(s.images, u))
    ensures NoDuplicates(DeleteUser(s, u, order).1)
  {
    PurgeAllOf(s, u, order);
    var t := TrashAllOf(s, u);
    var (p, freed) := PurgeAll(t, order, t.images);
    PurgedAfterTrash(s, u, p, freed);
  }

  /** The batch inside account deletion purges exactly the user's images. */
  /**
    Account deletion, said of the rows: exactly the user's images, row and albums go; a file goes exactly when images
    point at it and all of them were the user's, otherwise it counts the others; exactly the originals of the files
    that go are freed; whatever belongs to others stays as it was.
   */
  lemma DeleteUserEffect(s: State, u: UserId, order: seq<ImageId>)
    requires Inv(s) && Lists(order, s, u)
    ensures var t := DeleteUser(s, u, order).0;
            && (forall i :: i in t.images <==> i in s.images && s.images[i].user != Some(u))
            && (forall i :: i in t.images ==> t.images[i] == s.images[i])
            && (forall v :: v in t.users <==> v in s.users && v != u)
            && (forall v :: v in t.users ==> t.users[v] == s.users[v])
            && (forall a :: a in t.albums <==> a in s.albums && s.albums[a].owner != u)
            && (forall a :: a in t.albums ==> t.albums[a] == s.albums[a])
            && t.objects == s.objects && t.queue == s.queue
    ensures var t := DeleteUser(s, u, order).0;
            forall f :: f in t.files <==>
              && f in s.files
              && ((exists i :: i in s.images && s.images[i].user != Some(u) && s.images[i].file == f)
                  || (forall i :: i in s.images ==> s.images[i].file != f))
    ensures var t := DeleteUser(s, u, order).0;
            forall f :: f in t.files ==>
              t.files[f] == s.files[f].(refCount := |set i | i in s.images && s.images[i].user != Some(u)
                                                             && s.images[i].file == f|)
    ensures var (t, freed) := DeleteUser(s, u, order);
            && (forall f :: f in s.files && f !in t.files ==> s.files[f].path in freed)
            && (forall p :: p in freed ==> exists f :: f in s.files && f !in t.files && s.files[f].path == p)
  {
    hide DeleteUser, FilesWithout, PathsFreed, FilesPresent, RefsExact, QuotasExact, FilesBacked, PathsDistinct,
      HashSurfaceUnique, NoDuplicates;
    DeleteUserIsExact(s, u, order);
    var gone := Owned(s.images, u);
    var (t, freed) := DeleteUser(s, u, order);
    forall f
      ensures f in t.files <==>
              && f in s.files
              && ((exists i :: i in s.images && s.images[i].user != Some(u) && s.images[i].file == f)
                  || (forall i :: i in s.images ==> s.images[i].file != f))
      ensures f in t.files ==>
                t.files[f] == s.files[f].(refCount := |set i | i in s.images && s.images[i].user != Some(u)
                                                               && s.images[i].file == f|)
      ensures f in s.files && f !in t.files ==> s.files[f].path in freed
    {
      OthersCount(s, u, f);
    }
    forall p | p in freed
      ensures exists f :: f in s.files && f !in t.files && s.files[f].path == p
    {
      assert p in Elements(freed);
      FreedFrom(s, gone, p);
    }
  }

  lemma FreedFrom(s: State, gone: set<ImageId>, p: Path)
    requires p in PathsFreed(s, gone)
    ensures exists f :: f in s.files && f !in FilesWithout(s, gone) && s.files[f].path == p
  {
  }

  lemma OthersCount(s: State, u: UserId, f: FileId)
    requires RefsExact(s)
    ensures var files := FilesWithout(s, Owned(s.images, u));
            && (f in files <==>
                  && f in s.files
                  && ((exists i :: i in s.images && s.images[i].user != Some(u) && s.images[i].file == f)
                      || (forall i :: i in s.images ==> s.images[i].file != f)))
            && (f in files ==>
                  files[f] == s.files[f].(refCount := |set i | i in s.images && s.images[i].user != Some(u)
                                                               && s.images[i].file == f|))
    ensures f in s.files && f !in FilesWithout(s, Owned(s.images, u)) ==>
              s.files[f].path in PathsFreed(s, Owned(s.images, u))
  {
    hide FilesWithout, PathsFreed, RefsExact;
    var gone := Owned(s.images, u);
    WithoutMeans(s, gone, f);
    assert (set i | i in s.images && i !in gone && s.images[i].file == f)
           == (set i | i in s.images && s.images[i].user != Some(u) && s.images[i].file == f);
  }

  lemma PurgeAllOf(s: State, u: UserId, order: seq<ImageId>)
    requires Inv(s) && Lists(order, s, u)
    ensures var t := TrashAllOf(s, u);
            && Inv(PurgeAll(t, order, t.images).0)
            && Purged(t, Owned(s.images, u), PurgeAll(t, order, t.images).0, PurgeAll(t, order, t.images).1)
  {
    var t := TrashAllOf(s, u);
    TrashAllSameLinks(s, u);
    SameLinksKeepsInv(s, t);
    assert forall id :: id in order ==> id in Elements(order);
    PurgeAllKeepsInv(t, order);
    PurgeAllIsExact(t, order);
  }

  lemma PurgedAfterTrash(s: State, u: UserId, p: State, freed: seq<Path>)
    requires Purged(TrashAllOf(s, u), Owned(s.images, u), p, freed)
    ensures p.(users := p.users - {u}) == WithoutUser(s, u).(albums := s.albums)
    ensures Elements(freed) == PathsFreed(s, Owned(s.images, u)) && NoDuplicates(freed)
  {
    var t := TrashAllOf(s, u);
    var gone := Owned(s.images, u);
    assert t.images - gone == s.images - gone;
    TrashAllSameLinks(s, u);
    SameFilesWithout(s, t, gone);
    SamePathsFreed(s, t, gone);
    SamePathsFreed(t, s, gone);
    forall v | v in s.users && v != u
      ensures p.users[v] == s.users[v]
    {
      OthersOwnNone(t, u, v);
    }
    assert p.users - {u} == s.users - {u};
  }

  /** Only the links from images to files decide what a purge does to a file. */
  lemma SameShares(s: State, t: State, f: FileId, gone: set<ImageId>)
    requires Refs(s.images, f) == Refs(t.images, f)
    ensures LosesAll(s.images, f, gone) == LosesAll(t.images, f, gone)
    ensures |Share(s.images, f, gone)| == |Share(t.images, f, gone)|
  {
  }

  lemma SameRowWithout(s: State, t: State, gone: set<ImageId>, f: FileId)
    requires s.files == t.files && Refs(s.images, f) == Refs(t.images, f)
    ensures f in FilesWithout(s, gone) <==> f in FilesWithout(t, gone)
    ensures f in FilesWithout(s, gone) ==> FilesWithout(s, gone)[f] == FilesWithout(t, gone)[f]
  {
    hide Refs, Share, LosesAll;
    SameShares(s, t, f, gone);
  }

  lemma SameFilesWithout(s: State, t: State, gone: set<ImageId>)
    requires s.files == t.files
    requires forall f :: f in s.files ==> Refs(s.images, f) == Refs(t.images, f)
    ensures FilesWithout(t, gone) == FilesWithout(s, gone)
  {
    hide Refs;
    var one, two := FilesWithout(s, gone), FilesWithout(t, gone);
    forall f | f in s.files
      ensures f in one <==> f in two
      ensures f in one ==> one[f] == two[f]
    {
      SameRowWithout(s, t, gone, f);
    }
    assert one.Keys == two.Keys;
  }

  lemma SamePathsFreed(s: State, t: State, gone: set<ImageId>)
    requires s.files == t.files
    requires forall f :: f in s.files ==> Refs(s.images, f) == Refs(t.images, f)
    ensures PathsFreed(t, gone) <= PathsFreed(s, gone)
  {
    forall p | p in PathsFreed(t, gone)
      ensures p in PathsFreed(s, gone)
    {
      var f :| f in t.files && LosesAll(t.images, f, gone) && t.files[f].path == p;
      SameShares(s, t, f, gone);
    }
  }

  lemma DeleteUserOrderIrrelevant(s: State, u: UserId, one: seq<ImageId>, two: seq<ImageId>)
    requires Inv(s) && Lists(one, s, u) && Lists(two, s, u)
    ensures DeleteUser(s, u, one).0 == DeleteUser(s, u, two).0
    ensures Elements(DeleteUser(s, u, one).1) == Elements(DeleteUser(s, u, two).1)
  {
    DeleteUserIsExact(s, u, one);
    DeleteUserIsExact(s, u, two);
  }

  lemma DropUserKeepsQuotas(s: State, u: UserId, albums: map<AlbumId, Album>)
    requires QuotasExact(s) && Owned(s.images, u) == {}
    ensures QuotasExact(s.(users := s.users - {u}, albums := albums))
  {
    var t := s.(users := s.users - {u}, albums := albums);
    forall i | i in t.images && t.images[i].user.Some?
      ensures t.images[i].user.value in t.users
    {
      assert i !in Owned(s.images, u);
    }
    forall v | v in t.users
      ensures Usage(t, v) == Usage(s, v)
    {
      UsageUnchanged(s, t, v);
    }
  }

  lemma DropUserKeepsInv(s: State, u: UserId, albums: map<AlbumId, Album>)
    requires Inv(s) && Owned(s.images, u) == {}
    ensures Inv(s.(users := s.users - {u}, albums := albums))
  {
    var t := s.(users := s.users - {u}, albums := albums);
    DropUserKeepsQuotas(s, u, albums);
    assert forall f :: f in t.files ==> Backed(s, s.files[f]) && Backed(t, t.files[f]);
  }

  lemma DeleteUserKeepsInv(s: State, u: UserId, order: seq<ImageId>)
    requires Inv(s) && Lists(order, s, u)
    ensures Inv(DeleteUser(s, u, order).0)
  {
    PurgeAllOf(s, u, order);
    var t := TrashAllOf(s, u);
    var p := PurgeAll(t, order, t.images).0;
    assert Owned(p.images, u) == {};
    DropUserKeepsInv(p, u, DeleteUser(s, u, order).0.albums);
  }
}
