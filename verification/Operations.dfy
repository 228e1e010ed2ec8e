/**
  Whole operations run one after another: image updates, album-wide changes, the repair of
  mismatched surfaces. Stored objects can be read and written; nothing else is assumed.
 */
module Operations {
  import opened Prelude
  import opened StoreState
  import opened Rehome
  import opened Accounts
  import opened StoreRuns
  import opened Agreement

  datatype AlbumMove = Out | Into(album: AlbumId)

  /** The parts of an update that touch visibility and album. */
  datatype Patch = Patch(visibility: Option<Visibility>, album: Option<AlbumMove>)

  datatype Result = Ok | NotFound | AlbumNotFound | AlbumForcesPrivate | StorageError

  // ----- moving one image to the other surface -----

  /** Find or create the row with the content of `row` on `target`. */
  ghost function Resolve(s: State, row: File, target: Visibility): (State, Option<FileId>)
  {
    var found := FindFile(s, row.hash, target);
    if found.Some? then (s, found)
    else if row.path !in s.objects then (s, None)
    else
      var (stored, path) := PutObject(s, target, s.objects[row.path]);
      var (t, f) := CreateRow(stored, row, target, path);
      (t, Some(f))
  }

  /** Resolve, commit, and queue the original of the file that lost its last reference. */
  ghost function Move(s: State, id: ImageId, target: Visibility, u: Updates): (State, Result)
    requires id in s.images && s.images[id].file in s.files
  {
    var from := s.images[id].file;
    var (t, file) := Resolve(s, s.files[from], target);
    if file.None? then (t, StorageError)
    else
      var (moved, o) := Commit(t, id, from, file.value, u);
      if o.TargetGone? then (t, StorageError)
      else (moved.(queue := moved.queue + (if o.Moved? then Freed(o.freed) else {})), Ok)
  }

  lemma ResolveKeepsInv(s: State, row: File, target: Visibility)
    requires Inv(s) && row.path in s.objects && s.objects[row.path] == row.hash && row.size == |row.hash|
    ensures var (t, file) := Resolve(s, row, target);
            && Inv(t) && file.Some?
            && file.value in t.files && InSlot(t.files[file.value], row.hash, target)
            && t.images == s.images && t.users == s.users && t.albums == s.albums && t.queue == s.queue
            && (forall f :: f in s.files ==> f in t.files && t.files[f] == s.files[f])
  {
    hide FindFile, FilesPresent, RefsExact, HashSurfaceUnique, FilesBacked, PathsDistinct, QuotasExact;
    if FindFile(s, row.hash, target).None? {
      PutKeepsInv(s, target, row.hash);
      var (stored, path) := PutObject(s, target, row.hash);
      CreateKeepsInv(stored, row, target, path);
    }
  }

  /** After a commit the freed original belongs to no row, so it may be queued. */
  lemma CommitThenQueue(s: State, id: ImageId, from: FileId, file: FileId, u: Updates)
    requires Inv(s) && WillMove(s, id, from, file) && s.files[from].hash == s.files[file].hash
    ensures var (t, o) := Commit(s, id, from, file, u);
            o.Moved? && Inv(t.(queue := t.queue + Freed(o.freed)))
  {
    hide FilesPresent;
    var (t, o) := Commit(s, id, from, file, u);
    CommitKeepsInv(s, id, from, file, u);
    forall f | f in t.files
      ensures t.files[f].path !in t.queue && (o.freed.Some? ==> t.files[f].path != o.freed.value)
    {
      assert Backed(t, t.files[f]);
    }
    assert Backed(s, s.files[from]);
    QueueKeepsInv(t, t.queue + Freed(o.freed));
  }

  /** From s to t only image `id` changed among images; files keep their surface. */
  ghost predicate OnlyImage(s: State, t: State, id: ImageId)
  {
    && t.images.Keys == s.images.Keys && id in s.images
    && (forall i :: i in s.images && i != id ==> t.images[i] == s.images[i])
    && t.images[id].user == s.images[id].user && t.images[id].trashed == s.images[id].trashed
    && t.albums == s.albums && t.users == s.users
    && (forall f :: f in s.files && f in t.files ==> t.files[f].surface == s.files[f].surface)
  }

  lemma MoveKeepsInv(s: State, id: ImageId, target: Visibility, u: Updates)
    requires Inv(s) && id in s.images && !s.images[id].trashed
    ensures s.images[id].file in s.files
    ensures Move(s, id, target, u).1 == Ok && Inv(Move(s, id, target, u).0)
  {
    var from := s.images[id].file;
    assert Backed(s, s.files[from]);
    ResolveKeepsInv(s, s.files[from], target);
    var (t, file) := Resolve(s, s.files[from], target);
    CommitThenQueue(t, id, from, file.value, u);
  }

  /** What Resolve does to the tables, object or no object. */
  lemma ResolveEffect(s: State, row: File, target: Visibility)
    requires CountersAhead(s)
    ensures var (t, file) := Resolve(s, row, target);
            && t.images == s.images && t.users == s.users && t.albums == s.albums
            && (forall f :: f in s.files ==> f in t.files && t.files[f] == s.files[f])
            && (file.Some? ==> file.value in t.files && t.files[file.value].surface == On(target))
  {
  }

  /** What a commit does to the tables. */
  lemma CommitEffect(s: State, id: ImageId, from: FileId, file: FileId, u: Updates)
    requires WillMove(s, id, from, file)
    ensures var (t, o) := Commit(s, id, from, file, u);
            && o.Moved?
            && t.images == s.images[id := Updated(s.images[id], u).(file := file)]
            && t.users == s.users && t.albums == s.albums
            && (forall f :: f in t.files ==> f in s.files && t.files[f].surface == s.files[f].surface)
  {
  }

  /** A successful move touches only its image. */
  lemma MoveEffect(s: State, id: ImageId, target: Visibility, u: Updates)
    requires CountersAhead(s) && id in s.images && !s.images[id].trashed && s.images[id].file in s.files
    requires Move(s, id, target, u).1 == Ok
    ensures var t := Move(s, id, target, u).0;
            && OnlyImage(s, t, id)
            && t.images[id] == Updated(s.images[id], u).(file := t.images[id].file)
            && (t.images[id].file in t.files ==> t.files[t.images[id].file].surface == On(target))
  {
    var from := s.images[id].file;
    ResolveEffect(s, s.files[from], target);
    var (t, file) := Resolve(s, s.files[from], target);
    CommitEffect(t, id, from, file.value, u);
  }

  /** With its object stored, a live image can always be moved, and ends on the target surface. */
  lemma MoveWorks(s: State, id: ImageId, target: Visibility, u: Updates)
    requires Inv(s) && id in s.images && !s.images[id].trashed
    ensures s.images[id].file in s.files
    ensures var (t, r) := Move(s, id, target, u);
            && r == Ok && Inv(t) && OnlyImage(s, t, id)
            && t.images[id].file in t.files && t.files[t.images[id].file].surface == On(target)
            && t.images[id] == Updated(s.images[id], u).(file := t.images[id].file)
  {
    MoveKeepsInv(s, id, target, u);
    MoveEffect(s, id, target, u);
    var t := Move(s, id, target, u).0;
    assert t.images[id].file in t.files;
  }

  // ----- updating one image -----

  predicate InPrivateAlbum(s: State, img: Image)
  {
    img.album.Some? && img.album.value in s.albums && s.albums[img.album.value].visibility == Private
  }

  /** Moving into a private album forces private. */
  function WantedVisibility(s: State, p: Patch): Option<Visibility>
  {
    if p.album.Some? && p.album.value.Into? && p.album.value.album in s.albums
       && s.albums[p.album.value.album].visibility == Private
    then Some(Private) else p.visibility
  }

  function AlbumColumn(p: Patch): Option<Option<AlbumId>>
  {
    match p.album
    case None => None
    case Some(Out) => Some(None)
    case Some(Into(a)) => Some(Some(a))
  }

  predicate OwnsAlbum(s: State, user: UserId, a: AlbumId)
  {
    a in s.albums && s.albums[a].owner == user
  }

  ghost function UpdateImage(s: State, user: UserId, id: ImageId, p: Patch): (State, Result)
  {
    if id !in s.images || s.images[id].trashed || s.images[id].user != Some(user) then (s, NotFound)
    else if p.album.Some? && p.album.value.Into? && !OwnsAlbum(s, user, p.album.value.album) then (s, AlbumNotFound)
    else
      var wanted := WantedVisibility(s, p);
      var u := Updates(wanted, AlbumColumn(p));
      if wanted == Some(Public) && p.album.None? && InPrivateAlbum(s, s.images[id]) then (s, AlbumForcesPrivate)
      else if wanted.None? then (WriteColumns(s, id, u), Ok)
      else if s.images[id].file !in s.files then (s, StorageError)
      else if FileSurface(s.files[s.images[id].file]) != wanted.value then Move(s, id, wanted.value, u)
      else (WriteColumns(s, id, u), Ok)
  }

  /** The update passes the checks on image, album and private stay. */
  predicate Accepted(s: State, user: UserId, id: ImageId, p: Patch)
  {
    && id in s.images && !s.images[id].trashed && s.images[id].user == Some(user)
    && (p.album.Some? && p.album.value.Into? ==> OwnsAlbum(s, user, p.album.value.album))
    && !(WantedVisibility(s, p) == Some(Public) && p.album.None? && InPrivateAlbum(s, s.images[id]))
  }

  /** An update either changes nothing and says why, or writes exactly what was asked (or forced). */
  lemma UpdateEffect(s: State, user: UserId, id: ImageId, p: Patch)
    requires Inv(s)
    ensures UpdateImage(s, user, id, p).1 == Ok <==> Accepted(s, user, id, p)
    ensures !Accepted(s, user, id, p) ==> UpdateImage(s, user, id, p).0 == s
    ensures Accepted(s, user, id, p) ==>
              var t := UpdateImage(s, user, id, p).0;
              var u := Updates(WantedVisibility(s, p), AlbumColumn(p));
              OnlyImage(s, t, id) && t.images[id] == Updated(s.images[id], u).(file := t.images[id].file)
  {
    hide FilesBacked, QuotasExact, PathsDistinct, HashSurfaceUnique, RefsExact, Move;
    if Accepted(s, user, id, p) {
      var u := Updates(WantedVisibility(s, p), AlbumColumn(p));
      if u.visibility.Some? && FileSurface(s.files[s.images[id].file]) != u.visibility.value {
        MoveWorks(s, id, u.visibility.value, u);
      }
    }
  }

  /** The row after an accepted update, column by column. */
  lemma UpdateWrites(s: State, user: UserId, id: ImageId, p: Patch)
    requires Inv(s) && Accepted(s, user, id, p)
    ensures var t := UpdateImage(s, user, id, p).0;
            && id in t.images
            && (p.album == Some(Out) ==> t.images[id].album == None)
            && (p.album.Some? && p.album.value.Into? ==> t.images[id].album == Some(p.album.value.album))
            && (p.album.None? ==> t.images[id].album == s.images[id].album)
            && (p.album.Some? && InPrivateAlbum(t, t.images[id]) ==> t.images[id].visibility == Private)
            && (!(p.album.Some? && InPrivateAlbum(t, t.images[id])) ==>
                  t.images[id].visibility == if p.visibility.Some? then p.visibility.value else s.images[id].visibility)
  {
    hide UpdateImage, Inv;
    UpdateEffect(s, user, id, p);
  }

  /**
    An update keeps the store consistent and images in agreement. One that writes a visibility also brings its
    image into agreement when it was not, as rows from before surfaces existed may be.
   */
  lemma UpdateKeepsInv(s: State, user: UserId, id: ImageId, p: Patch)
    requires Inv(s)
    ensures var t := UpdateImage(s, user, id, p).0;
            && Inv(t) && (Agree(s) ==> Agree(t))
            && (Accepted(s, user, id, p) && WantedVisibility(s, p).Some? ==> id in t.images && Agrees(t, id))
  {
    hide Inv, Agree, Move;
    if Accepted(s, user, id, p) {
      var u := Updates(WantedVisibility(s, p), AlbumColumn(p));
      MoveHeals(s, id, u);
      PlainWriteWorks(s, id, u);
    }
  }

  lemma MoveHeals(s: State, id: ImageId, u: Updates)
    requires Inv(s) && id in s.images && !s.images[id].trashed
    ensures s.images[id].file in s.files
    ensures u.visibility.Some? ==>
              var t := Move(s, id, u.visibility.value, u).0;
              Inv(t) && id in t.images && Agrees(t, id) && (Agree(s) ==> Agree(t))
  {
    hide Agree, Move;
    if u.visibility.Some? {
      MoveWorks(s, id, u.visibility.value, u);
      if Agree(s) {
        OnlyImageAgrees(s, Move(s, id, u.visibility.value, u).0, id);
      }
    }
  }

  lemma PlainWriteWorks(s: State, id: ImageId, u: Updates)
    requires Inv(s) && id in s.images && !s.images[id].trashed
    ensures var t := WriteColumns(s, id, u);
            && Inv(t) && OnlyImage(s, t, id) && t.images[id] == Updated(s.images[id], u)
            && (u.visibility.Some? && !StaleLook(s, id, u.visibility.value) ==> Agrees(t, id))
            && (Agree(s) && (u.visibility.Some? ==> !StaleLook(s, id, u.visibility.value)) ==> Agree(t))
  {
    hide Agree, Inv;
    WriteColumnsSameLinks(s, id, u);
    SameLinksKeepsInv(s, WriteColumns(s, id, u));
    if Agree(s) {
      WriteKeepsAgreeIff(s, id, u);
    }
  }

  lemma OnlyImageAgrees(s: State, t: State, id: ImageId)
    requires Agree(s) && FilesPresent(t) && OnlyImage(s, t, id) && Agrees(t, id)
    ensures Agree(t)
  {
    forall i | i in t.images
      ensures Agrees(t, i)
    {
      assert Agrees(s, i) && t.images[i].file in t.files;
    }
  }

  // ----- private albums -----

  /** An image's album exists and belongs to the image's owner. */
  ghost predicate AlbumsLinked(s: State)
  {
    forall i :: i in s.images && s.images[i].album.Some? ==>
      s.images[i].album.value in s.albums && s.images[i].user == Some(s.albums[s.images[i].album.value].owner)
  }

  /** A live image in a private album is private. */
  ghost predicate PrivateInside(s: State)
  {
    forall i :: i in s.images ==> PrivateIfHidden(s, s.images[i])
  }

  predicate PrivateIfHidden(s: State, img: Image)
  {
    !img.trashed && InPrivateAlbum(s, img) ==> img.visibility == Private
  }

  ghost predicate Tidy(s: State)
  {
    Inv(s) && Agree(s) && AlbumsLinked(s) && PrivateInside(s)
  }

  /** The row an accepted update writes sits in an album of its owner, and is private where it must be. */
  lemma AcceptedRowFits(s: State, user: UserId, id: ImageId, p: Patch, row: Image)
    requires Accepted(s, user, id, p) && AlbumsLinked(s) && PrivateInside(s)
    requires row == Updated(s.images[id], Updates(WantedVisibility(s, p), AlbumColumn(p))).(file := row.file)
    ensures row.album.Some? ==>
              row.album.value in s.albums && row.user == Some(s.albums[row.album.value].owner)
    ensures PrivateIfHidden(s, row)
  {
    assert PrivateIfHidden(s, s.images[id]);
  }

  lemma UpdateKeepsAlbums(s: State, user: UserId, id: ImageId, p: Patch)
    requires Tidy(s)
    ensures AlbumsLinked(UpdateImage(s, user, id, p).0) && PrivateInside(UpdateImage(s, user, id, p).0)
  {
    var t := UpdateImage(s, user, id, p).0;
    UpdateEffect(s, user, id, p);
    if Accepted(s, user, id, p) {
      AcceptedRowFits(s, user, id, p, t.images[id]);
      OnlyImageKeepsAlbums(s, t, id);
    }
  }

  lemma UpdateKeepsTidy(s: State, user: UserId, id: ImageId, p: Patch)
    requires Tidy(s)
    ensures Tidy(UpdateImage(s, user, id, p).0)
  {
    UpdateKeepsInv(s, user, id, p);
    UpdateKeepsAlbums(s, user, id, p);
  }

  lemma OnlyImageKeepsAlbums(s: State, t: State, id: ImageId)
    requires AlbumsLinked(s) && PrivateInside(s) && OnlyImage(s, t, id)
    requires t.images[id].album.Some? ==>
               t.images[id].album.value in t.albums
               && t.images[id].user == Some(t.albums[t.images[id].album.value].owner)
    requires PrivateIfHidden(t, t.images[id])
    ensures AlbumsLinked(t) && PrivateInside(t)
  {
    forall i | i in t.images
      ensures PrivateIfHidden(t, t.images[i])
    {
      assert PrivateIfHidden(s, s.images[i]);
    }
  }

  /**
    No update, whatever it asks for, leaves its image public in a private album, unless the image was public
    there before and the update asks for neither visibility nor album. To become public an image has to leave.
   */
  lemma PublicInsideRefused(s: State, user: UserId, id: ImageId, p: Patch)
    requires Inv(s) && id in s.images && !s.images[id].trashed
    ensures var (t, r) := UpdateImage(s, user, id, p);
            && id in t.images
            && (t.images[id].visibility == Public && InPrivateAlbum(t, t.images[id]) ==>
                  && s.images[id].visibility == Public && InPrivateAlbum(s, s.images[id])
                  && (r == Ok ==> p.visibility.None? && p.album.None?))
            && (s.images[id].visibility == Private && InPrivateAlbum(s, s.images[id])
                && t.images[id].visibility == Public ==>
                  r == Ok && p.album.Some? && t.images[id].album != s.images[id].album)
  {
    hide UpdateImage, Inv;
    UpdateEffect(s, user, id, p);
    if Accepted(s, user, id, p) {
      UpdateWrites(s, user, id, p);
    }
  }

  // ----- album-wide visibility -----

  /** Updates a list of images one after another, stopping at the first failure. */
  ghost function ConvertAll(s: State, user: UserId, ids: seq<ImageId>, v: Visibility): (State, Result)
  {
    if ids == [] then (s, Ok)
    else
      var (t, r) := ConvertAll(s, user, ids[..|ids| - 1], v);
      if r != Ok then (t, r) else UpdateImage(t, user, ids[|ids| - 1], Patch(Some(v), None))
  }

  /** The live images of the user in album a, as the query lists them. */
  ghost predicate ListsAlbum(order: seq<ImageId>, s: State, user: UserId, a: AlbumId)
  {
    forall i :: i in order <==>
      i in s.images && !s.images[i].trashed && s.images[i].album == Some(a) && s.images[i].user == Some(user)
  }

  ghost function SetImagesVisibility(s: State, user: UserId, a: AlbumId, v: Visibility, order: seq<ImageId>)
    : (State, Result)
  {
    if !OwnsAlbum(s, user, a) then (s, NotFound)
    else if s.albums[a].visibility == Private && v == Public then (s, AlbumForcesPrivate)
    else ConvertAll(s, user, order, v)
  }

  /** The album row first, then, when the album became private, all its live images. */
  ghost function UpdateAlbum(s: State, user: UserId, a: AlbumId, v: Visibility, order: seq<ImageId>): (State, Result)
  {
    if !OwnsAlbum(s, user, a) then (s, NotFound)
    else
      var t := s.(albums := s.albums[a := s.albums[a].(visibility := v)]);
      if v == Private then SetImagesVisibility(t, user, a, Private, order) else (t, Ok)
  }

  /** From s to t images changed visibility and file only, and only those in `touched`, all of them to v. */
  ghost predicate Converted(s: State, t: State, touched: set<ImageId>, v: Visibility)
  {
    && t.images.Keys == s.images.Keys && t.albums == s.albums && t.users == s.users
    && (forall i :: i in s.images && i in touched ==>
          t.images[i] == s.images[i].(visibility := v, file := t.images[i].file))
    && (forall i :: i in s.images && i !in touched ==> t.images[i] == s.images[i])
  }

  lemma ConvertedOneMore(s: State, t: State, touched: set<ImageId>, v: Visibility, u: State, id: ImageId)
    requires Converted(s, t, touched, v) && OnlyImage(t, u, id)
    requires u.images[id] == t.images[id].(visibility := v, file := u.images[id].file)
    ensures Converted(s, u, touched + {id}, v)
  {
  }

  /** Unless public meets a private album, converting a list succeeds and converts exactly the list. */
  lemma {:induction false} ConvertAllWorks(s: State, user: UserId, ids: seq<ImageId>, v: Visibility)
    requires Inv(s)
    requires forall i :: i in ids ==> i in s.images && !s.images[i].trashed && s.images[i].user == Some(user)
    requires v == Public ==> forall i :: i in ids ==> !InPrivateAlbum(s, s.images[i])
    ensures var (t, r) := ConvertAll(s, user, ids, v);
            && r == Ok && Inv(t) && (Agree(s) ==> Agree(t)) && Converted(s, t, Elements(ids), v)
  {
    hide Inv, Agree, UpdateImage;
    if ids != [] {
      var n := |ids| - 1;
      DropLastElement(ids);
      ConvertAllWorks(s, user, ids[..n], v);
      var t := ConvertAll(s, user, ids[..n], v).0;
      ConvertOne(s, t, user, ids[n], v, Elements(ids[..n]));
    }
  }

  lemma ConvertOne(s: State, t: State, user: UserId, id: ImageId, v: Visibility, touched: set<ImageId>)
    requires Inv(t) && Converted(s, t, touched, v)
    requires id in s.images && !s.images[id].trashed && s.images[id].user == Some(user)
    requires v == Public ==> !InPrivateAlbum(s, s.images[id])
    ensures var (u, r) := UpdateImage(t, user, id, Patch(Some(v), None));
            && r == Ok && Inv(u) && (Agree(t) ==> Agree(u)) && Converted(s, u, touched + {id}, v)
  {
    hide Inv, Agree, UpdateImage;
    var p := Patch(Some(v), None);
    assert id in t.images && t.images[id].album == s.images[id].album;
    assert Accepted(t, user, id, p);
    UpdateKeepsInv(t, user, id, p);
    UpdateEffect(t, user, id, p);
    ConvertedOneMore(s, t, touched, v, UpdateImage(t, user, id, p).0, id);
  }

  /** A change of an album row is no concern of files and objects. */
  lemma AlbumsKeepInv(s: State, albums: map<AlbumId, Album>)
    requires Inv(s)
    ensures Inv(s.(albums := albums))
  {
    var t := s.(albums := albums);
    assert forall f :: f in t.files ==> Backed(s, s.files[f]) && Backed(t, t.files[f]);
    SameTablesKeepInv(s, t);
  }

  lemma AlbumsKeepAgree(s: State, albums: map<AlbumId, Album>)
    requires Agree(s)
    ensures Agree(s.(albums := albums))
  {
    forall i | i in s.images
      ensures Agrees(s.(albums := albums), i)
    {
      assert Agrees(s, i);
    }
  }

  /**
    An album-wide change answers by owner and private album alone. When it succeeds, exactly the user's live images
    in the album get the visibility, with their content as it was; all other rows, albums and quotas stay.
   */
  lemma SetImagesVisibilityEffect(s: State, user: UserId, a: AlbumId, v: Visibility, order: seq<ImageId>)
    requires Inv(s) && ListsAlbum(order, s, user, a)
    ensures var (t, r) := SetImagesVisibility(s, user, a, v, order);
            && r == (if a !in s.albums || s.albums[a].owner != user then NotFound
                     else if s.albums[a].visibility == Private && v == Public then AlbumForcesPrivate
                     else Ok)
            && (r != Ok ==> t == s)
            && t.images.Keys == s.images.Keys && t.albums == s.albums && t.users == s.users
            && (r == Ok ==> forall i :: i in s.images ==>
                  if !s.images[i].trashed && s.images[i].album == Some(a) && s.images[i].user == Some(user)
                  then t.images[i] == s.images[i].(visibility := v, file := t.images[i].file)
                  else t.images[i] == s.images[i])
  {
    hide Inv, Agree, ConvertAll;
    if OwnsAlbum(s, user, a) && !(s.albums[a].visibility == Private && v == Public) {
      ConvertAllWorks(s, user, order, v);
    }
  }

  /**
    A change of an album's visibility by its owner writes that column of that row. Public touches nothing else at
    all; private makes exactly the owner's live images in the album private and leaves every other image as it was.
   */
  lemma UpdateAlbumEffect(s: State, user: UserId, a: AlbumId, v: Visibility, order: seq<ImageId>)
    requires Inv(s) && ListsAlbum(order, s, user, a)
    ensures var (t, r) := UpdateAlbum(s, user, a, v, order);
            && (r == Ok <==> a in s.albums && s.albums[a].owner == user)
            && (r != Ok ==> r == NotFound && t == s)
            && (r == Ok ==> t.albums == s.albums[a := Album(user, v)])
            && (v == Public ==>
                  && t.images == s.images && t.files == s.files && t.objects == s.objects && t.queue == s.queue
                  && t.users == s.users)
            && t.images.Keys == s.images.Keys && t.users == s.users
            && (r == Ok && v == Private ==> forall i :: i in s.images ==>
                  if !s.images[i].trashed && s.images[i].album == Some(a) && s.images[i].user == Some(user)
                  then t.images[i] == s.images[i].(visibility := Private, file := t.images[i].file)
                  else t.images[i] == s.images[i])
  {
    hide Inv, SetImagesVisibility;
    if OwnsAlbum(s, user, a) {
      var t := s.(albums := s.albums[a := s.albums[a].(visibility := v)]);
      AlbumsKeepInv(s, t.albums);
      SetImagesVisibilityEffect(t, user, a, Private, order);
    }
  }

  /** Making an album private makes every live image in it private, and all stays tidy. */
  lemma UpdateAlbumWorks(s: State, user: UserId, a: AlbumId, v: Visibility, order: seq<ImageId>)
    requires Tidy(s) && ListsAlbum(order, s, user, a) && OwnsAlbum(s, user, a)
    ensures var (t, r) := UpdateAlbum(s, user, a, v, order);
            && r == Ok && Tidy(t)
            && t.albums == s.albums[a := s.albums[a].(visibility := v)]
            && (forall i :: i in t.images && !t.images[i].trashed && t.images[i].album == Some(a) && v == Private
                  ==> t.images[i].visibility == Private)
  {
    hide Inv;
    var t := s.(albums := s.albums[a := s.albums[a].(visibility := v)]);
    AlbumsKeepInv(s, t.albums);
    AlbumsKeepAgree(s, t.albums);
    if v == Private {
      ConvertAllWorks(t, user, order, Private);
      AlbumTurnedPrivate(s, user, a, order, ConvertAll(t, user, order, Private).0);
    } else {
      forall i | i in t.images
        ensures PrivateIfHidden(t, t.images[i])
      {
        assert PrivateIfHidden(s, s.images[i]);
      }
    }
  }

  lemma AlbumTurnedPrivate(s: State, user: UserId, a: AlbumId, order: seq<ImageId>, u: State)
    requires AlbumsLinked(s) && PrivateInside(s) && ListsAlbum(order, s, user, a) && OwnsAlbum(s, user, a)
    requires Converted(s.(albums := s.albums[a := s.albums[a].(visibility := Private)]), u, Elements(order), Private)
    ensures AlbumsLinked(u) && PrivateInside(u)
    ensures forall i :: i in u.images && !u.images[i].trashed && u.images[i].album == Some(a)
                        ==> u.images[i].visibility == Private
  {
    forall i | i in u.images
      ensures PrivateIfHidden(u, u.images[i])
      ensures !u.images[i].trashed && u.images[i].album == Some(a) ==> u.images[i].visibility == Private
    {
      assert PrivateIfHidden(s, s.images[i]);
      assert i in Elements(order) <==> i in order;
    }
  }

  lemma SetImagesVisibilityKeepsTidy(s: State, user: UserId, a: AlbumId, v: Visibility, order: seq<ImageId>)
    requires Tidy(s) && ListsAlbum(order, s, user, a)
    ensures Tidy(SetImagesVisibility(s, user, a, v, order).0)
    ensures SetImagesVisibility(s, user, a, v, order).1 == Ok
            <==> OwnsAlbum(s, user, a) && !(s.albums[a].visibility == Private && v == Public)
  {
    if OwnsAlbum(s, user, a) && !(s.albums[a].visibility == Private && v == Public) {
      ConvertAllWorks(s, user, order, v);
      ConvertedKeepsAlbums(s, ConvertAll(s, user, order, v).0, Elements(order), v);
    }
  }

  lemma ConvertedKeepsAlbums(s: State, t: State, touched: set<ImageId>, v: Visibility)
    requires AlbumsLinked(s) && PrivateInside(s) && Converted(s, t, touched, v)
    requires v == Public ==> forall i :: i in touched && i in s.images ==> !InPrivateAlbum(s, s.images[i])
    ensures AlbumsLinked(t) && PrivateInside(t)
  {
    forall i | i in t.images
      ensures PrivateIfHidden(t, t.images[i])
    {
      assert PrivateIfHidden(s, s.images[i]);
    }
  }
}
