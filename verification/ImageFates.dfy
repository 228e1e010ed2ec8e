/**
  What becomes of one image while everything else goes on: which steps remove it, which columns they write,
  and that the bytes behind it never change.
 */
module ImageFates {
  import opened Prelude
  import opened StoreState
  import opened Purge
  import opened Rehome
  import opened Accounts
  import opened StoreRuns
  import opened StoreSafety

  /** The stored original behind an image. */
  function Bytes(db: State, id: ImageId): Option<Content>
  {
    if id in db.images && db.images[id].file in db.files && db.files[db.images[id].file].path in db.objects
    then Some(db.objects[db.files[db.images[id].file].path]) else None
  }

  /** In a consistent store every image has its bytes, those its file row was made for. */
  lemma BytesAreHash(db: State, id: ImageId)
    requires Inv(db) && id in db.images
    ensures db.images[id].file in db.files && Bytes(db, id) == Some(db.files[db.images[id].file].hash)
  {
    hide RefsExact, QuotasExact, PathsDistinct, HashSurfaceUnique;
    assert Backed(db, db.files[db.images[id].file]);
  }

  // ----- file rows never change what they stand for -----

  ghost predicate RowsTrue(s: State, t: State)
  {
    forall f :: f in s.files && f in t.files ==> t.files[f].hash == s.files[f].hash
  }

  lemma AgainKeepsRows(s: State, owner: Option<UserId>, f: FileId, album: Option<AlbumId>, quota: int)
    requires CountersAhead(s)
    ensures var t := UploadAgain(s, owner, f, album, quota);
            && t.files.Keys == s.files.Keys && RowsTrue(s, t)
            && forall id :: id in s.images ==> id in t.images && t.images[id] == s.images[id]
  {
    hide Chargeable, Charge;
  }

  lemma NewKeepsRows(s: State, owner: Option<UserId>, content: Content, surface: Visibility, album: Option<AlbumId>,
                     quota: int)
    requires CountersAhead(s)
    ensures var t := UploadNew(s, owner, content, surface, album, quota).0;
            && RowsTrue(s, t)
            && forall id :: id in s.images ==> id in t.images && t.images[id] == s.images[id]
  {
    hide FindFile, UploadAgain;
    var (stored, path) := PutObject(s, surface, content);
    var (created, f) := CreateRow(stored, File(content, On(surface), path, |content|, 0), surface, path);
    AgainKeepsRows(created, owner, f, album, quota);
  }

  lemma AccountKeepsRows(s: System, u: UserId, order: seq<ImageId>)
    requires Inv(s.db)
    ensures RowsTrue(s.db, ApplyRemoveAccount(s, u, order).db)
  {
    hide Inv, DeleteUser;
    if Lists(order, s.db, u) {
      DeleteUserIsExact(s.db, u, order);
    }
  }

  lemma CreateKeepsRows(s: System, c: CallId, ok: bool, undone: bool)
    requires CountersAhead(s.db)
    ensures var t := ApplyCreate(s, c, ok, undone).db;
            RowsTrue(s.db, t) && t.images == s.db.images
  {
    hide FindFile;
  }

  /** Steps of requests before the row is created, deletion tasks, sign-ups and crashes. */
  predicate OffTables(e: Event)
  {
    || e.SignUp? || e.Enqueue? || e.RunDeletion? || e.BeginUpdate? || e.BeginRepair? || e.LoadRow? || e.Lookup?
    || e.CopyOver? || e.Crash?
  }

  lemma RequestsKeepTables(s: System, e: Event)
    requires e.BeginUpdate? || e.BeginRepair? || e.LoadRow? || e.Lookup?
    ensures Apply(s, e).db == s.db
  {
    hide ApplyUpload, ApplyRemoveAccount, ApplyCreate, ApplyCommit, ApplyWrite, ApplyPurge, UploadAgain, ApplyCopy;
    match e
    case LoadRow(_) =>
    case Lookup(_) =>
    case _ =>
  }

  lemma CopyKeepsTables(s: System, c: CallId, thumbnail: bool, undone: bool)
    ensures var t := ApplyCopy(s, c, thumbnail, undone).db;
            t.files == s.db.files && t.images == s.db.images
  {
  }

  lemma OffTablesKeep(s: System, e: Event)
    requires OffTables(e)
    ensures Apply(s, e).db.files == s.db.files && Apply(s, e).db.images == s.db.images
  {
    hide ApplyUpload, ApplyRemoveAccount, ApplyCreate, ApplyCommit, ApplyWrite, ApplyPurge, UploadAgain, ApplyCopy,
      ApplyBegin, ApplyLoadRow, ApplyLookup;
    match e
    case SignUp(_) =>
    case Enqueue(_, _) =>
    case RunDeletion(_, _, _) =>
    case CopyOver(c, thumbnail, undone) => CopyKeepsTables(s, c, thumbnail, undone);
    case Crash =>
    case _ => RequestsKeepTables(s, e);
  }

  /** Steps that leave the file table alone. */
  lemma ColumnsKeepRows(s: System, e: Event)
    requires e.Write? || e.Trash? || e.RestoreImage?
    ensures Apply(s, e).db.files == s.db.files
  {
    hide ApplyUpload, ApplyRemoveAccount, ApplyCreate, ApplyCommit, ApplyPurge, UploadAgain, ApplyCopy, ApplyBegin,
      ApplyLoadRow, ApplyLookup;
    match e
    case Write(_) =>
    case _ =>
  }

  lemma CommitKeepsRows(s: System, c: CallId)
    ensures RowsTrue(s.db, ApplyCommit(s, c).db)
  {
  }

  lemma PurgeKeepsRows(s: System, id: ImageId, live: bool)
    ensures RowsTrue(s.db, ApplyPurge(s, id, live).db)
  {
    hide RefundOwner;
  }

  lemma StepKeepsRows(s: System, e: Event)
    requires SystemInv(s)
    ensures RowsTrue(s.db, Apply(s, e).db)
  {
    hide CallsOk, HoldersDistinct, UnsentOk, NothingLeaks, RefsExact, QuotasExact, PathsDistinct, HashSurfaceUnique,
      FilesBacked, UploadNew, UploadAgain, ApplyRemoveAccount, ApplyCreate, ApplyCommit, ApplyPurge, ApplyWrite,
      SetTrashed;
    if OffTables(e) {
      OffTablesKeep(s, e);
    } else {
      match e
      case Upload(o, content, surface, album, quota) => NewKeepsRows(s.db, o, content, surface, album, quota);
      case Reupload(o, f, album, quota) => AgainKeepsRows(s.db, o, f, album, quota);
      case RemoveAccount(u, order) => AccountKeepsRows(s, u, order);
      case Create(c, ok, undone) => CreateKeepsRows(s, c, ok, undone);
      case CommitMove(c) => CommitKeepsRows(s, c);
      case PurgeTrashed(id) => PurgeKeepsRows(s, id, false);
      case PurgeLive(id) => PurgeKeepsRows(s, id, true);
      case _ => ColumnsKeepRows(s, e);
    }
  }

  // ----- one step, one image -----

  /** The step removes the image. */
  ghost predicate Removes(s: System, e: Event, id: ImageId)
    requires id in s.db.images
  {
    match e
    case PurgeTrashed(i) => i == id && s.db.images[id].trashed
    case PurgeLive(i) => i == id && !s.db.images[id].trashed
    case RemoveAccount(u, order) => s.db.images[id].user == Some(u) && Lists(order, s.db, u)
    case _ => false
  }

  /** The columns that the step writes to the image's row: a due plain write, or a move that meets its row. */
  ghost function Written(s: System, e: Event, id: ImageId): Updates
    requires id in s.db.images
  {
    match e
    case Write(c) =>
      if c in s.calls && s.calls[c].Plain? && s.calls[c].image == id && !s.db.images[id].trashed
      then s.calls[c].updates else NOTHING
    case CommitMove(c) =>
      if c in s.calls && s.calls[c].Resolved? && s.calls[c].job.image == id && s.calls[c].file in s.db.files
         && !s.db.images[id].trashed && s.db.images[id].file == s.calls[c].job.from
      then s.calls[c].job.updates else NOTHING
    case _ => NOTHING
  }

  /** An image's row after a step that leaves it, its file aside. */
  ghost predicate RowAfter(s: System, e: Event, id: ImageId, row: Image)
    requires id in s.db.images
  {
    var was, u := s.db.images[id], Written(s, e, id);
    && row.user == was.user
    && row.visibility == (if u.visibility.Some? then u.visibility.value else was.visibility)
    && row.album == (if u.album.Some? then u.album.value else was.album)
    && row.trashed == (if e == Trash(id) then true else if e == RestoreImage(id) then false else was.trashed)
    && (!e.CommitMove? ==> row.file == was.file)
  }

  lemma CommitWrites(s: System, c: CallId, id: ImageId)
    requires id in s.db.images
    ensures id in ApplyCommit(s, c).db.images && RowAfter(s, CommitMove(c), id, ApplyCommit(s, c).db.images[id])
  {
    hide DropRef, AddRef;
  }

  /** A move that meets its row takes the image to a file of the same content. */
  lemma CommitOnImage(s: System, c: CallId, id: ImageId)
    requires SystemInv(s) && id in s.db.images
    ensures var t := ApplyCommit(s, c).db;
            && id in t.images && RowAfter(s, CommitMove(c), id, t.images[id])
            && (t.images[id].file != s.db.images[id].file ==>
                  && t.images[id].file in s.db.files && s.db.images[id].file in s.db.files
                  && s.db.files[t.images[id].file].hash == s.db.files[s.db.images[id].file].hash)
  {
    hide RefsExact, QuotasExact, PathsDistinct, HashSurfaceUnique, FilesBacked, HoldersDistinct, UnsentOk, NothingLeaks,
      DropRef, AddRef, RowAfter;
    CommitWrites(s, c, id);
    if c in s.calls && s.calls[c].Resolved? {
      assert CallOk(s.db, s.calls[c]);
    }
  }

  lemma AccountOnImage(s: System, u: UserId, order: seq<ImageId>, id: ImageId)
    requires Inv(s.db) && id in s.db.images
    ensures var t := ApplyRemoveAccount(s, u, order).db;
            && (id in t.images <==> !(s.db.images[id].user == Some(u) && Lists(order, s.db, u)))
            && (id in t.images ==> t.images[id] == s.db.images[id])
  {
    hide Inv, DeleteUser, Lists;
    if Lists(order, s.db, u) {
      DeleteUserIsExact(s.db, u, order);
    }
  }

  lemma PurgeOnImage(s: System, purged: ImageId, live: bool, id: ImageId)
    requires FilesPresent(s.db) && id in s.db.images
    ensures var t := ApplyPurge(s, purged, live).db;
            && (id in t.images <==> !(purged == id && s.db.images[id].trashed != live))
            && (id in t.images ==> t.images[id] == s.db.images[id])
  {
  }

  lemma WriteOnImage(s: System, c: CallId, id: ImageId)
    requires id in s.db.images
    ensures var t := ApplyWrite(s, c).db;
            id in t.images && RowAfter(s, Write(c), id, t.images[id])
  {
    hide Drop;
  }

  lemma NoneWritten(s: System, e: Event, id: ImageId)
    requires id in s.db.images && !e.Write? && !e.CommitMove?
    ensures Written(s, e, id) == Updates(None, None)
  {
  }

  lemma TrashOnImage(s: System, other: ImageId, trashed: bool, id: ImageId)
    requires id in s.db.images
    ensures var t := SetTrashed(s.db, other, trashed);
            && id in t.images
            && RowAfter(s, if trashed then Trash(other) else RestoreImage(other), id, t.images[id])
  {
    hide Written;
    NoneWritten(s, if trashed then Trash(other) else RestoreImage(other), id);
  }

  lemma UntouchedRow(s: System, e: Event, id: ImageId)
    requires id in s.db.images && !e.Write? && !e.CommitMove? && !e.Trash? && !e.RestoreImage?
    ensures RowAfter(s, e, id, s.db.images[id])
  {
  }

  /**
    A step removes an image exactly when it purges it or closes its owner's account; otherwise its owner stays, and
    the step writes the columns it is meant to write and no others.
   */
  lemma StepOnImage(s: System, e: Event, id: ImageId)
    requires SystemInv(s) && id in s.db.images
    ensures var t := Apply(s, e).db;
            && (id in t.images <==> !Removes(s, e, id))
            && (id in t.images ==> RowAfter(s, e, id, t.images[id]))
  {
    hide CallsOk, HoldersDistinct, UnsentOk, NothingLeaks, RefsExact, QuotasExact, PathsDistinct, HashSurfaceUnique,
      FilesBacked, UploadNew, UploadAgain, ApplyRemoveAccount, ApplyCreate, ApplyCommit, ApplyPurge, ApplyWrite,
      SetTrashed, Lists, RowAfter, Removes, SystemInv;
    if OffTables(e) {
      OffTablesKeep(s, e);
      UntouchedRow(s, e, id);
      StaysIn(s, e, id);
    } else if e.CommitMove? || e.Write? || e.Trash? || e.RestoreImage? {
      StaysIn(s, e, id);
      match e
      case CommitMove(c) => CommitOnImage(s, c, id);
      case Write(c) => WriteOnImage(s, c, id);
      case Trash(i) => TrashOnImage(s, i, true, id);
      case RestoreImage(i) => TrashOnImage(s, i, false, id);
    } else {
      UntouchedRow(s, e, id);
      RowsComeOrGo(s, e, id);
    }
  }

  lemma StaysIn(s: System, e: Event, id: ImageId)
    requires id in s.db.images && !e.PurgeTrashed? && !e.PurgeLive? && !e.RemoveAccount?
    ensures !Removes(s, e, id)
  {
  }

  /** Steps that add or remove rows leave the others as they are. */
  lemma RowsComeOrGo(s: System, e: Event, id: ImageId)
    requires SystemInv(s) && id in s.db.images && !OffTables(e)
    requires !e.CommitMove? && !e.Write? && !e.Trash? && !e.RestoreImage?
    ensures var t := Apply(s, e).db;
            && (id in t.images <==> !Removes(s, e, id))
            && (id in t.images ==> t.images[id] == s.db.images[id])
  {
    hide CallsOk, HoldersDistinct, UnsentOk, NothingLeaks, RefsExact, QuotasExact, PathsDistinct, HashSurfaceUnique,
      FilesBacked, UploadNew, UploadAgain, ApplyRemoveAccount, ApplyCreate, ApplyPurge, Lists;
    match e
    case Upload(o, content, surface, album, quota) => NewKeepsRows(s.db, o, content, surface, album, quota);
    case Reupload(o, f, album, quota) => AgainKeepsRows(s.db, o, f, album, quota);
    case RemoveAccount(u, order) => AccountOnImage(s, u, order, id);
    case Create(c, ok, undone) => CreateKeepsRows(s, c, ok, undone);
    case PurgeTrashed(i) => PurgeOnImage(s, i, false, id);
    case PurgeLive(i) => PurgeOnImage(s, i, true, id);
  }

  /** No step changes the bytes behind an image that it leaves. */
  lemma StepKeepsBytes(s: System, e: Event, id: ImageId)
    requires SystemInv(s) && id in s.db.images && id in Apply(s, e).db.images
    ensures Bytes(s.db, id).Some? && Bytes(Apply(s, e).db, id) == Bytes(s.db, id)
  {
    hide Inv, CallsOk, HoldersDistinct, UnsentOk, NothingLeaks, Apply, ApplyCommit, Bytes;
    var t := Apply(s, e);
    EventKeepsSystem(s, e);
    BytesAreHash(s.db, id);
    BytesAreHash(t.db, id);
    StepKeepsRows(s, e);
    StepOnImage(s, e, id);
    if e.CommitMove? {
      CommitOnImage(s, e.call, id);
      CommitIsApplied(s, e.call);
    }
  }

  lemma CommitIsApplied(s: System, c: CallId)
    ensures Apply(s, CommitMove(c)) == ApplyCommit(s, c)
  {
  }

  // ----- uploads -----

  /** Room for the bytes: a guest's always, a user's if the row is there and a positive quota leaves them. */
  predicate Room(db: State, owner: Option<UserId>, content: Content, quota: int)
  {
    || owner.None?
    || (owner.value in db.users && (quota <= 0 || db.users[owner.value] + |content| <= quota))
  }

  lemma AgainAdds(s: State, owner: Option<UserId>, f: FileId, album: Option<AlbumId>, quota: int)
    requires CountersAhead(s)
    ensures var t := UploadAgain(s, owner, f, album, quota);
            var added := f in s.files && s.files[f].surface.On? && Room(s, owner, s.files[f].hash, quota);
            && t.images == (if added then s.images[s.nextImage := Image(owner, f, album, s.files[f].surface.visibility,
                                                                        false)] else s.images)
            && (added ==> f in t.files && t.files[f].hash == s.files[f].hash)
            && (!added ==> t == s)
  {
  }

  lemma NewAdds(s: State, owner: Option<UserId>, content: Content, surface: Visibility, album: Option<AlbumId>,
                quota: int)
    requires CountersAhead(s)
    ensures var t := UploadNew(s, owner, content, surface, album, quota).0;
            var added := (forall f :: f in s.files ==>
                            !(s.files[f].hash == content && s.files[f].surface == On(surface)))
                         && Room(s, owner, content, quota);
            && t.images == (if added then s.images[s.nextImage := Image(owner, s.nextFile, album, surface, false)]
                            else s.images)
            && (added ==> s.nextFile in t.files && t.files[s.nextFile].hash == content)
            && (!added ==> t.files == s.files && t.users == s.users)
  {
    hide UploadAgain, FindFile;
    var (stored, path) := PutObject(s, surface, content);
    var (created, f) := CreateRow(stored, File(content, On(surface), path, |content|, 0), surface, path);
    AgainAdds(created, owner, f, album, quota);
    assert created.users == s.users && created.images == s.images;
    assert FindFile(s, content, surface).None? <==>
           forall g :: g in s.files ==> !(s.files[g].hash == content && s.files[g].surface == On(surface));
  }

  /** Only an upload adds an image, one at a time, and it shows the bytes that were sent. */
  lemma StepAddsImage(s: System, e: Event, id: ImageId)
    requires SystemInv(s) && id !in s.db.images && id in Apply(s, e).db.images
    ensures e.Upload? || e.Reupload?
    ensures id == s.db.nextImage
    ensures var t := Apply(s, e).db;
            && Bytes(t, id) == Some(if e.Upload? then e.content
                                    else if e.file in s.db.files then s.db.files[e.file].hash else [])
            && t.images[id].user == e.owner && t.images[id].album == e.album && !t.images[id].trashed
            && t.images[id].visibility == if e.Upload? then e.surface
                                          else if e.file in s.db.files then FileSurface(s.db.files[e.file]) else Public
  {
    hide CallsOk, HoldersDistinct, UnsentOk, NothingLeaks, RefsExact, QuotasExact, PathsDistinct, HashSurfaceUnique,
      FilesBacked, UploadNew, UploadAgain, ApplyRemoveAccount, ApplyCreate, ApplyCommit, ApplyPurge, ApplyWrite,
      SetTrashed, Lists, Bytes;
    EventKeepsSystem(s, e);
    BytesAreHash(Apply(s, e).db, id);
    match e
    case Upload(o, content, surface, album, quota) => NewAdds(s.db, o, content, surface, album, quota);
    case Reupload(o, f, album, quota) => AgainAdds(s.db, o, f, album, quota);
    case _ => NothingAdded(s, e);
  }

  lemma NothingAdded(s: System, e: Event)
    requires SystemInv(s) && !e.Upload? && !e.Reupload?
    ensures Apply(s, e).db.images.Keys <= s.db.images.Keys
  {
    hide CallsOk, HoldersDistinct, UnsentOk, NothingLeaks, RefsExact, QuotasExact, PathsDistinct, HashSurfaceUnique,
      FilesBacked, UploadNew, UploadAgain, ApplyRemoveAccount, ApplyCreate, Lists;
    if OffTables(e) {
      OffTablesKeep(s, e);
    } else {
      match e
      case RemoveAccount(u, order) => AccountShrinks(s, u, order);
      case Create(c, ok, undone) => CreateKeepsRows(s, c, ok, undone);
      case CommitMove(_) =>
      case PurgeTrashed(_) =>
      case PurgeLive(_) =>
      case _ =>
    }
  }

  lemma AccountShrinks(s: System, u: UserId, order: seq<ImageId>)
    requires Inv(s.db)
    ensures ApplyRemoveAccount(s, u, order).db.images.Keys <= s.db.images.Keys
  {
    hide Inv, DeleteUser;
    if Lists(order, s.db, u) {
      DeleteUserIsExact(s.db, u, order);
    }
  }

  // ----- whole runs -----

  /** The event is about removing this image, or this owner's account. */
  predicate Threatens(e: Event, id: ImageId, owner: Option<UserId>)
  {
    e == PurgeTrashed(id) || e == PurgeLive(id) || (e.RemoveAccount? && owner == Some(e.user))
  }

  /**
    Whatever interleaves, an image that nobody purges and whose owner's account nobody removes is still there at the
    end, with its owner, and with the bytes it had.
   */
  lemma {:induction false} ImageSurvives(s: System, events: seq<Event>, id: ImageId)
    requires SystemInv(s) && id in s.db.images
    requires forall i :: 0 <= i < |events| ==> !Threatens(events[i], id, s.db.images[id].user)
    ensures var t := Run(s, events).db;
            && id in t.images && t.images[id].user == s.db.images[id].user
            && Bytes(s.db, id).Some? && Bytes(t, id) == Bytes(s.db, id)
  {
    hide SystemInv, Apply, Bytes;
    if events == [] {
      assert Bytes(s.db, id).Some? by { SystemHasBytes(s, id); }
    } else {
      var n := |events| - 1;
      ImageSurvives(s, events[..n], id);
      RunsKeepSystem(s, events[..n]);
      StepOnImage(Run(s, events[..n]), events[n], id);
      StepKeepsBytes(Run(s, events[..n]), events[n], id);
    }
  }

  lemma SystemHasBytes(s: System, id: ImageId)
    requires SystemInv(s) && id in s.db.images
    ensures Bytes(s.db, id).Some?
  {
    BytesAreHash(s.db, id);
  }
}
