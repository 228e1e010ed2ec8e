/**
  Visibility against surface under interleaving: an image's visibility should equal the surface of its
  file. Moves write both at once; a plain column write trusts an earlier look at the file.
 */
module Agreement {
  import opened Prelude
  import opened StoreState
  import opened Purge
  import opened Rehome
  import opened Accounts
  import opened StoreRuns
  import opened StoreSafety

  predicate Agrees(s: State, id: ImageId)
    requires id in s.images
  {
    s.images[id].file in s.files && s.images[id].visibility == FileSurface(s.files[s.images[id].file])
  }

  /** Every image, live or trashed, has the visibility of its file's surface. */
  ghost predicate Agree(s: State)
  {
    forall id :: id in s.images ==> Agrees(s, id)
  }

  /** The event is a plain write whose look at the file is out of date, or a repair overtaken by an update. */
  ghost predicate Raced(s: System, e: Event)
  {
    match e
    case Write(c) =>
      && c in s.calls && s.calls[c].Plain? && s.calls[c].updates.visibility.Some?
      && StaleLook(s.db, s.calls[c].image, s.calls[c].updates.visibility.value)
    case CommitMove(c) =>
      && c in s.calls && s.calls[c].Resolved?
      && var job := s.calls[c].job;
         WillMove(s.db, job.image, job.from, s.calls[c].file)
         && job.updates.visibility.None? && s.db.images[job.image].visibility != job.target
    case _ => false
  }

  /** The live image now sits on a file whose surface is not v. */
  predicate StaleLook(s: State, id: ImageId, v: Visibility)
  {
    && id in s.images && !s.images[id].trashed
    && (s.images[id].file in s.files ==> FileSurface(s.files[s.images[id].file]) != v)
  }

  /** Images keep file and visibility or go, files keep their surface or go. */
  ghost predicate SameFaces(s: State, t: State)
  {
    && (forall i :: i in t.images ==>
          i in s.images && t.images[i].file == s.images[i].file && t.images[i].visibility == s.images[i].visibility)
    && (forall f :: f in t.files && f in s.files ==> t.files[f].surface == s.files[f].surface)
  }

  lemma SameFacesKeepAgree(s: State, t: State)
    requires Agree(s) && FilesPresent(t) && SameFaces(s, t)
    ensures Agree(t)
  {
    forall id | id in t.images
      ensures Agrees(t, id)
    {
      assert Agrees(s, id);
    }
  }

  lemma UploadAgainKeepsAgree(s: State, owner: Option<UserId>, f: FileId, album: Option<AlbumId>, quota: int)
    requires Agree(s)
    ensures Agree(UploadAgain(s, owner, f, album, quota))
  {
    var t := UploadAgain(s, owner, f, album, quota);
    forall id | id in t.images
      ensures Agrees(t, id)
    {
      if id in s.images {
        assert Agrees(s, id);
      }
    }
  }

  lemma UploadNewKeepsAgree(s: State, owner: Option<UserId>, content: Content, surface: Visibility,
                            album: Option<AlbumId>, quota: int)
    requires Agree(s) && CountersAhead(s)
    ensures Agree(UploadNew(s, owner, content, surface, album, quota).0)
  {
    hide FindFile, UploadAgain;
    var (stored, path) := PutObject(s, surface, content);
    var (t, f) := CreateRow(stored, File(content, On(surface), path, |content|, 0), surface, path);
    forall id | id in s.images
      ensures Agrees(t, id) && Agrees(stored, id)
    {
      assert Agrees(s, id);
    }
    UploadAgainKeepsAgree(t, owner, f, album, quota);
  }

  /** A column write keeps agreement exactly when it writes no visibility or the file's own surface. */
  lemma WriteKeepsAgreeIff(s: State, id: ImageId, u: Updates)
    requires Agree(s)
    ensures Agree(WriteColumns(s, id, u)) <==> !(u.visibility.Some? && StaleLook(s, id, u.visibility.value))
  {
    var t := WriteColumns(s, id, u);
    forall i | i in t.images
      ensures Agrees(t, i) <==> !(i == id && u.visibility.Some? && StaleLook(s, id, u.visibility.value))
    {
      assert Agrees(s, i);
    }
    assert id in s.images ==> id in t.images && (Agree(t) ==> Agrees(t, id));
  }

  /** A move keeps agreement exactly when the image ends up with the visibility of the target surface. */
  lemma CommitKeepsAgreeIff(s: State, id: ImageId, from: FileId, target: FileId, u: Updates, surface: Visibility)
    requires Inv(s) && Agree(s)
    requires target in s.files ==> s.files[target].surface == On(surface)
    requires from in s.files && target in s.files ==> s.files[from].hash == s.files[target].hash
    ensures Agree(Commit(s, id, from, target, u).0)
            <==> (WillMove(s, id, from, target) ==> Updated(s.images[id], u).visibility == surface)
  {
    hide FilesBacked, QuotasExact, PathsDistinct, HashSurfaceUnique, RefsExact, CountersAhead;
    var t := Commit(s, id, from, target, u).0;
    CommitKeepsInv(s, id, from, target, u);
    if WillMove(s, id, from, target) {
      forall i | i in t.images
        ensures Agrees(t, i) <==> (i == id ==> Updated(s.images[id], u).visibility == surface)
      {
        assert Agrees(s, i) && t.images[i].file in t.files;
      }
      assert id in t.images && (Agree(t) ==> Agrees(t, id));
    }
  }

  lemma CommitStep(s: System, c: CallId)
    requires SystemInv(s) && Agree(s.db)
    ensures Agree(ApplyCommit(s, c).db) <==> !Raced(s, CommitMove(c))
  {
    hide Agree, Inv;
    if c in s.calls && s.calls[c].Resolved? {
      assert CallOk(s.db, s.calls[c]);
      var job := s.calls[c].job;
      CommitKeepsAgreeIff(s.db, job.image, job.from, s.calls[c].file, job.updates, job.target);
    }
  }

  lemma CreateStep(s: System, c: CallId, ok: bool, undone: bool)
    requires SystemInv(s) && Agree(s.db)
    ensures Agree(ApplyCreate(s, c, ok, undone).db)
  {
    hide NothingLeaks, HoldersDistinct, UnsentOk, FilesBacked, QuotasExact, PathsDistinct, Agree, Agrees, FindFile,
      FilesPresent, RefsExact;
    CreateKeepsSystem(s, c, ok, undone);
    SameFacesKeepAgree(s.db, ApplyCreate(s, c, ok, undone).db);
  }

  lemma PurgeStep(s: System, id: ImageId, live: bool)
    requires SystemInv(s) && Agree(s.db)
    ensures Agree(ApplyPurge(s, id, live).db)
  {
    if id in s.db.images && s.db.images[id].trashed != live {
      PurgeStepDrops(s.db, id);
      var ready := SetTrashed(s.db, id, true);
      SameFacesKeepAgree(s.db, PurgeOne(ready, id, ready.images[id]).0);
    }
  }

  lemma AccountStep(s: System, u: UserId, order: seq<ImageId>)
    requires SystemInv(s) && Agree(s.db)
    ensures Agree(ApplyRemoveAccount(s, u, order).db)
  {
    if Lists(order, s.db, u) {
      DeleteUserKeepsInv(s.db, u, order);
      DeleteUserIsExact(s.db, u, order);
      SameFacesKeepAgree(s.db, WithoutUser(s.db, u));
    }
  }

  lemma WriteStep(s: System, c: CallId)
    requires SystemInv(s) && Agree(s.db)
    ensures Agree(ApplyWrite(s, c).db) <==> !Raced(s, Write(c))
  {
    hide SystemInv;
    if c in s.calls && s.calls[c].Plain? {
      WriteKeepsAgreeIff(s.db, s.calls[c].image, s.calls[c].updates);
    }
  }

  /** Steps that leave files and the faces of images alone. */
  predicate Quiet(e: Event)
  {
    || e.SignUp? || e.Trash? || e.RestoreImage? || e.Enqueue? || e.RunDeletion? || e.BeginUpdate? || e.BeginRepair?
    || e.LoadRow? || e.Lookup? || e.CopyOver? || e.Crash?
  }

  /** Requests only look before they copy, and a copy changes no table. */
  lemma LooksKeepTables(s: System, e: Event)
    requires e.BeginUpdate? || e.BeginRepair? || e.LoadRow? || e.Lookup? || e.CopyOver?
    ensures Apply(s, e).db.files == s.db.files && Apply(s, e).db.images == s.db.images
  {
    hide ApplyUpload, ApplyRemoveAccount, ApplyCreate, ApplyCommit, ApplyWrite, ApplyPurge, UploadAgain, ApplyCopy;
    match e
    case CopyOver(c, thumbnail, undone) => CopyKeepsTables(s, c, thumbnail, undone);
    case LoadRow(_) =>
    case Lookup(_) =>
    case _ =>
  }

  lemma CopyKeepsTables(s: System, c: CallId, thumbnail: bool, undone: bool)
    ensures var t := ApplyCopy(s, c, thumbnail, undone);
            t.db.files == s.db.files && t.db.images == s.db.images
  {
  }

  lemma QuietKeepsFiles(s: System, e: Event)
    requires Quiet(e)
    ensures Apply(s, e).db.files == s.db.files
    ensures !e.Trash? && !e.RestoreImage? ==> Apply(s, e).db.images == s.db.images
  {
    hide ApplyUpload, ApplyRemoveAccount, ApplyCreate, ApplyCommit, ApplyWrite, ApplyPurge, UploadAgain, ApplyCopy,
      ApplyBegin, ApplyLoadRow, ApplyLookup;
    match e
    case SignUp(_) =>
    case Enqueue(_, _) =>
    case RunDeletion(_, _, _) =>
    case Trash(_) =>
    case RestoreImage(_) =>
    case Crash =>
    case _ => LooksKeepTables(s, e);
  }

  lemma QuietStep(s: System, e: Event)
    requires Quiet(e) && FilesPresent(s.db) && Agree(s.db)
    ensures Agree(Apply(s, e).db)
  {
    QuietKeepsFiles(s, e);
    if e.Trash? {
      SameFacesKeepAgree(s.db, SetTrashed(s.db, e.image, true));
    } else if e.RestoreImage? {
      SameFacesKeepAgree(s.db, SetTrashed(s.db, e.image, false));
    } else {
      SameFacesKeepAgree(s.db, Apply(s, e).db);
    }
  }

  /** From a state where all agree, the next state does too, unless and only unless the event is raced. */
  lemma AgreementStep(s: System, e: Event)
    requires SystemInv(s) && Agree(s.db)
    ensures Agree(Apply(s, e).db) <==> !Raced(s, e)
  {
    if Quiet(e) {
      QuietStep(s, e);
    } else {
      match e
      case Upload(o, content, surface, album, quota) => UploadNewKeepsAgree(s.db, o, content, surface, album, quota);
      case Reupload(o, f, album, quota) => UploadAgainKeepsAgree(s.db, o, f, album, quota);
      case PurgeTrashed(id) => PurgeStep(s, id, false);
      case PurgeLive(id) => PurgeStep(s, id, true);
      case RemoveAccount(u, order) => AccountStep(s, u, order);
      case Write(c) => WriteStep(s, c);
      case Create(c, ok, undone) => CreateStep(s, c, ok, undone);
      case CommitMove(c) => CommitStep(s, c);
    }
  }
}
