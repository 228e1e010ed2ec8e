/** Every event keeps the global invariant of the image store, so every run does. */
module StoreSafety {
  import opened Prelude
  import opened StoreState
  import opened Purge
  import opened Rehome
  import opened Accounts
  import opened StoreRuns

  // ----- database steps that only remove rows or change counts -----

  /** From s to t rows may go, and `freed` are the originals of the rows that went. */
  ghost predicate Drops(s: State, t: State, freed: set<Path>)
  {
    && t.objects == s.objects && t.queue == s.queue
    && t.nextFile == s.nextFile && t.nextName == s.nextName
    && (forall f :: f in t.files ==> f in s.files && SameRow(t.files[f], s.files[f]))
    && (forall f :: f in s.files && f !in t.files ==> s.files[f].path in freed)
    && (forall x :: x in freed ==> Gone(s, t, x))
  }

  predicate Gone(s: State, t: State, path: Path)
  {
    exists f :: f in s.files && f !in t.files && s.files[f].path == path
  }

  lemma DropsKeepsUnclaimed(s: State, t: State, freed: set<Path>, path: Path)
    requires Drops(s, t, freed)
    ensures Unclaimed(s, path) ==> Unclaimed(t, path)
    ensures Unclaimed(t, path) ==> Unclaimed(s, path) || path in freed
    ensures PathsDistinct(s) && path in freed ==> Unclaimed(t, path) && !Unclaimed(s, path)
  {
  }

  lemma DropsKeepsCall(s: State, t: State, freed: set<Path>, c: Call)
    requires Drops(s, t, freed) && CallOk(s, c)
    ensures CallOk(t, c)
  {
    if c.Copied? {
      DropsKeepsUnclaimed(s, t, freed, c.path);
    }
  }

  lemma DropsKeepsUnsent(s: System, db: State, freed: set<Path>)
    requires SystemInv(s) && Drops(s.db, db, freed)
    ensures UnsentOk(s.(db := db, unsent := s.unsent + freed))
  {
    var t := s.(db := db, unsent := s.unsent + freed);
    forall path | path in t.unsent
      ensures path.name < db.nextName && Unclaimed(db, path) && forall c :: !Holds(t, c, path)
    {
      DropsKeepsUnclaimed(s.db, db, freed, path);
      forall c
        ensures !Holds(t, c, path)
      {
        assert c in s.calls ==> CallOk(s.db, s.calls[c]);
        assert Holds(t, c, path) == Holds(s, c, path);
      }
      if path in freed {
        var f :| f in s.db.files && f !in db.files && s.db.files[f].path == path;
        assert Backed(s.db, s.db.files[f]);
      }
    }
  }

  lemma DropsKeepsLeaks(s: System, db: State, freed: set<Path>)
    requires NothingLeaks(s) && Drops(s.db, db, freed)
    ensures NothingLeaks(s.(db := db, unsent := s.unsent + freed))
  {
    var t := s.(db := db, unsent := s.unsent + freed);
    if !t.lossy {
      forall path | path in db.objects
        ensures AccountedFor(t, path)
      {
        assert AccountedFor(s, path);
        DropsKeepsUnclaimed(s.db, db, freed, path);
        if c :| Holds(s, c, path) {
          assert Holds(t, c, path);
        }
      }
    }
  }

  /** A database step that drops rows, with their originals set aside for deletion. */
  lemma DropsKeepSystem(s: System, db: State, freed: set<Path>)
    requires SystemInv(s) && Inv(db) && Drops(s.db, db, freed)
    ensures SystemInv(s.(db := db, unsent := s.unsent + freed))
  {
    var t := s.(db := db, unsent := s.unsent + freed);
    DropsKeepsUnsent(s, db, freed);
    DropsKeepsLeaks(s, db, freed);
    forall c | c in t.calls
      ensures CallOk(db, t.calls[c])
    {
      DropsKeepsCall(s.db, db, freed, s.calls[c]);
    }
    assert forall c, path :: Holds(t, c, path) == Holds(s, c, path);
  }

  lemma PurgeDrops(s: State, id: ImageId, snap: Image)
    ensures var (t, o) := PurgeOne(s, id, snap);
            Drops(s, t, FreedBy(o))
  {
    var (t, o) := PurgeOne(s, id, snap);
    assert o.FileFreed? ==> snap.file in s.files && snap.file !in t.files;
  }

  lemma CommitDrops(s: State, id: ImageId, from: FileId, target: FileId, u: Updates)
    ensures var (t, o) := Commit(s, id, from, target, u);
            Drops(s, t, if o.Moved? then Freed(o.freed) else {})
  {
    var (t, o) := Commit(s, id, from, target, u);
    assert o.Moved? && o.freed.Some? ==> from in s.files && from !in t.files;
  }

  lemma WithoutUserDrops(s: State, u: UserId)
    ensures Drops(s, WithoutUser(s, u), PathsFreed(s, Owned(s.images, u)))
  {
    var t := WithoutUser(s, u);
    forall x | x in PathsFreed(s, Owned(s.images, u))
      ensures Gone(s, t, x)
    {
      var f :| f in s.files && LosesAll(s.images, f, Owned(s.images, u)) && s.files[f].path == x;
      assert f !in t.files;
    }
  }

  /** Trash-then-purge, as one database step. */
  lemma PurgeStepDrops(s: State, id: ImageId)
    requires Inv(s) && id in s.images
    ensures var ready := SetTrashed(s, id, true);
            var (t, o) := PurgeOne(ready, id, ready.images[id]);
            Inv(t) && Drops(s, t, FreedBy(o))
  {
    hide Inv;
    var ready := SetTrashed(s, id, true);
    SameLinksKeepsInv(s, ready);
    PurgeOneKeepsInv(ready, id, ready.images[id]);
    PurgeDrops(ready, id, ready.images[id]);
    var (t, o) := PurgeOne(ready, id, ready.images[id]);
    RedoDrops(s, ready, t, FreedBy(o));
  }

  lemma RedoDrops(s: State, ready: State, t: State, freed: set<Path>)
    requires Drops(ready, t, freed) && ready == s.(images := ready.images)
    ensures Drops(s, t, freed)
  {
    forall x | x in freed
      ensures Gone(s, t, x)
    {
      assert Gone(ready, t, x);
    }
  }

  lemma PurgeKeepsSystem(s: System, id: ImageId, live: bool)
    requires SystemInv(s)
    ensures SystemInv(ApplyPurge(s, id, live))
  {
    if id in s.db.images && s.db.images[id].trashed != live {
      PurgeStepDrops(s.db, id);
      var ready := SetTrashed(s.db, id, true);
      var (db, o) := PurgeOne(ready, id, ready.images[id]);
      DropsKeepSystem(s, db, FreedBy(o));
    }
  }

  lemma RemoveAccountKeepsSystem(s: System, u: UserId, order: seq<ImageId>)
    requires SystemInv(s)
    ensures SystemInv(ApplyRemoveAccount(s, u, order))
  {
    if Lists(order, s.db, u) {
      DeleteUserKeepsInv(s.db, u, order);
      DeleteUserIsExact(s.db, u, order);
      WithoutUserDrops(s.db, u);
      DropsKeepSystem(s, WithoutUser(s.db, u), PathsFreed(s.db, Owned(s.db.images, u)));
    }
  }

  /** Steps on images and users that leave every file row and object as it is. */
  lemma TablesOnlyKeepSystem(s: System, db: State)
    requires SystemInv(s) && Inv(db) && Drops(s.db, db, {})
    ensures SystemInv(s.(db := db))
  {
    DropsKeepSystem(s, db, {});
    assert s.unsent + {} == s.unsent;
  }

  // ----- steps that only move a call along -----

  /** Replacing or ending a call that holds no copy, by one that holds none either. */
  lemma CallStepKeepsSystem(s: System, t: System, c: CallId)
    requires SystemInv(s)
    requires t == Drop(s, c) || (c in t.calls && t == Advance(s, c, t.calls[c]) && CallOk(s.db, t.calls[c]))
    requires c in t.calls ==> !t.calls[c].Copied?
    requires c in s.calls ==> !s.calls[c].Copied?
    ensures SystemInv(t)
  {
    assert forall d, path :: Holds(t, d, path) == Holds(s, d, path);
    forall path | path in t.db.objects && !t.lossy
      ensures AccountedFor(t, path)
    {
      assert AccountedFor(s, path);
      if d :| Holds(s, d, path) {
        assert Holds(t, d, path);
      }
    }
  }

  lemma BeginKeepsSystem(s: System, c: CallId, id: ImageId, u: Updates, repair: bool)
    requires SystemInv(s)
    ensures SystemInv(ApplyBegin(s, c, id, u, repair))
  {
    hide HoldersDistinct, UnsentOk, NothingLeaks, RefsExact, CallsOk;
    var t := ApplyBegin(s, c, id, u, repair);
    if t != s {
      assert s.db.images[id].file in s.db.files;
      CallStepKeepsSystem(s, t, c);
    }
  }

  lemma LoadRowKeepsSystem(s: System, c: CallId)
    requires SystemInv(s)
    ensures SystemInv(ApplyLoadRow(s, c))
  {
    var t := ApplyLoadRow(s, c);
    if c in s.calls && s.calls[c].Opened? {
      var from := s.calls[c].from;
      assert from in s.db.files ==> Backed(s.db, s.db.files[from]);
      CallStepKeepsSystem(s, t, c);
    }
  }

  lemma WriteKeepsSystem(s: System, c: CallId)
    requires SystemInv(s)
    ensures SystemInv(ApplyWrite(s, c))
  {
    if c in s.calls && s.calls[c].Plain? {
      CallStepKeepsSystem(s, Drop(s, c), c);
      var db := WriteColumns(s.db, s.calls[c].image, s.calls[c].updates);
      WriteColumnsSameLinks(s.db, s.calls[c].image, s.calls[c].updates);
      LinksKeepSystem(Drop(s, c), db);
    }
  }

  lemma LookupKeepsSystem(s: System, c: CallId)
    requires SystemInv(s)
    ensures SystemInv(ApplyLookup(s, c))
  {
    if c in s.calls && s.calls[c].Loaded? {
      assert CallOk(s.db, s.calls[c]);
      CallStepKeepsSystem(s, ApplyLookup(s, c), c);
    }
  }

  lemma CommitKeepsSystem(s: System, c: CallId)
    requires SystemInv(s)
    ensures SystemInv(ApplyCommit(s, c))
  {
    if c in s.calls && s.calls[c].Resolved? {
      var job, file := s.calls[c].job, s.calls[c].file;
      assert CallOk(s.db, s.calls[c]);
      CallStepKeepsSystem(s, Drop(s, c), c);
      CommitKeepsInv(s.db, job.image, job.from, file, job.updates);
      var (db, o) := Commit(s.db, job.image, job.from, file, job.updates);
      CommitDrops(s.db, job.image, job.from, file, job.updates);
      DropsKeepSystem(Drop(s, c), db, if o.Moved? then Freed(o.freed) else {});
    }
  }

  // ----- steps on objects and the queue -----

  lemma PutKeepsCall(s: State, prefix: Visibility, content: Content, c: Call)
    requires Inv(s) && CallOk(s, c)
    ensures CallOk(PutObject(s, prefix, content).0, c)
  {
  }

  /** A fresh object, at once held by the call that stored it. */
  lemma HoldFreshKeepsSystem(s: System, c: CallId, job: Job)
    requires SystemInv(s)
    requires c in s.calls && s.calls[c] == Missed(job)
    ensures var (db, path) := PutObject(s.db, job.target, job.row.hash);
            SystemInv(Advance(s, c, Copied(job, path)).(db := db))
  {
    hide Inv;
    var (db, path) := PutObject(s.db, job.target, job.row.hash);
    var t := Advance(s, c, Copied(job, path)).(db := db);
    PutKeepsInv(s.db, job.target, job.row.hash);
    forall d | d in t.calls
      ensures CallOk(t.db, t.calls[d])
    {
      assert CallOk(s.db, s.calls[d]);
      PutKeepsCall(s.db, job.target, job.row.hash, s.calls[d]);
    }
    HoldersAfterPut(s, t, c, path);
    forall x | x in t.db.objects && !t.lossy
      ensures AccountedFor(t, x)
    {
      if x == path {
        assert Holds(t, c, path);
      } else {
        assert AccountedFor(s, x);
        assert Unclaimed(t.db, x) == Unclaimed(s.db, x);
        if d :| Holds(s, d, x) {
          assert Holds(t, d, x);
        }
      }
    }
  }

  lemma HoldersAfterPut(s: System, t: System, c: CallId, path: Path)
    requires SystemInv(s) && c in s.calls && s.calls[c].Missed?
    requires path.name == s.db.nextName && t.db.files == s.db.files && t.db.nextName == s.db.nextName + 1
    requires exists job :: t == Advance(s, c, Copied(job, path)).(db := t.db)
    ensures HoldersDistinct(t) && UnsentOk(t)
  {
    forall d, x
      ensures Holds(t, d, x) <==> (d == c && x == path) || Holds(s, d, x)
    {
    }
    forall d, x | Holds(s, d, x)
      ensures x.name < s.db.nextName
    {
      assert CallOk(s.db, s.calls[d]);
    }
    assert forall x :: Unclaimed(t.db, x) == Unclaimed(s.db, x);
  }

  /** The object of a holder is deleted, and the holder goes. */
  lemma UndoKeepsSystem(s: System, c: CallId, undone: bool)
    requires SystemInv(s) && c in s.calls && s.calls[c].Copied?
    ensures SystemInv(Undo(s, c, s.calls[c].path, undone))
  {
    var path := s.calls[c].path;
    assert CallOk(s.db, s.calls[c]) && Holds(s, c, path);
    if undone {
      DeleteObjectKeepsInv(s.db, path);
      ObjectGoneKeepsCalls(s, c, path);
    }
    var t := Undo(s, c, path, undone);
    assert forall d, x :: Holds(t, d, x) ==> Holds(s, d, x);
    assert forall x :: Unclaimed(t.db, x) == Unclaimed(s.db, x);
    forall x | x in t.db.objects && !t.lossy
      ensures AccountedFor(t, x)
    {
      assert AccountedFor(s, x);
      if d :| Holds(s, d, x) {
        assert Holds(t, d, x);
      }
    }
  }

  /** Deleting an object disturbs no call other than its holder. */
  lemma ObjectGoneKeepsCalls(s: System, c: CallId, path: Path)
    requires CallsOk(s) && forall d :: Holds(s, d, path) ==> d == c
    ensures forall d :: d in s.calls && d != c ==> CallOk(DeleteObject(s.db, path), s.calls[d])
  {
    forall d | d in s.calls && d != c
      ensures CallOk(DeleteObject(s.db, path), s.calls[d])
    {
      assert CallOk(s.db, s.calls[d]) && !Holds(s, d, path);
    }
  }

  lemma CopyKeepsSystem(s: System, c: CallId, thumbnail: bool, undone: bool)
    requires SystemInv(s)
    ensures SystemInv(ApplyCopy(s, c, thumbnail, undone))
  {
    if c in s.calls && s.calls[c].Missed? {
      var job := s.calls[c].job;
      assert CallOk(s.db, s.calls[c]);
      if job.row.path !in s.db.objects {
        CallStepKeepsSystem(s, Drop(s, c), c);
      } else {
        HoldFreshKeepsSystem(s, c, job);
        var (db, path) := PutObject(s.db, job.target, s.db.objects[job.row.path]);
        UndoKeepsSystem(Advance(s, c, Copied(job, path)).(db := db), c, undone);
      }
    }
  }

  lemma CreateKeepsCall(s: State, row: File, target: Visibility, path: Path, c: Call)
    requires Inv(s) && CallOk(s, c) && (c.Copied? ==> c.path != path)
    ensures CallOk(CreateRow(s, row, target, path).0, c)
  {
  }

  /** A new row claims its path and no other. */
  lemma CreateClaims(s: State, row: File, target: Visibility, path: Path)
    requires s.nextFile !in s.files
    ensures forall x :: Unclaimed(CreateRow(s, row, target, path).0, x) <==> Unclaimed(s, x) && x != path
  {
    var (db, file) := CreateRow(s, row, target, path);
    assert db.files[file].path == path;
    assert forall f :: f in s.files ==> f in db.files && db.files[f] == s.files[f];
  }

  lemma ClaimKeepsLeaks(s: System, c: CallId)
    requires NothingLeaks(s) && c in s.calls && s.calls[c].Copied? && s.db.nextFile !in s.db.files
    ensures var job := s.calls[c].job;
            var (db, file) := CreateRow(s.db, job.row, job.target, s.calls[c].path);
            NothingLeaks(Advance(s, c, Resolved(job, file)).(db := db))
  {
    hide Unclaimed;
    var job, path := s.calls[c].job, s.calls[c].path;
    var (db, file) := CreateRow(s.db, job.row, job.target, path);
    var t := Advance(s, c, Resolved(job, file)).(db := db);
    CreateClaims(s.db, job.row, job.target, path);
    forall x | x in t.db.objects && !t.lossy
      ensures AccountedFor(t, x)
    {
      assert AccountedFor(s, x);
      if d :| Holds(s, d, x) {
        assert d != c ==> Holds(t, d, x);
      }
    }
  }

  /** The copy gets its row: no longer held, now claimed. */
  lemma ClaimKeepsSystem(s: System, c: CallId)
    requires SystemInv(s) && c in s.calls && s.calls[c].Copied?
    requires FindFile(s.db, s.calls[c].job.row.hash, s.calls[c].job.target).None?
    ensures SystemInv(ApplyCreate(s, c, true, true))
  {
    hide Unclaimed, NothingLeaks, RefsExact, FilesBacked, QuotasExact, PathsDistinct, HashSurfaceUnique;
    var job, path := s.calls[c].job, s.calls[c].path;
    assert CallOk(s.db, s.calls[c]) && Holds(s, c, path);
    var (db, file) := CreateRow(s.db, job.row, job.target, path);
    var t := Advance(s, c, Resolved(job, file)).(db := db);
    CreateKeepsInv(s.db, job.row, job.target, path);
    forall d | d in t.calls && d != c
      ensures CallOk(db, t.calls[d])
    {
      assert CallOk(s.db, s.calls[d]) && !Holds(s, d, path);
      CreateKeepsCall(s.db, job.row, job.target, path, s.calls[d]);
    }
    assert CallOk(db, Resolved(job, file)) by {
      CreateKeepsCall(s.db, job.row, job.target, path, Missed(job));
    }
    assert forall d, x :: Holds(t, d, x) <==> Holds(s, d, x) && d != c;
    CreateClaims(s.db, job.row, job.target, path);
    ClaimKeepsLeaks(s, c);
  }

  lemma CreateKeepsSystem(s: System, c: CallId, ok: bool, undone: bool)
    requires SystemInv(s)
    ensures SystemInv(ApplyCreate(s, c, ok, undone))
  {
    hide FilesBacked, QuotasExact, RefsExact, PathsDistinct, HashSurfaceUnique, HoldersDistinct, UnsentOk, NothingLeaks;
    if c in s.calls && s.calls[c].Copied? {
      var job, path := s.calls[c].job, s.calls[c].path;
      assert CallOk(s.db, s.calls[c]);
      var winner := FindFile(s.db, job.row.hash, job.target);
      var without := Undo(s, c, path, undone);
      UndoKeepsSystem(s, c, undone);
      if winner.Some? {
        CallStepKeepsSystem(without, Advance(without, c, Resolved(job, winner.value)), c);
      } else if ok {
        ClaimKeepsSystem(s, c);
      }
    }
  }

  lemma ReuploadKeepsSystem(s: System, owner: Option<UserId>, f: FileId, album: Option<AlbumId>, quota: int)
    requires SystemInv(s)
    ensures SystemInv(s.(db := UploadAgain(s.db, owner, f, album, quota)))
  {
    UploadAgainKeepsInv(s.db, owner, f, album, quota);
    UploadAgainKeepsRows(s.db, owner, f, album, quota);
    TablesOnlyKeepSystem(s, UploadAgain(s.db, owner, f, album, quota));
  }

  lemma UploadKeepsSystem(s: System, owner: Option<UserId>, content: Content, surface: Visibility,
                          album: Option<AlbumId>, quota: int)
    requires SystemInv(s)
    ensures SystemInv(ApplyUpload(s, owner, content, surface, album, quota))
  {
    hide SystemInv, FindFile, UploadAgain;
    var (stored, path) := PutObject(s.db, surface, content);
    if FindFile(s.db, content, surface).None? && Chargeable(s.db, owner, |content|, quota) {
      var (db, f) := CreateRow(stored, File(content, On(surface), path, |content|, 0), surface, path);
      PutAndClaimKeepsSystem(s, content, surface);
      ReuploadKeepsSystem(s.(db := db), owner, f, album, quota);
      assert s.unsent + {} == s.unsent;
    } else {
      PutAndLoseKeepsSystem(s, content, surface);
    }
  }

  /** A fresh object that no row will claim, waiting to be queued. */
  lemma PutAndLoseKeepsSystem(s: System, content: Content, surface: Visibility)
    requires SystemInv(s)
    ensures var (stored, path) := PutObject(s.db, surface, content);
            SystemInv(s.(db := stored, unsent := s.unsent + {path}))
  {
    var (stored, path) := PutObject(s.db, surface, content);
    var t := s.(db := stored, unsent := s.unsent + {path});
    PutKeepsInv(s.db, surface, content);
    forall c | c in s.calls
      ensures CallOk(stored, s.calls[c])
    {
      assert CallOk(s.db, s.calls[c]);
      PutKeepsCall(s.db, surface, content, s.calls[c]);
    }
    assert forall c, x :: Holds(t, c, x) == Holds(s, c, x);
    forall c
      ensures !Holds(t, c, path)
    {
      assert c in s.calls ==> CallOk(s.db, s.calls[c]);
    }
    assert forall x :: Unclaimed(stored, x) == Unclaimed(s.db, x);
    forall x | x in stored.objects && !t.lossy
      ensures AccountedFor(t, x)
    {
      if x != path {
        assert AccountedFor(s, x);
        if c :| Holds(s, c, x) {
          assert Holds(t, c, x);
        }
      }
    }
  }

  /** A fresh object that gets its row at once. */
  /** A stored original that a row claims at once leaves nothing unaccounted for. */
  lemma OneMoreClaimed(s: System, t: System, path: Path)
    requires NothingLeaks(s) && t == s.(db := t.db)
    requires t.db.objects.Keys == s.db.objects.Keys + {path} && t.db.queue == s.db.queue
    requires forall x :: Unclaimed(t.db, x) <==> Unclaimed(s.db, x) && x != path
    ensures NothingLeaks(t)
  {
    hide Unclaimed;
    forall x | x in t.db.objects && !t.lossy
      ensures AccountedFor(t, x)
    {
      if x != path {
        assert AccountedFor(s, x);
        if c :| Holds(s, c, x) {
          assert Holds(t, c, x);
        }
      }
    }
  }

  lemma PutAndClaimKeepsSystem(s: System, content: Content, surface: Visibility)
    requires SystemInv(s) && FindFile(s.db, content, surface).None?
    ensures var (stored, path) := PutObject(s.db, surface, content);
            var row := File(content, On(surface), path, |content|, 0);
            SystemInv(s.(db := CreateRow(stored, row, surface, path).0))
  {
    hide FilesBacked, PathsDistinct, QuotasExact, Usage, RefsExact, HashSurfaceUnique, NothingLeaks;
    var (stored, path) := PutObject(s.db, surface, content);
    var row := File(content, On(surface), path, |content|, 0);
    var (db, file) := CreateRow(stored, row, surface, path);
    var t := s.(db := db);
    PutKeepsInv(s.db, surface, content);
    CreateKeepsInv(stored, row, surface, path);
    forall c | c in s.calls
      ensures CallOk(db, s.calls[c])
    {
      assert CallOk(s.db, s.calls[c]);
      PutKeepsCall(s.db, surface, content, s.calls[c]);
      CreateKeepsCall(stored, row, surface, path, s.calls[c]);
    }
    assert forall c, x :: Holds(t, c, x) == Holds(s, c, x);
    CreateClaims(stored, row, surface, path);
    OneMoreClaimed(s, t, path);
  }

  lemma EnqueueKeepsSystem(s: System, path: Path, ok: bool)
    requires SystemInv(s)
    ensures SystemInv(ApplyEnqueue(s, path, ok))
  {
    var t := ApplyEnqueue(s, path, ok);
    if path in s.unsent {
      if ok {
        EnqueueKeepsInv(s.db, path);
        forall c | c in t.calls
          ensures CallOk(t.db, t.calls[c])
        {
          assert CallOk(s.db, s.calls[c]) && !Holds(s, c, path);
        }
      }
      assert forall c, x :: Holds(t, c, x) == Holds(s, c, x);
      assert forall x :: Unclaimed(t.db, x) == Unclaimed(s.db, x);
      forall x | x in t.db.objects && !t.lossy
        ensures AccountedFor(t, x)
      {
        assert AccountedFor(s, x);
        if c :| Holds(s, c, x) {
          assert Holds(t, c, x);
        }
      }
    }
  }

  lemma EnqueueKeepsInv(s: State, path: Path)
    requires Inv(s) && Unclaimed(s, path) && path.name < s.nextName
    ensures Inv(s.(queue := s.queue + {path}))
  {
    forall p | p in s.queue
      ensures Unclaimed(s, p)
    {
      assert forall f :: f in s.files ==> Backed(s, s.files[f]);
    }
    QueueKeepsInv(s, s.queue + {path});
  }

  lemma DeletionKeepsLeaks(s: System, path: Path, deleted: bool, finished: bool)
    requires NothingLeaks(s)
    ensures NothingLeaks(ApplyDeletion(s, path, deleted, finished))
  {
    var t := ApplyDeletion(s, path, deleted, finished);
    assert forall x :: Unclaimed(t.db, x) == Unclaimed(s.db, x);
    forall x | x in t.db.objects && !t.lossy
      ensures AccountedFor(t, x)
    {
      assert AccountedFor(s, x);
      if c :| Holds(s, c, x) {
        assert Holds(t, c, x);
      }
    }
  }

  lemma DeletionKeepsSystem(s: System, path: Path, deleted: bool, finished: bool)
    requires SystemInv(s)
    ensures SystemInv(ApplyDeletion(s, path, deleted, finished))
  {
    hide Inv, RefsExact, NothingLeaks;
    var t := ApplyDeletion(s, path, deleted, finished);
    if path in s.db.queue {
      QueuedUnheld(s, path);
      var db := if deleted then DeleteObject(s.db, path) else s.db;
      DeleteObjectKeepsInv(s.db, path);
      QueueShrinksKeepsInv(db, path);
      forall c | c in t.calls
        ensures CallOk(t.db, t.calls[c])
      {
        assert CallOk(s.db, s.calls[c]) && !Holds(s, c, path);
      }
      assert forall c, x :: Holds(t, c, x) == Holds(s, c, x);
      assert forall x :: Unclaimed(t.db, x) == Unclaimed(s.db, x);
      DeletionKeepsLeaks(s, path, deleted, finished);
    }
  }

  lemma QueuedUnheld(s: System, path: Path)
    requires Inv(s.db) && CallsOk(s) && path in s.db.queue
    ensures Unclaimed(s.db, path) && forall c :: !Holds(s, c, path)
  {
    assert forall f :: f in s.db.files ==> Backed(s.db, s.db.files[f]);
    forall c
      ensures !Holds(s, c, path)
    {
      assert c in s.calls ==> CallOk(s.db, s.calls[c]);
    }
  }

  lemma QueueShrinksKeepsInv(s: State, path: Path)
    requires Inv(s)
    ensures Inv(s.(queue := s.queue - {path}))
  {
    var t := s.(queue := s.queue - {path});
    assert forall f :: f in t.files ==> Backed(s, s.files[f]) && Backed(t, t.files[f]);
    SameTablesKeepInv(s, t);
  }

  lemma SignUpKeepsSystem(s: System, u: UserId)
    requires SystemInv(s)
    ensures SystemInv(s.(db := NewUser(s.db, u)))
  {
    NewUserKeepsInv(s.db, u);
    TablesOnlyKeepSystem(s, NewUser(s.db, u));
  }

  lemma LinksKeepSystem(s: System, db: State)
    requires SystemInv(s) && SameLinks(s.db, db)
    ensures SystemInv(s.(db := db))
  {
    SameLinksKeepsInv(s.db, db);
    TablesOnlyKeepSystem(s, db);
  }

  lemma SetTrashedKeepsSystem(s: System, id: ImageId, trashed: bool)
    requires SystemInv(s)
    ensures SystemInv(s.(db := SetTrashed(s.db, id, trashed)))
  {
    SetTrashedSameLinks(s.db, id, trashed);
    LinksKeepSystem(s, SetTrashed(s.db, id, trashed));
  }

  // ----- all events, all runs -----

  predicate MovesCall(e: Event)
  {
    e.BeginUpdate? || e.BeginRepair? || e.LoadRow? || e.Write? || e.Lookup? || e.CopyOver? || e.Create? || e.CommitMove?
  }

  lemma CallEventKeepsSystem(s: System, e: Event)
    requires SystemInv(s) && MovesCall(e)
    ensures SystemInv(Apply(s, e))
  {
    hide SystemInv;
    match e
    case BeginUpdate(c, id, u) => BeginKeepsSystem(s, c, id, u, false);
    case BeginRepair(c, id) => BeginKeepsSystem(s, c, id, NOTHING, true);
    case LoadRow(c) => LoadRowKeepsSystem(s, c);
    case Write(c) => WriteKeepsSystem(s, c);
    case Lookup(c) => LookupKeepsSystem(s, c);
    case CopyOver(c, thumbnail, undone) => CopyKeepsSystem(s, c, thumbnail, undone);
    case Create(c, ok, undone) => CreateKeepsSystem(s, c, ok, undone);
    case CommitMove(c) => CommitKeepsSystem(s, c);
  }

  lemma EventKeepsSystem(s: System, e: Event)
    requires SystemInv(s)
    ensures SystemInv(Apply(s, e))
  {
    if MovesCall(e) {
      CallEventKeepsSystem(s, e);
    } else {
      match e
      case SignUp(u) => SignUpKeepsSystem(s, u);
      case Upload(o, content, surface, album, quota) => UploadKeepsSystem(s, o, content, surface, album, quota);
      case Reupload(o, f, album, quota) => ReuploadKeepsSystem(s, o, f, album, quota);
      case Trash(id) => SetTrashedKeepsSystem(s, id, true);
      case RestoreImage(id) => SetTrashedKeepsSystem(s, id, false);
      case PurgeTrashed(id) => PurgeKeepsSystem(s, id, false);
      case PurgeLive(id) => PurgeKeepsSystem(s, id, true);
      case RemoveAccount(u, order) => RemoveAccountKeepsSystem(s, u, order);
      case Enqueue(path, ok) => EnqueueKeepsSystem(s, path, ok);
      case RunDeletion(path, deleted, finished) => DeletionKeepsSystem(s, path, deleted, finished);
      case Crash =>
    }
  }

  /**
    Every state of every run: counts are exact, no image points at a missing file, (hash, surface) is
    unique, every row's original is stored with its content and not queued, quotas are exact, and as long
    as nothing was lost every stored original is accounted for.
   */
  lemma {:induction false} RunsKeepSystem(s: System, events: seq<Event>)
    requires SystemInv(s)
    ensures SystemInv(Run(s, events))
  {
    if events != [] {
      RunsKeepSystem(s, events[..|events| - 1]);
      EventKeepsSystem(Run(s, events[..|events| - 1]), events[|events| - 1]);
    }
  }

  /** What the invariant says of a run from the empty store, spelled out. */
  lemma ReachableStore(events: seq<Event>)
    ensures var s := Run(START, events);
            && (forall f :: f in s.db.files ==>
                  && s.db.files[f].path in s.db.objects
                  && s.db.objects[s.db.files[f].path] == s.db.files[f].hash
                  && s.db.files[f].path !in s.db.queue
                  && s.db.files[f].refCount == |Refs(s.db.images, f)|)
            && (forall i :: i in s.db.images ==> s.db.images[i].file in s.db.files)
            && (forall f, g :: f in s.db.files && g in s.db.files && SameSlot(s.db.files[f], s.db.files[g]) ==> f == g)
            && (forall u :: u in s.db.users ==> s.db.users[u] == Usage(s.db, u))
            && (!s.lossy ==> forall path :: path in s.db.objects ==> AccountedFor(s, path))
  {
    StartIsConsistent();
    RunsKeepSystem(START, events);
    var s := Run(START, events);
    assert forall f :: f in s.db.files ==> Backed(s.db, s.db.files[f]);
  }
}
