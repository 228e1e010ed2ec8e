/**
  The schedule under which updates and repairs never race: a request on an image begins only while no other
  request on that image is open. Everything else may interleave as it likes.
 */
module Schedules {
  import opened Prelude
  import opened StoreState
  import opened Purge
  import opened Rehome
  import opened Accounts
  import opened StoreRuns
  import opened StoreSafety
  import opened Agreement

  function ImageOf(c: Call): ImageId
  {
    match c
    case Opened(id, _, _, _) => id
    case Plain(id, _) => id
    case Loaded(job) => job.image
    case Missed(job) => job.image
    case Copied(job, _) => job.image
    case Resolved(job, _) => job.image
  }

  predicate Busy(s: System, id: ImageId)
  {
    exists c :: c in s.calls && ImageOf(s.calls[c]) == id
  }

  /** The event begins a request on an image that another open request is about. */
  predicate Overlaps(s: System, e: Event)
  {
    (e.BeginUpdate? || e.BeginRepair?) && Busy(s, e.image)
  }

  /** One request at a time per image. */
  ghost predicate OneAtATime(s: System, events: seq<Event>)
  {
    forall i :: 0 <= i < |events| ==> !Overlaps(Run(s, events[..i]), events[i])
  }

  // ----- what such runs keep -----

  /** The image, if it is still there, is on the file the request saw, and a repair's image wants the target surface. */
  predicate Fresh(db: State, id: ImageId, from: FileId, target: Visibility, u: Updates)
  {
    id in db.images ==>
      db.images[id].file == from && (u.visibility.None? ==> db.images[id].visibility == target)
  }

  /** What the request learned about its image is still so. */
  predicate UpToDate(db: State, c: Call)
  {
    match c
    case Opened(id, from, target, u) => Fresh(db, id, from, target, u)
    case Plain(id, u) => u.visibility.None? || OnSurface(db, id, u.visibility.value)
    case Loaded(job) => Fresh(db, job.image, job.from, job.target, job.updates)
    case Missed(job) => Fresh(db, job.image, job.from, job.target, job.updates)
    case Copied(job, _) => Fresh(db, job.image, job.from, job.target, job.updates)
    case Resolved(job, _) => Fresh(db, job.image, job.from, job.target, job.updates)
  }

  /** The image, if it is still there, sits on a file of this surface. */
  predicate OnSurface(db: State, id: ImageId, v: Visibility)
  {
    id in db.images && db.images[id].file in db.files ==> FileSurface(db.files[db.images[id].file]) == v
  }

  ghost predicate Steady(s: System)
  {
    && (forall c :: c in s.calls ==> ImageOf(s.calls[c]) < s.db.nextImage && UpToDate(s.db, s.calls[c]))
    && (forall c, d :: c in s.calls && d in s.calls && ImageOf(s.calls[c]) == ImageOf(s.calls[d]) ==> c == d)
  }

  /** Image `id` and the surface of its file look as before, unless the image is gone. */
  predicate SameLook(s: State, t: State, id: ImageId)
  {
    id in t.images ==>
      && id in s.images
      && t.images[id].file == s.images[id].file && t.images[id].visibility == s.images[id].visibility
      && (t.images[id].file in t.files && t.images[id].file in s.files ==>
            t.files[t.images[id].file].surface == s.files[t.images[id].file].surface)
  }

  lemma SameLookKeepsUpToDate(s: State, t: State, c: Call)
    requires FilesPresent(s) && UpToDate(s, c) && SameLook(s, t, ImageOf(c))
    ensures UpToDate(t, c)
  {
  }

  /** From s to t requests end, or stay as they are, and images already there look the same. */
  ghost predicate Bystanding(s: System, t: System)
  {
    && s.db.nextImage <= t.db.nextImage
    && (forall c :: c in t.calls ==> c in s.calls && t.calls[c] == s.calls[c])
    && (forall id: ImageId :: id < s.db.nextImage ==> SameLook(s.db, t.db, id))
  }

  lemma BystandersStaySteady(s: System, t: System)
    requires FilesPresent(s.db) && Steady(s) && Bystanding(s, t)
    ensures Steady(t)
  {
    forall c | c in t.calls
      ensures UpToDate(t.db, t.calls[c])
    {
      SameLookKeepsUpToDate(s.db, t.db, s.calls[c]);
    }
  }

  /** One request moves on, still up to date; the tables of its image's file stay. */
  lemma NextPhaseStaysSteady(s: System, t: System, c: CallId)
    requires FilesPresent(s.db) && Steady(s) && c in s.calls && c in t.calls
    requires ImageOf(t.calls[c]) == ImageOf(s.calls[c]) && UpToDate(t.db, t.calls[c])
    requires t.calls.Keys == s.calls.Keys && forall d :: d in s.calls && d != c ==> t.calls[d] == s.calls[d]
    requires t.db.images == s.db.images && t.db.nextImage == s.db.nextImage
    requires forall f :: f in s.db.files ==> f in t.db.files && t.db.files[f] == s.db.files[f]
    ensures Steady(t)
  {
    forall d | d in t.calls && d != c
      ensures UpToDate(t.db, t.calls[d])
    {
      SameLookKeepsUpToDate(s.db, t.db, s.calls[d]);
    }
  }

  // ----- step by step -----

  lemma BeginStaysSteady(s: System, c: CallId, id: ImageId, u: Updates, repair: bool)
    requires CountersAhead(s.db) && FilesPresent(s.db) && Steady(s) && !Busy(s, id) && (repair ==> u == NOTHING)
    ensures Steady(ApplyBegin(s, c, id, u, repair))
  {
    hide FilesPresent;
  }

  lemma LoadRowStaysSteady(s: System, c: CallId)
    requires FilesPresent(s.db) && CallsOk(s) && Steady(s)
    ensures Steady(ApplyLoadRow(s, c))
  {
    hide FilesPresent;
    if c in s.calls && s.calls[c].Opened? {
      assert CallOk(s.db, s.calls[c]) && UpToDate(s.db, s.calls[c]);
      var t := ApplyLoadRow(s, c);
      if c in t.calls {
        NextPhaseStaysSteady(s, t, c);
      } else {
        BystandersStaySteady(s, t);
      }
    }
  }

  lemma LookupStaysSteady(s: System, c: CallId)
    requires FilesPresent(s.db) && Steady(s)
    ensures Steady(ApplyLookup(s, c))
  {
    hide FindFile;
    if c in s.calls && s.calls[c].Loaded? {
      assert UpToDate(s.db, s.calls[c]);
      NextPhaseStaysSteady(s, ApplyLookup(s, c), c);
    }
  }

  lemma CopyStaysSteady(s: System, c: CallId, thumbnail: bool, undone: bool)
    requires FilesPresent(s.db) && Steady(s)
    ensures Steady(ApplyCopy(s, c, thumbnail, undone))
  {
    if c in s.calls && s.calls[c].Missed? {
      assert UpToDate(s.db, s.calls[c]);
      var t := ApplyCopy(s, c, thumbnail, undone);
      if c in t.calls {
        NextPhaseStaysSteady(s, t, c);
      } else {
        BystandersStaySteady(s, t);
      }
    }
  }

  lemma CreateStaysSteady(s: System, c: CallId, ok: bool, undone: bool)
    requires FilesPresent(s.db) && CountersAhead(s.db) && Steady(s)
    ensures Steady(ApplyCreate(s, c, ok, undone))
  {
    hide FindFile, FilesPresent;
    if c in s.calls && s.calls[c].Copied? {
      assert UpToDate(s.db, s.calls[c]);
      var t := ApplyCreate(s, c, ok, undone);
      if c in t.calls {
        NextPhaseStaysSteady(s, t, c);
      } else {
        BystandersStaySteady(s, t);
      }
    }
  }

  /** A request that ends by writing its own image disturbs no other open request. */
  lemma OwnImageStaysSteady(s: System, t: System, c: CallId)
    requires FilesPresent(s.db) && Steady(s) && c in s.calls
    requires t.calls == s.calls - {c} && t.db.nextImage == s.db.nextImage
    requires forall id: ImageId :: id != ImageOf(s.calls[c]) ==> SameLook(s.db, t.db, id)
    ensures Steady(t)
  {
    forall d | d in t.calls
      ensures UpToDate(t.db, t.calls[d])
    {
      SameLookKeepsUpToDate(s.db, t.db, s.calls[d]);
    }
  }

  lemma WriteStaysSteady(s: System, c: CallId)
    requires FilesPresent(s.db) && Steady(s)
    ensures Steady(ApplyWrite(s, c))
  {
    if c in s.calls && s.calls[c].Plain? {
      OwnImageStaysSteady(s, ApplyWrite(s, c), c);
    }
  }

  lemma CommitStaysSteady(s: System, c: CallId)
    requires FilesPresent(s.db) && Steady(s)
    ensures Steady(ApplyCommit(s, c))
  {
    if c in s.calls && s.calls[c].Resolved? {
      OwnImageStaysSteady(s, ApplyCommit(s, c), c);
    }
  }

  lemma RemoveAccountStaysSteady(s: System, u: UserId, order: seq<ImageId>)
    requires SystemInv(s) && Steady(s)
    ensures Steady(ApplyRemoveAccount(s, u, order))
  {
    hide Steady;
    if Lists(order, s.db, u) {
      DeleteUserIsExact(s.db, u, order);
      BystandersStaySteady(s, ApplyRemoveAccount(s, u, order));
    }
  }

  lemma PurgeStaysSteady(s: System, id: ImageId, live: bool)
    requires FilesPresent(s.db) && Steady(s)
    ensures Steady(ApplyPurge(s, id, live))
  {
    hide Steady, RefundOwner;
    BystandersStaySteady(s, ApplyPurge(s, id, live));
  }

  lemma NewContentBystands(s: System, owner: Option<UserId>, content: Content, surface: Visibility,
                           album: Option<AlbumId>, quota: int)
    requires CountersAhead(s.db)
    ensures Bystanding(s, ApplyUpload(s, owner, content, surface, album, quota))
  {
    hide FindFile, UploadAgain;
    var (stored, path) := PutObject(s.db, surface, content);
    var (created, f) := CreateRow(stored, File(content, On(surface), path, |content|, 0), surface, path);
    KnownContentBystands(s.(db := created), owner, f, album, quota);
    var t := ApplyUpload(s, owner, content, surface, album, quota);
    forall id: ImageId | id < s.db.nextImage
      ensures SameLook(s.db, t.db, id)
    {
      assert SameLook(s.db, stored, id) && SameLook(created, UploadAgain(created, owner, f, album, quota), id);
      assert forall g :: g in s.db.files ==> g in created.files && created.files[g] == s.db.files[g];
    }
  }

  lemma KnownContentBystands(s: System, owner: Option<UserId>, f: FileId, album: Option<AlbumId>, quota: int)
    requires CountersAhead(s.db)
    ensures Bystanding(s, s.(db := UploadAgain(s.db, owner, f, album, quota)))
  {
    hide Charge, Chargeable;
  }

  lemma UploadStaysSteady(s: System, e: Event)
    requires FilesPresent(s.db) && CountersAhead(s.db) && Steady(s) && (e.Upload? || e.Reupload?)
    ensures Steady(Apply(s, e))
  {
    hide Bystanding, Steady, FilesPresent, CountersAhead, ApplyUpload, UploadAgain;
    match e
    case Upload(o, content, surface, album, quota) =>
      NewContentBystands(s, o, content, surface, album, quota);
      BystandersStaySteady(s, ApplyUpload(s, o, content, surface, album, quota));
    case Reupload(o, f, album, quota) =>
      KnownContentBystands(s, o, f, album, quota);
      BystandersStaySteady(s, s.(db := UploadAgain(s.db, o, f, album, quota)));
  }

  /** Steps that change no file row, and no image but for the trash. */
  lemma TrashStaysSteady(s: System, id: ImageId, trashed: bool)
    requires FilesPresent(s.db) && Steady(s)
    ensures Steady(s.(db := SetTrashed(s.db, id, trashed)))
  {
    hide Steady;
    BystandersStaySteady(s, s.(db := SetTrashed(s.db, id, trashed)));
  }

  lemma SimpleStaysSteady(s: System, e: Event)
    requires FilesPresent(s.db) && Steady(s)
    requires e.SignUp? || e.Enqueue? || e.RunDeletion? || e.Crash?
    ensures Steady(Apply(s, e))
  {
    hide Steady, FilesPresent, ImageOf;
    BystandersStaySteady(s, Apply(s, e));
  }

  lemma SystemParts(s: System)
    requires SystemInv(s)
    ensures FilesPresent(s.db) && CountersAhead(s.db) && CallsOk(s)
  {
  }

  lemma EventStaysSteady(s: System, e: Event)
    requires SystemInv(s) && Steady(s) && !Overlaps(s, e)
    ensures Steady(Apply(s, e))
  {
    hide SystemInv, Steady;
    SystemParts(s);
    hide SystemInv, CallsOk, FilesPresent, CountersAhead, Steady, ApplyBegin, ApplyLoadRow, ApplyWrite, ApplyLookup,
      ApplyCopy, ApplyCreate, ApplyCommit, ApplyPurge, ApplyRemoveAccount;
    match e
    case BeginUpdate(c, id, u) => BeginStaysSteady(s, c, id, u, false);
    case BeginRepair(c, id) => BeginStaysSteady(s, c, id, NOTHING, true);
    case LoadRow(c) => LoadRowStaysSteady(s, c);
    case Write(c) => WriteStaysSteady(s, c);
    case Lookup(c) => LookupStaysSteady(s, c);
    case CopyOver(c, thumbnail, undone) => CopyStaysSteady(s, c, thumbnail, undone);
    case Create(c, ok, undone) => CreateStaysSteady(s, c, ok, undone);
    case CommitMove(c) => CommitStaysSteady(s, c);
    case PurgeTrashed(id) => PurgeStaysSteady(s, id, false);
    case PurgeLive(id) => PurgeStaysSteady(s, id, true);
    case RemoveAccount(u, order) => RemoveAccountStaysSteady(s, u, order);
    case Trash(id) => TrashStaysSteady(s, id, true);
    case RestoreImage(id) => TrashStaysSteady(s, id, false);
    case Upload(_, _, _, _, _) => UploadStaysSteady(s, e);
    case Reupload(_, _, _, _) => UploadStaysSteady(s, e);
    case _ => SimpleStaysSteady(s, e);
  }

  /** An up-to-date request does not race. */
  lemma SteadyNeverRaces(s: System, e: Event)
    requires FilesPresent(s.db) && Steady(s)
    ensures !Raced(s, e)
  {
    if e.Write? && e.call in s.calls {
      assert UpToDate(s.db, s.calls[e.call]);
    }
    if e.CommitMove? && e.call in s.calls {
      assert UpToDate(s.db, s.calls[e.call]);
    }
  }

  lemma OneAtATimePrefix(s: System, events: seq<Event>, n: nat)
    requires OneAtATime(s, events) && n <= |events|
    ensures OneAtATime(s, events[..n])
  {
    forall i | 0 <= i < n
      ensures !Overlaps(Run(s, events[..n][..i]), events[..n][i])
    {
      assert events[..n][..i] == events[..i];
    }
  }

  lemma {:induction false} SteadyRuns(s: System, events: seq<Event>)
    requires SystemInv(s) && Agree(s.db) && Steady(s) && OneAtATime(s, events)
    ensures SystemInv(Run(s, events)) && Agree(Run(s, events).db) && Steady(Run(s, events))
  {
    hide Apply, SystemInv, Agree, Steady, Raced;
    if events != [] {
      var n := |events| - 1;
      OneAtATimePrefix(s, events, n);
      SteadyRuns(s, events[..n]);
      StepKeepsAll(Run(s, events[..n]), events[n]);
    }
  }

  lemma StepKeepsAll(s: System, e: Event)
    requires SystemInv(s) && Agree(s.db) && Steady(s) && !Overlaps(s, e)
    ensures SystemInv(Apply(s, e)) && Agree(Apply(s, e).db) && Steady(Apply(s, e))
  {
    hide Apply, Agree, Steady, Raced, CallsOk, HoldersDistinct, UnsentOk, NothingLeaks;
    EventKeepsSystem(s, e);
    EventStaysSteady(s, e);
    SteadyNeverRaces(s, e);
    AgreementStep(s, e);
  }

  /**
    When requests on one image never overlap, every image's visibility equals its file's surface at every point
    of the run, whatever uploads, purges, restores, account deletions, deletion tasks, failures and crashes
    interleave.
   */
  lemma OneAtATimeAgrees(s: System, events: seq<Event>, n: nat)
    requires SystemInv(s) && Agree(s.db) && s.calls == map[] && OneAtATime(s, events) && n <= |events|
    ensures Agree(Run(s, events[..n]).db)
  {
    OneAtATimePrefix(s, events, n);
    SteadyRuns(s, events[..n]);
  }
}
