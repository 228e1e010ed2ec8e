/**
  Interleavings. Each committed transaction and each storage call is one atomic event; requests that
  move an image between surfaces, enqueues after a commit, deletion tasks and crashes interleave freely.
 */
module StoreRuns {
  import opened Prelude
  import opened StoreState
  import opened Purge
  import opened Rehome
  import opened Accounts

  type CallId = nat

  /** A request that found the image on a file of the other surface, with its copy of that file row. */
  datatype Job = Job(image: ImageId, from: FileId, row: File, target: Visibility, updates: Updates)

  /** Where one update or repair request stands between its atomic steps. */
  datatype Call =
    | Opened(image: ImageId, from: FileId, target: Visibility, updates: Updates)  // image row read
    | Plain(image: ImageId, updates: Updates)          // no move needed: a column write is due
    | Loaded(job: Job)                                 // file row read, on the other surface
    | Missed(job: Job)                                 // no row in the target slot
    | Copied(job: Job, path: Path)                     // object copied, row not yet created
    | Resolved(job: Job, file: FileId)                 // target row known; the commit is due

  /** `unsent` holds originals whose rows are gone but whose deletion is not queued yet;
      `lossy` records that a crash, a failed enqueue or a failed object deletion happened. */
  datatype System = System(db: State, calls: map<CallId, Call>, unsent: set<Path>, lossy: bool)

  datatype Event =
    | SignUp(user: UserId)
    | Upload(owner: Option<UserId>, content: Content, surface: Visibility, album: Option<AlbumId>, quota: int)
    | Reupload(owner: Option<UserId>, file: FileId, album: Option<AlbumId>, quota: int)
    | Trash(image: ImageId)
    | RestoreImage(image: ImageId)
    | PurgeTrashed(image: ImageId)
    | PurgeLive(image: ImageId)
    | RemoveAccount(user: UserId, order: seq<ImageId>)
    | Enqueue(path: Path, ok: bool)
    | RunDeletion(path: Path, deleted: bool, finished: bool)
    | BeginUpdate(call: CallId, image: ImageId, updates: Updates)
    | BeginRepair(call: CallId, image: ImageId)
    | LoadRow(call: CallId)
    | Write(call: CallId)
    | Lookup(call: CallId)
    | CopyOver(call: CallId, thumbnail: bool, undone: bool)
    | Create(call: CallId, ok: bool, undone: bool)
    | CommitMove(call: CallId)
    | Crash

  const NOTHING := Updates(None, None)

  function Freed(o: Option<Path>): set<Path>
  {
    if o.Some? then {o.value} else {}
  }

  function FreedBy(o: Outcome): set<Path>
  {
    if o.FileFreed? then {o.path} else {}
  }

  function Drop(s: System, c: CallId): System
  {
    s.(calls := s.calls - {c})
  }

  function Advance(s: System, c: CallId, next: Call): System
  {
    s.(calls := s.calls[c := next])
  }

  /** A call that fails after copying deletes its copy; when even that fails, the copy is lost. */
  function Undo(s: System, c: CallId, path: Path, undone: bool): System
  {
    if undone then Drop(s, c).(db := DeleteObject(s.db, path)) else Drop(s, c).(lossy := true)
  }

  function ApplyBegin(s: System, c: CallId, id: ImageId, u: Updates, repair: bool): System
  {
    if c in s.calls || id !in s.db.images || s.db.images[id].trashed then s
    else
      var img := s.db.images[id];
      if repair then Advance(s, c, Opened(id, img.file, img.visibility, NOTHING))
      else if u.visibility.Some? then Advance(s, c, Opened(id, img.file, u.visibility.value, u))
      else Advance(s, c, Plain(id, u))
  }

  function ApplyLoadRow(s: System, c: CallId): System
  {
    if c in s.calls && s.calls[c].Opened? then
      var o := s.calls[c];
      if o.from !in s.db.files then Drop(s, c)
      else if FileSurface(s.db.files[o.from]) != o.target then
        Advance(s, c, Loaded(Job(o.image, o.from, s.db.files[o.from], o.target, o.updates)))
      else Advance(s, c, Plain(o.image, o.updates))
    else s
  }

  function ApplyWrite(s: System, c: CallId): System
  {
    if c in s.calls && s.calls[c].Plain? then
      Drop(s, c).(db := WriteColumns(s.db, s.calls[c].image, s.calls[c].updates))
    else s
  }

  ghost function ApplyLookup(s: System, c: CallId): System
  {
    if c in s.calls && s.calls[c].Loaded? then
      var job := s.calls[c].job;
      var found := FindFile(s.db, job.row.hash, job.target);
      Advance(s, c, if found.Some? then Resolved(job, found.value) else Missed(job))
    else s
  }

  function ApplyCopy(s: System, c: CallId, thumbnail: bool, undone: bool): System
  {
    if c in s.calls && s.calls[c].Missed? then
      var job := s.calls[c].job;
      if job.row.path !in s.db.objects then Drop(s, c)
      else
        var (db, path) := PutObject(s.db, job.target, s.db.objects[job.row.path]);
        var copied := Advance(s, c, Copied(job, path)).(db := db);
        if thumbnail then copied else Undo(copied, c, path, undone)
    else s
  }

  ghost function ApplyCreate(s: System, c: CallId, ok: bool, undone: bool): System
  {
    if c in s.calls && s.calls[c].Copied? then
      var job, path := s.calls[c].job, s.calls[c].path;
      var winner := FindFile(s.db, job.row.hash, job.target);
      if winner.Some? then Advance(Undo(s, c, path, undone), c, Resolved(job, winner.value))
      else if ok then
        var (db, file) := CreateRow(s.db, job.row, job.target, path);
        Advance(s, c, Resolved(job, file)).(db := db)
      else Undo(s, c, path, undone)
    else s
  }

  function ApplyCommit(s: System, c: CallId): System
  {
    if c in s.calls && s.calls[c].Resolved? then
      var job := s.calls[c].job;
      var (db, o) := Commit(s.db, job.image, job.from, s.calls[c].file, job.updates);
      Drop(s, c).(db := db, unsent := s.unsent + (if o.Moved? then Freed(o.freed) else {}))
    else s
  }

  function ApplyPurge(s: System, id: ImageId, live: bool): System
  {
    if id in s.db.images && s.db.images[id].trashed != live then
      var ready := SetTrashed(s.db, id, true);
      var (db, o) := PurgeOne(ready, id, ready.images[id]);
      s.(db := db, unsent := s.unsent + FreedBy(o))
    else s
  }

  ghost function ApplyRemoveAccount(s: System, u: UserId, order: seq<ImageId>): System
  {
    if Lists(order, s.db, u) then
      var (db, freed) := DeleteUser(s.db, u, order);
      s.(db := db, unsent := s.unsent + Elements(freed))
    else s
  }

  /** The original of a rolled-back upload waits to be queued for deletion like any other freed one. */
  ghost function ApplyUpload(s: System, owner: Option<UserId>, content: Content, surface: Visibility,
                             album: Option<AlbumId>, quota: int): System
  {
    var (db, lost) := UploadNew(s.db, owner, content, surface, album, quota);
    s.(db := db, unsent := s.unsent + Freed(lost))
  }

  function ApplyEnqueue(s: System, path: Path, ok: bool): System
  {
    if path !in s.unsent then s
    else if ok then s.(unsent := s.unsent - {path}, db := s.db.(queue := s.db.queue + {path}))
    else s.(unsent := s.unsent - {path}, lossy := true)
  }

  /** One run of a deletion task. It may be run again (`!finished`) or given up without deleting. */
  function ApplyDeletion(s: System, path: Path, deleted: bool, finished: bool): System
  {
    if path !in s.db.queue then s
    else
      var db := if deleted then DeleteObject(s.db, path) else s.db;
      if finished then s.(db := db.(queue := db.queue - {path}), lossy := s.lossy || !deleted)
      else s.(db := db)
  }

  ghost function Apply(s: System, e: Event): System
  {
    match e
    case SignUp(u) => s.(db := NewUser(s.db, u))
    case Upload(o, content, surface, album, quota) => ApplyUpload(s, o, content, surface, album, quota)
    case Reupload(o, f, album, quota) => s.(db := UploadAgain(s.db, o, f, album, quota))
    case Trash(id) => s.(db := SetTrashed(s.db, id, true))
    case RestoreImage(id) => s.(db := SetTrashed(s.db, id, false))
    case PurgeTrashed(id) => ApplyPurge(s, id, false)
    case PurgeLive(id) => ApplyPurge(s, id, true)
    case RemoveAccount(u, order) => ApplyRemoveAccount(s, u, order)
    case Enqueue(path, ok) => ApplyEnqueue(s, path, ok)
    case RunDeletion(path, deleted, finished) => ApplyDeletion(s, path, deleted, finished)
    case BeginUpdate(c, id, u) => ApplyBegin(s, c, id, u, false)
    case BeginRepair(c, id) => ApplyBegin(s, c, id, NOTHING, true)
    case LoadRow(c) => ApplyLoadRow(s, c)
    case Write(c) => ApplyWrite(s, c)
    case Lookup(c) => ApplyLookup(s, c)
    case CopyOver(c, thumbnail, undone) => ApplyCopy(s, c, thumbnail, undone)
    case Create(c, ok, undone) => ApplyCreate(s, c, ok, undone)
    case CommitMove(c) => ApplyCommit(s, c)
    case Crash => s.(calls := map[], unsent := {}, lossy := true)
  }

  ghost function Run(s: System, events: seq<Event>): System
  {
    if events == [] then s else Apply(Run(s, events[..|events| - 1]), events[|events| - 1])
  }

  // ----- the global invariant -----

  /** A visibility written together with a move is the surface moved to. */
  predicate Aims(u: Updates, target: Visibility)
  {
    u.visibility.Some? ==> u.visibility.value == target
  }

  /** A call's copy of a file row still tells the truth about the row and its object, if they exist. */
  ghost predicate JobOk(db: State, job: Job)
  {
    && job.from < db.nextFile
    && job.row.path.name < db.nextName
    && job.row.size == |job.row.hash|
    && Aims(job.updates, job.target)
    && (job.from in db.files ==> SameRow(db.files[job.from], job.row))
    && (job.row.path in db.objects ==> db.objects[job.row.path] == job.row.hash)
  }

  /** A copied object waiting for its row: stored, right content and prefix, neither claimed nor queued. */
  ghost predicate Held(db: State, job: Job, path: Path)
  {
    && path in db.objects && db.objects[path] == job.row.hash
    && path.prefix == job.target
    && path !in db.queue
    && Unclaimed(db, path)
  }

  ghost predicate CallOk(db: State, c: Call)
  {
    match c
    case Opened(_, from, target, u) => from < db.nextFile && Aims(u, target)
    case Plain(_, _) => true
    case Loaded(job) => JobOk(db, job)
    case Missed(job) => JobOk(db, job)
    case Copied(job, path) => JobOk(db, job) && Held(db, job, path)
    case Resolved(job, file) =>
      JobOk(db, job) && file < db.nextFile && (file in db.files ==> InSlot(db.files[file], job.row.hash, job.target))
  }

  ghost predicate CallsOk(s: System)
  {
    forall c :: c in s.calls ==> CallOk(s.db, s.calls[c])
  }

  predicate Holds(s: System, c: CallId, path: Path)
  {
    c in s.calls && s.calls[c].Copied? && s.calls[c].path == path
  }

  /** No two calls hold the same copy. */
  ghost predicate HoldersDistinct(s: System)
  {
    forall c, d, path :: Holds(s, c, path) && Holds(s, d, path) ==> c == d
  }

  ghost predicate UnsentOk(s: System)
  {
    forall path :: path in s.unsent ==>
      path.name < s.db.nextName && Unclaimed(s.db, path) && forall c :: !Holds(s, c, path)
  }

  ghost predicate AccountedFor(s: System, path: Path)
  {
    || !Unclaimed(s.db, path)
    || path in s.db.queue
    || path in s.unsent
    || exists c :: Holds(s, c, path)
  }

  /** As long as nothing was lost, every stored original is owned, queued, about to be queued, or in flight. */
  ghost predicate NothingLeaks(s: System)
  {
    !s.lossy ==> forall path :: path in s.db.objects ==> AccountedFor(s, path)
  }

  ghost predicate SystemInv(s: System)
  {
    Inv(s.db) && CallsOk(s) && HoldersDistinct(s) && UnsentOk(s) && NothingLeaks(s)
  }

  const START := System(EMPTY, map[], {}, false)

  lemma StartIsConsistent()
    ensures SystemInv(START)
  {
    EmptyIsConsistent();
  }
}
