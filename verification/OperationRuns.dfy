/** A move done as one operation is one of the interleavings: the same atomic steps, nothing in between. */
module OperationRuns {
  import opened Prelude
  import opened StoreState
  import opened Rehome
  import opened StoreRuns
  import opened Operations

  /** The steps of an update by call `c` up to its target row, which it finds in place or has to make. */
  function ResolveSteps(c: CallId, id: ImageId, u: Updates, found: bool): seq<Event>
  {
    [BeginUpdate(c, id, u), LoadRow(c), Lookup(c)]
    + (if found then [] else [CopyOver(c, true, true), Create(c, true, true)])
  }

  /** The enqueue that follows the commit when the old file lost its last reference. */
  function FollowUp(freed: Option<Path>): seq<Event>
  {
    if freed.Some? then [Enqueue(freed.value, true)] else []
  }

  /** The request can be opened: a live image on a file of the other surface, whose object can be read. */
  ghost predicate CanMove(s: System, c: CallId, id: ImageId, target: Visibility, u: Updates)
  {
    && c !in s.calls && id in s.db.images && !s.db.images[id].trashed && u.visibility == Some(target)
    && s.db.images[id].file in s.db.files
    && FileSurface(s.db.files[s.db.images[id].file]) != target
    && s.db.files[s.db.images[id].file].path in s.db.objects
    && CountersAhead(s.db)
  }

  function TheJob(s: System, id: ImageId, target: Visibility, u: Updates): Job
    requires id in s.db.images && s.db.images[id].file in s.db.files
  {
    Job(id, s.db.images[id].file, s.db.files[s.db.images[id].file], target, u)
  }

  lemma OneMore(s: System, events: seq<Event>, e: Event)
    ensures Run(s, events + [e]) == Apply(Run(s, events), e)
  {
    assert (events + [e])[..|events|] == events;
  }

  lemma ThreeMore(s: System, events: seq<Event>, a: Event, b: Event, c: Event)
    ensures Run(s, events + [a, b, c]) == Apply(Apply(Apply(Run(s, events), a), b), c)
  {
    hide Run, Apply;
    OneMore(s, events, a);
    OneMore(s, events + [a], b);
    OneMore(s, events + [a] + [b], c);
    assert events + [a] + [b] + [c] == events + [a, b, c];
  }

  lemma RunNothing(s: System)
    ensures Run(s, []) == s
  {
  }

  /** Opening, loading and looking up change no table and lead to the target row, or to its absence. */
  lemma LookedUp(s: System, c: CallId, id: ImageId, target: Visibility, u: Updates)
    requires CanMove(s, c, id, target, u)
    ensures var job := TheJob(s, id, target, u);
            var found := FindFile(s.db, job.row.hash, target);
            Run(s, [BeginUpdate(c, id, u), LoadRow(c), Lookup(c)])
            == Advance(s, c, if found.Some? then Resolved(job, found.value) else Missed(job))
  {
    hide FindFile, CountersAhead, Run, Apply;
    RunNothing(s);
    ThreeMore(s, [], BeginUpdate(c, id, u), LoadRow(c), Lookup(c));
    assert [] + [BeginUpdate(c, id, u), LoadRow(c), Lookup(c)] == [BeginUpdate(c, id, u), LoadRow(c), Lookup(c)];
    OpenThenLoad(s, c, id, target, u);
    ThenLookup(s, c, TheJob(s, id, target, u));
  }

  lemma ThenLookup(s: System, c: CallId, job: Job)
    ensures var found := FindFile(s.db, job.row.hash, job.target);
            Apply(Advance(s, c, Loaded(job)), Lookup(c))
            == Advance(s, c, if found.Some? then Resolved(job, found.value) else Missed(job))
  {
    hide FindFile;
    var found := FindFile(s.db, job.row.hash, job.target);
    var next := if found.Some? then Resolved(job, found.value) else Missed(job);
    assert s.calls[c := Loaded(job)][c := next] == s.calls[c := next];
  }

  lemma OpenThenLoad(s: System, c: CallId, id: ImageId, target: Visibility, u: Updates)
    requires CanMove(s, c, id, target, u)
    ensures Apply(Apply(s, BeginUpdate(c, id, u)), LoadRow(c)) == Advance(s, c, Loaded(TheJob(s, id, target, u)))
  {
    hide FindFile, CountersAhead;
    var first := Apply(s, BeginUpdate(c, id, u));
    assert first == Advance(s, c, Opened(id, s.db.images[id].file, target, u));
    assert s.calls[c := first.calls[c]][c := Loaded(TheJob(s, id, target, u))]
           == s.calls[c := Loaded(TheJob(s, id, target, u))];
  }

  /** Copying and creating make the row that Resolve makes. */
  lemma CopiedAndCreated(s: System, c: CallId, job: Job)
    requires job.row.path in s.db.objects && FindFile(s.db, job.row.hash, job.target).None?
    ensures var t := Apply(Apply(Advance(s, c, Missed(job)), CopyOver(c, true, true)), Create(c, true, true));
            var (db, file) := Resolve(s.db, job.row, job.target);
            file.Some? && t == Advance(s, c, Resolved(job, file.value)).(db := db)
  {
    hide FindFile, InSlot, ApplyRemoveAccount, ApplyUpload, ApplyPurge, ApplyCommit, ApplyWrite;
    var (stored, path) := PutObject(s.db, job.target, s.db.objects[job.row.path]);
    var t := Advance(s, c, Copied(job, path)).(db := stored);
    assert Apply(Advance(s, c, Missed(job)), CopyOver(c, true, true)) == t by {
      assert s.calls[c := Missed(job)][c := Copied(job, path)] == s.calls[c := Copied(job, path)];
    }
    JustCreated(s, stored, c, job, path);
  }

  /** The row for a stored copy. */
  lemma JustCreated(s: System, stored: State, c: CallId, job: Job, path: Path)
    requires stored.files == s.db.files && FindFile(s.db, job.row.hash, job.target).None?
    ensures var (db, file) := CreateRow(stored, job.row, job.target, path);
            ApplyCreate(Advance(s, c, Copied(job, path)).(db := stored), c, true, true)
            == Advance(s, c, Resolved(job, file)).(db := db)
  {
    hide InSlot;
    assert FindFile(stored, job.row.hash, job.target).None?;
    var file := stored.nextFile;
    assert s.calls[c := Copied(job, path)][c := Resolved(job, file)] == s.calls[c := Resolved(job, file)];
  }

  /** Committing drops the call and leaves the tables of the committed transaction. */
  lemma Committed(s: System, db: State, c: CallId, job: Job, file: FileId)
    requires c !in s.calls
    ensures var t := Apply(Advance(s, c, Resolved(job, file)).(db := db), CommitMove(c));
            var (moved, o) := Commit(db, job.image, job.from, file, job.updates);
            t == s.(db := moved, unsent := s.unsent + (if o.Moved? then Freed(o.freed) else {}))
  {
    hide Commit;
    assert s.calls[c := Resolved(job, file)] - {c} == s.calls;
  }

  /** What the commit of an uninterrupted move frees. */
  ghost function FreedInMove(s: State, id: ImageId, target: Visibility, u: Updates): Option<Path>
    requires id in s.images && s.images[id].file in s.files
  {
    var (db, file) := Resolve(s, s.files[s.images[id].file], target);
    if file.None? then None
    else
      var o := Commit(db, id, s.images[id].file, file.value, u).1;
      if o.Moved? then o.freed else None
  }

  /** In a consistent system a move of a live image to the other surface can start, commits, and frees no path twice. */
  lemma MoveGoesThrough(s: System, c: CallId, id: ImageId, target: Visibility, u: Updates)
    requires SystemInv(s) && c !in s.calls && id in s.db.images && !s.db.images[id].trashed
    requires u.visibility == Some(target)
    ensures s.db.images[id].file in s.db.files
    ensures FileSurface(s.db.files[s.db.images[id].file]) != target ==> CanMove(s, c, id, target, u)
    ensures var (db, file) := Resolve(s.db, s.db.files[s.db.images[id].file], target);
            file.Some? && Commit(db, id, s.db.images[id].file, file.value, u).1.Moved?
    ensures FreedInMove(s.db, id, target, u).Some? ==> FreedInMove(s.db, id, target, u).value !in s.unsent
  {
    hide FindFile, RefsExact, QuotasExact, PathsDistinct, HashSurfaceUnique, CallsOk, HoldersDistinct, NothingLeaks;
    var from := s.db.images[id].file;
    assert Backed(s.db, s.db.files[from]);
    ResolveEffect(s.db, s.db.files[from], target);
    assert !Unclaimed(s.db, s.db.files[from].path);
  }

  /**
    Whatever else is going on, a move done in one go leaves exactly the tables, objects and queue of its atomic
    steps run without interruption, and no call or unsent path behind.
   */
  lemma MoveIsARun(s: System, c: CallId, id: ImageId, target: Visibility, u: Updates)
    requires SystemInv(s) && c !in s.calls && id in s.db.images && !s.db.images[id].trashed
    requires u.visibility == Some(target) && s.db.images[id].file in s.db.files
    requires FileSurface(s.db.files[s.db.images[id].file]) != target
    ensures var found := FindFile(s.db, s.db.files[s.db.images[id].file].hash, target).Some?;
            Run(s, ResolveSteps(c, id, u, found) + [CommitMove(c)] + FollowUp(FreedInMove(s.db, id, target, u)))
            == s.(db := Move(s.db, id, target, u).0)
  {
    hide SystemInv;
    MoveGoesThrough(s, c, id, target, u);
    hide Run, Apply, FindFile, Commit, Resolve, SystemInv, CanMove;
    var job := TheJob(s, id, target, u);
    var steps := ResolveSteps(c, id, u, FindFile(s.db, job.row.hash, target).Some?);
    var (db, file) := Resolve(s.db, job.row, target);
    ResolvedBySteps(s, c, id, target, u);
    OneMore(s, steps, CommitMove(c));
    Committed(s, db, c, job, file.value);
    Sent(s, Commit(db, id, job.from, file.value, u).0, steps + [CommitMove(c)], FreedInMove(s.db, id, target, u));
  }

  /** The steps up to the commit end with the row that Resolve returns, and the tables it leaves. */
  lemma ResolvedBySteps(s: System, c: CallId, id: ImageId, target: Visibility, u: Updates)
    requires CanMove(s, c, id, target, u)
    ensures var job := TheJob(s, id, target, u);
            var (db, file) := Resolve(s.db, job.row, target);
            && file.Some?
            && Run(s, ResolveSteps(c, id, u, FindFile(s.db, job.row.hash, target).Some?))
               == Advance(s, c, Resolved(job, file.value)).(db := db)
  {
    hide Run, Apply, FindFile, CountersAhead;
    var job := TheJob(s, id, target, u);
    var first := [BeginUpdate(c, id, u), LoadRow(c), Lookup(c)];
    LookedUp(s, c, id, target, u);
    if FindFile(s.db, job.row.hash, target).Some? {
      assert first + [] == first;
    } else {
      OneMore(s, first, CopyOver(c, true, true));
      OneMore(s, first + [CopyOver(c, true, true)], Create(c, true, true));
      assert first + [CopyOver(c, true, true)] + [Create(c, true, true)]
             == first + [CopyOver(c, true, true), Create(c, true, true)];
      CopiedAndCreated(s, c, job);
    }
  }

  lemma SendOne(s: System, moved: State, path: Path)
    requires path !in s.unsent
    ensures Apply(s.(db := moved, unsent := s.unsent + {path}), Enqueue(path, true))
            == s.(db := moved.(queue := moved.queue + {path}))
  {
    assert s.unsent + {path} - {path} == s.unsent;
  }

  lemma SendNone(s: System, moved: State)
    ensures s.(db := moved, unsent := s.unsent + {}) == s.(db := moved.(queue := moved.queue + {}))
  {
    assert s.unsent + {} == s.unsent && moved.queue + {} == moved.queue;
  }

  /** The enqueue after the commit moves the freed path from unsent to the queue. */
  lemma Sent(s: System, moved: State, steps: seq<Event>, freed: Option<Path>)
    requires Run(s, steps) == s.(db := moved, unsent := s.unsent + Freed(freed))
    requires freed.Some? ==> freed.value !in s.unsent
    ensures Run(s, steps + FollowUp(freed)) == s.(db := moved.(queue := moved.queue + Freed(freed)))
  {
    hide Run, Apply;
    if freed.Some? {
      OneMore(s, steps, Enqueue(freed.value, true));
      SendOne(s, moved, freed.value);
    } else {
      assert steps + [] == steps;
      SendNone(s, moved);
    }
  }
}
