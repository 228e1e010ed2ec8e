/** What the steps that fail, compensate or give up leave behind, said of tables, objects and queue. */
module RequestEffects {
  import opened Prelude
  import opened StoreState
  import opened Rehome
  import opened StoreRuns

  /** Only another row on the target surface with the same content wins the race for it. */
  predicate Taken(db: State, content: Content, target: Visibility)
  {
    exists f :: f in db.files && db.files[f].hash == content && db.files[f].surface == On(target)
  }

  /**
    The row for a copied object. If the slot was taken meanwhile the request goes on with a row of that slot, and if
    the insert fails it ends; in both cases its copy is deleted, or, when even that fails, recorded as lost. Otherwise
    the row is there, without references yet, and the request goes on with it. Image rows never change.
   */
  lemma CreateEffect(s: System, c: CallId, ok: bool, undone: bool)
    requires SystemInv(s) && c in s.calls && s.calls[c].Copied?
    ensures var job, path, t := s.calls[c].job, s.calls[c].path, ApplyCreate(s, c, ok, undone);
            && t.db.images == s.db.images && t.db.users == s.db.users && t.db.queue == s.db.queue
            && (Taken(s.db, job.row.hash, job.target) ==>
                  && c in t.calls && t.calls[c].Resolved? && t.calls[c].job == job && t.calls[c].file in s.db.files
                  && s.db.files[t.calls[c].file].hash == job.row.hash
                  && s.db.files[t.calls[c].file].surface == On(job.target))
            && (Taken(s.db, job.row.hash, job.target) || !ok ==>
                  && t.db.files == s.db.files
                  && (if undone then t.db.objects == s.db.objects - {path} && t.lossy == s.lossy
                      else t.db.objects == s.db.objects && t.lossy))
            && (!Taken(s.db, job.row.hash, job.target) && !ok ==> c !in t.calls)
            && (!Taken(s.db, job.row.hash, job.target) && ok ==>
                  && t.db.objects == s.db.objects && t.lossy == s.lossy
                  && c in t.calls && t.calls[c] == Resolved(job, s.db.nextFile)
                  && t.db.files == s.db.files[s.db.nextFile :=
                                                File(job.row.hash, On(job.target), path, job.row.size, 0)])
  {
    hide Inv, HoldersDistinct, UnsentOk, NothingLeaks, CallsOk, FindFile;
    var job := s.calls[c].job;
    assert FindFile(s.db, job.row.hash, job.target).None? <==> !Taken(s.db, job.row.hash, job.target) by {
      if f :| f in s.db.files && s.db.files[f].hash == job.row.hash && s.db.files[f].surface == On(job.target) {
        assert InSlot(s.db.files[f], job.row.hash, job.target);
      }
    }
  }

  /**
    Copying over. Without the source object the request ends. When the thumbnail cannot be written the copy is taken
    back, or recorded as lost; otherwise the copy holds the row's content under a name nobody used.
   */
  lemma CopyEffect(s: System, c: CallId, thumbnail: bool, undone: bool)
    requires SystemInv(s) && c in s.calls && s.calls[c].Missed?
    ensures var job, t := s.calls[c].job, ApplyCopy(s, c, thumbnail, undone);
            && t.db.images == s.db.images && t.db.files == s.db.files && t.db.users == s.db.users
            && t.db.queue == s.db.queue
            && (job.row.path !in s.db.objects ==> c !in t.calls && t.db == s.db)
            && (job.row.path in s.db.objects && !thumbnail && undone ==>
                  c !in t.calls && t.db.objects == s.db.objects && t.lossy == s.lossy)
            && (job.row.path in s.db.objects && !thumbnail && !undone ==> c !in t.calls && t.lossy)
            && (job.row.path in s.db.objects && thumbnail ==>
                  && c in t.calls && t.calls[c].Copied? && t.calls[c].job == job && t.lossy == s.lossy
                  && t.calls[c].path !in s.db.objects && t.calls[c].path.prefix == job.target
                  && t.db.objects == s.db.objects[t.calls[c].path := job.row.hash])
  {
    hide RefsExact, QuotasExact, PathsDistinct, HashSurfaceUnique, FilesBacked, HoldersDistinct, UnsentOk, NothingLeaks;
    assert CallOk(s.db, s.calls[c]);
    var job := s.calls[c].job;
    if job.row.path in s.db.objects {
      var (db, path) := PutObject(s.db, job.target, s.db.objects[job.row.path]);
      assert path !in s.db.objects;
      assert db.objects - {path} == s.db.objects;
    }
  }

  /** What a request reads first: an update its wish, a repair the image's own visibility. */
  lemma BeginEffect(s: System, c: CallId, id: ImageId, u: Updates)
    requires c !in s.calls && id in s.db.images && !s.db.images[id].trashed
    ensures var img := s.db.images[id];
            && ApplyBegin(s, c, id, NOTHING, true)
               == s.(calls := s.calls[c := Opened(id, img.file, img.visibility, Updates(None, None))])
            && ApplyBegin(s, c, id, u, false)
               == s.(calls := s.calls[c := if u.visibility.Some? then Opened(id, img.file, u.visibility.value, u)
                                           else Plain(id, u)])
  {
  }

  /** A freed original is queued once; when queueing fails it is forgotten, and that is recorded. */
  lemma EnqueueEffect(s: System, path: Path, ok: bool)
    requires path in s.unsent
    ensures var t := ApplyEnqueue(s, path, ok);
            && t.unsent == s.unsent - {path} && t.calls == s.calls
            && t.db == (if ok then s.db.(queue := s.db.queue + {path}) else s.db)
            && t.lossy == (s.lossy || !ok)
  {
  }

  /** A crash ends every request and forgets what was about to be queued; the tables and the queue stay. */
  lemma CrashEffect(s: System)
    ensures var t := Apply(s, Crash);
            t.db == s.db && t.calls == map[] && t.unsent == {} && t.lossy
  {
  }

  /** A deletion task deletes its original or not, and stays queued until it is finished or given up. */
  lemma DeletionEffect(s: System, path: Path, deleted: bool, finished: bool)
    requires path in s.db.queue
    ensures var t := ApplyDeletion(s, path, deleted, finished);
            && t.db.objects == (if deleted then s.db.objects - {path} else s.db.objects)
            && t.db.queue == (if finished then s.db.queue - {path} else s.db.queue)
            && t.lossy == (s.lossy || (finished && !deleted))
            && t.db == s.db.(objects := t.db.objects, queue := t.db.queue)
            && t.calls == s.calls && t.unsent == s.unsent
  {
  }
}
