/**
  Moving an image to a file on the other surface: find or create a file row with the same
  content there, then re-point the image under a compare-and-swap on its file.
 */
module Rehome {
  import opened Prelude
  import opened StoreState
  import opened Purge

  /** The columns written together with the new file. */
  datatype Updates = Updates(visibility: Option<Visibility>, album: Option<Option<AlbumId>>)

  function Updated(img: Image, u: Updates): Image
  {
    img.(visibility := if u.visibility.Some? then u.visibility.value else img.visibility,
         album := if u.album.Some? then u.album.value else img.album)
  }

  /** The row of content `hash` on `target`, when there is one. */
  ghost function FindFile(s: State, hash: Content, target: Visibility): (r: Option<FileId>)
    ensures r.Some? ==> r.value in s.files && InSlot(s.files[r.value], hash, target)
    ensures r.None? ==> forall f :: f in s.files ==> !InSlot(s.files[f], hash, target)
  {
    if f :| f in s.files && InSlot(s.files[f], hash, target) then Some(f) else None
  }

  predicate InSlot(f: File, hash: Content, target: Visibility)
  {
    f.hash == hash && f.surface == On(target)
  }

  /** Stores content under a fresh name. */
  function PutObject(s: State, prefix: Visibility, content: Content): (State, Path)
  {
    var path := Path(prefix, s.nextName);
    (s.(objects := s.objects[path := content], nextName := s.nextName + 1), path)
  }

  /** A new row, not yet referenced, for the copied object. */
  function CreateRow(s: State, row: File, target: Visibility, path: Path): (State, FileId)
  {
    (s.(files := s.files[s.nextFile := File(row.hash, On(target), path, row.size, 0)], nextFile := s.nextFile + 1),
     s.nextFile)
  }

  function DeleteObject(s: State, path: Path): State
  {
    s.(objects := s.objects - {path})
  }

  datatype CommitOutcome = Conflict | TargetGone | Moved(freed: Option<Path>)

  /** One reference more; the row must exist. */
  function AddRef(files: map<FileId, File>, f: FileId): map<FileId, File>
    requires f in files
  {
    files[f := files[f].(refCount := files[f].refCount + 1)]
  }

  /** The re-pointing transaction: live image, still on `from`, target row still there, else nothing. */
  function Commit(s: State, id: ImageId, from: FileId, target: FileId, u: Updates): (r: (State, CommitOutcome))
  {
    if id !in s.images || s.images[id].trashed || s.images[id].file != from then (s, Conflict)
    else if target !in s.files then (s, TargetGone)
    else
      var files := DropRef(AddRef(s.files, target), from);
      (s.(images := s.images[id := Updated(s.images[id], u).(file := target)], files := files),
       Moved(if from in s.files && from !in files then Some(s.files[from].path) else None))
  }

  // ----- what each transaction keeps -----

  /** The image links (owner and file) of s and t agree, and so does everything but the image table. */
  ghost predicate SameLinks(s: State, t: State)
  {
    && t == s.(images := t.images)
    && t.images.Keys == s.images.Keys
    && (forall i :: i in s.images ==> t.images[i].file == s.images[i].file && t.images[i].user == s.images[i].user)
  }

  /** Trashing, restoring, renaming, moving between albums: nothing that counts references notices. */
  lemma SameLinksKeepsInv(s: State, t: State)
    requires Inv(s) && SameLinks(s, t)
    ensures Inv(t)
  {
    forall f | f in t.files
      ensures Refs(t.images, f) == Refs(s.images, f)
    {
    }
    assert RefsExact(t);
    forall u | u in t.users
      ensures Usage(t, u) == Usage(s, u)
    {
      UsageUnchanged(s, t, u);
    }
    assert QuotasExact(t);
  }

  /** The commit will really move the image. */
  predicate WillMove(s: State, id: ImageId, from: FileId, target: FileId)
  {
    && id in s.images && !s.images[id].trashed && s.images[id].file == from
    && from in s.files && target in s.files
  }

  lemma MoveKeepsCounts(s: State, id: ImageId, from: FileId, target: FileId, u: Updates)
    requires WillMove(s, id, from, target) && RefsExact(s)
    ensures RefsExact(Commit(s, id, from, target, u).0)
  {
    var t := Commit(s, id, from, target, u).0;
    forall f | f in t.files
      ensures t.files[f].refCount == |Refs(t.images, f)|
    {
      RefsAfterUpdate(s.images, id, t.images[id], f);
    }
  }

  lemma MoveKeepsFilesPresent(s: State, id: ImageId, from: FileId, target: FileId, u: Updates)
    requires WillMove(s, id, from, target) && RefsExact(s) && FilesPresent(s)
    ensures FilesPresent(Commit(s, id, from, target, u).0)
  {
    var t := Commit(s, id, from, target, u).0;
    assert target in t.files by {
      assert id in Refs(s.images, from);
    }
    RefsAfterUpdate(s.images, id, t.images[id], from);
    forall i | i in t.images && i != id
      ensures t.images[i].file in t.files
    {
      assert t.images[i].file == from ==> i in Refs(t.images, from);
    }
  }

  lemma MoveKeepsQuotas(s: State, id: ImageId, from: FileId, target: FileId, u: Updates)
    requires WillMove(s, id, from, target) && RefsExact(s) && FilesPresent(s) && QuotasExact(s)
    requires s.files[from].size == s.files[target].size
    ensures QuotasExact(Commit(s, id, from, target, u).0)
  {
    hide Usage, RefsExact;
    var t := Commit(s, id, from, target, u).0;
    MoveKeepsFilesPresent(s, id, from, target, u);
    assert id in t.images && t.images[id].file == target;
    assert t.files[target].size == s.files[target].size;
    assert forall i :: i in t.images ==> SizeOf(t.files, t.images[i].file) == SizeOf(s.files, s.images[i].file);
    forall v | v in t.users
      ensures t.users[v] == Usage(t, v)
    {
      UsageUnchanged(s, t, v);
    }
  }

  /** The surviving rows of a commit differ from the old ones in their count only. */
  lemma MoveKeepsRows(s: State, id: ImageId, from: FileId, target: FileId, u: Updates)
    ensures var t := Commit(s, id, from, target, u).0;
            && (forall f :: f in t.files ==> f in s.files && SameRow(t.files[f], s.files[f]))
            && t == s.(images := t.images, files := t.files)
  {
  }

  /** Equal in everything but the reference count. */
  predicate SameRow(a: File, b: File)
  {
    a == b.(refCount := a.refCount)
  }

  /** Fewer rows, otherwise only other counts: what concerns paths, slots and objects is kept. */
  lemma SameRowsKeepObjects(s: State, t: State)
    requires HashSurfaceUnique(s) && FilesBacked(s) && PathsDistinct(s)
    requires t.objects == s.objects && t.queue == s.queue
    requires forall f :: f in t.files ==> f in s.files && SameRow(t.files[f], s.files[f])
    ensures HashSurfaceUnique(t) && FilesBacked(t) && PathsDistinct(t)
  {
    assert HashSurfaceUnique(t);
    assert PathsDistinct(t);
  }

  lemma CommitKeepsInv(s: State, id: ImageId, from: FileId, target: FileId, u: Updates)
    requires Inv(s)
    requires from in s.files && target in s.files ==> s.files[from].hash == s.files[target].hash
    ensures Inv(Commit(s, id, from, target, u).0)
  {
    hide RefsExact, HashSurfaceUnique, PathsDistinct;
    var t := Commit(s, id, from, target, u).0;
    if WillMove(s, id, from, target) {
      assert Backed(s, s.files[from]) && Backed(s, s.files[target]);
      MoveKeepsCounts(s, id, from, target, u);
      MoveKeepsFilesPresent(s, id, from, target, u);
      MoveKeepsQuotas(s, id, from, target, u);
      MoveKeepsRows(s, id, from, target, u);
      SameRowsKeepObjects(s, t);
      assert CountersAhead(t);
    } else {
      assert t == s;
    }
  }

  /** Objects and queue may change as long as the rows stay backed; no count or quota notices. */
  lemma SameTablesKeepInv(s: State, t: State)
    requires Inv(s)
    requires t.images == s.images && t.files == s.files && t.users == s.users
    requires FilesBacked(t) && CountersAhead(t)
    ensures Inv(t)
  {
    assert forall u :: Sizes(t, u) == Sizes(s, u);
  }

  /** A path that no row claims. */
  predicate Unclaimed(s: State, path: Path)
  {
    forall f :: f in s.files ==> s.files[f].path != path
  }

  /** A new object at a fresh path disturbs nothing. */
  lemma PutKeepsInv(s: State, prefix: Visibility, content: Content)
    requires Inv(s)
    ensures var (t, path) := PutObject(s, prefix, content);
            Inv(t) && path !in s.objects && path !in t.queue && Unclaimed(t, path)
  {
    var (t, path) := PutObject(s, prefix, content);
    assert forall f :: f in t.files ==> Backed(s, s.files[f]) && Backed(t, t.files[f]);
    SameTablesKeepInv(s, t);
  }

  lemma CreateKeepsQuotas(s: State, row: File, target: Visibility, path: Path)
    requires CountersAhead(s) && FilesPresent(s) && QuotasExact(s)
    ensures QuotasExact(CreateRow(s, row, target, path).0)
  {
    hide Usage;
    var t := CreateRow(s, row, target, path).0;
    forall u | u in t.users
      ensures t.users[u] == Usage(t, u)
    {
      UsageUnchanged(s, t, u);
    }
  }

  /** A row for an object that no row claims yet, in a slot that no row takes yet. */
  lemma CreateKeepsInv(s: State, row: File, target: Visibility, path: Path)
    requires Inv(s)
    requires FindFile(s, row.hash, target).None?
    requires path in s.objects && s.objects[path] == row.hash && row.size == |row.hash|
    requires path.prefix == target && path !in s.queue
    requires Unclaimed(s, path)
    ensures Inv(CreateRow(s, row, target, path).0)
  {
    hide FindFile, QuotasExact;
    var (t, made) := CreateRow(s, row, target, path);
    CreateKeepsQuotas(s, row, target, path);
    assert Refs(t.images, made) == {};
    assert FilesBacked(t);
    assert HashSurfaceUnique(t);
    assert PathsDistinct(t);
    assert FilesPresent(t);
    assert RefsExact(t);
  }

  /** Deleting an object that no row claims, such as a queued one. */
  lemma DeleteObjectKeepsInv(s: State, path: Path)
    requires Inv(s) && Unclaimed(s, path)
    ensures Inv(DeleteObject(s, path))
  {
    var t := DeleteObject(s, path);
    assert forall f :: f in t.files ==> Backed(s, s.files[f]) && Backed(t, t.files[f]);
    SameTablesKeepInv(s, t);
  }

  /** Queueing paths that no row claims. */
  lemma QueueKeepsInv(s: State, queue: set<Path>)
    requires Inv(s)
    requires forall p :: p in queue ==> p.name < s.nextName && Unclaimed(s, p)
    ensures Inv(s.(queue := queue))
  {
    var t := s.(queue := queue);
    assert forall f :: f in t.files ==> Backed(s, s.files[f]) && Backed(t, t.files[f]);
    SameTablesKeepInv(s, t);
  }
}
