/**
  Hard deletion of images: the purge transaction, batches of it, and what they do to
  reference counts, quotas and physical objects.
 */
module Purge {
  import opened Prelude
  import opened StoreState

  /** What one purge did: nothing, rolled back, or removed the image and kept or freed its file. */
  datatype Outcome = Skipped | Failed | FileKept | FileFreed(path: Path)

  /** The refund, clamped at zero as the UPDATE does. */
  function Refund(used: int, size: nat): int
  {
    if used >= size then used - size else 0
  }

  function RefundOwner(users: map<UserId, int>, owner: Option<UserId>, size: nat): map<UserId, int>
  {
    if owner.Some? && owner.value in users then users[owner.value := Refund(users[owner.value], size)] else users
  }

  /** One reference less; the row goes when none is left. */
  function DropRef(files: map<FileId, File>, f: FileId): map<FileId, File>
  {
    if f !in files then files
    else if files[f].refCount - 1 <= 0 then files - {f}
    else files[f := files[f].(refCount := files[f].refCount - 1)]
  }

  /**
    The purge transaction for image `id`, run with `snap`, the caller's copy of the row.
    Only the gate on the trash looks at the stored row; owner and file come from the copy.
   */
  function PurgeOne(s: State, id: ImageId, snap: Image): (r: (State, Outcome))
  {
    if id !in s.images || !s.images[id].trashed then (s, Skipped)
    else if snap.file !in s.files then (s, Failed)
    else
      var f := s.files[snap.file];
      var t := s.(images := s.images - {id},
                  users := RefundOwner(s.users, snap.user, f.size),
                  files := DropRef(s.files, snap.file));
      (t, if snap.file in t.files then FileKept else FileFreed(f.path))
  }

  /** A copy of an image row is current when it names the row's present file and owner. */
  predicate Current(s: State, id: ImageId, snap: Image)
  {
    id in s.images ==> snap.file == s.images[id].file && snap.user == s.images[id].user
  }

  /** The purge will really remove the image, using a current copy of its row. */
  predicate WillPurge(s: State, id: ImageId, snap: Image)
  {
    && id in s.images && s.images[id].trashed
    && snap.file == s.images[id].file && snap.user == s.images[id].user
    && snap.file in s.files
  }

  /** The other rows, their originals and the counters. */
  lemma PurgeKeepsRows(s: State, id: ImageId, snap: Image)
    requires WillPurge(s, id, snap)
    requires PathsDistinct(s) && HashSurfaceUnique(s) && FilesBacked(s) && CountersAhead(s)
    ensures var t := PurgeOne(s, id, snap).0;
            PathsDistinct(t) && HashSurfaceUnique(t) && FilesBacked(t) && CountersAhead(t)
  {
    hide RefundOwner;
    var t := PurgeOne(s, id, snap).0;
    assert forall f :: f in t.files ==> f in s.files && SameSlot(t.files[f], s.files[f]);
  }

  lemma PurgeKeepsCounts(s: State, id: ImageId, snap: Image)
    requires WillPurge(s, id, snap) && RefsExact(s)
    ensures RefsExact(PurgeOne(s, id, snap).0)
  {
    var t := PurgeOne(s, id, snap).0;
    forall f | f in t.files
      ensures t.files[f].refCount == |Refs(t.images, f)|
    {
      RefsAfterRemoval(s.images, id, f);
    }
  }

  /** A file goes exactly when its last reference went. */
  lemma FreedIffNoRefs(s: State, id: ImageId, snap: Image)
    requires WillPurge(s, id, snap) && RefsExact(s)
    ensures var t := PurgeOne(s, id, snap).0;
            snap.file !in t.files <==> Refs(t.images, snap.file) == {}
  {
    RefsAfterRemoval(s.images, id, snap.file);
    var t := PurgeOne(s, id, snap).0;
    assert |Refs(t.images, snap.file)| == 0 <==> Refs(t.images, snap.file) == {};
  }

  lemma PurgeKeepsFilesPresent(s: State, id: ImageId, snap: Image)
    requires WillPurge(s, id, snap) && RefsExact(s) && FilesPresent(s)
    ensures FilesPresent(PurgeOne(s, id, snap).0)
  {
    FreedIffNoRefs(s, id, snap);
    var t := PurgeOne(s, id, snap).0;
    forall i | i in t.images
      ensures t.images[i].file in t.files
    {
      assert t.images[i].file == snap.file ==> i in Refs(t.images, snap.file);
    }
  }

  lemma PurgeKeepsQuotas(s: State, id: ImageId, snap: Image)
    requires WillPurge(s, id, snap) && RefsExact(s) && FilesPresent(s) && QuotasExact(s)
    ensures QuotasExact(PurgeOne(s, id, snap).0)
  {
    hide RefsExact;
    var t := PurgeOne(s, id, snap).0;
    PurgeKeepsFilesPresent(s, id, snap);
    assert forall i :: i in t.images ==> SizeOf(t.files, t.images[i].file) == SizeOf(s.files, s.images[i].file);
    forall u | u in t.users
      ensures t.users[u] == Usage(t, u)
    {
      UsageAfterRemoval(s, t, id, u);
    }
  }

  /** One purge with a current copy keeps the whole store consistent. */
  lemma PurgeOneKeepsInv(s: State, id: ImageId, snap: Image)
    requires Inv(s) && Current(s, id, snap)
    ensures Inv(PurgeOne(s, id, snap).0)
    ensures PurgeOne(s, id, snap).1 != Failed
  {
    hide RefsExact, QuotasExact, Usage, PathsDistinct, HashSurfaceUnique, FilesBacked, CountersAhead;
    if WillPurge(s, id, snap) {
      PurgeKeepsRows(s, id, snap);
      PurgeKeepsCounts(s, id, snap);
      PurgeKeepsFilesPresent(s, id, snap);
      PurgeKeepsQuotas(s, id, snap);
    }
  }

  /** The clamp at zero never takes effect, and a second purge of the same image refunds nothing. */
  lemma RefundIsExactAndOnce(s: State, id: ImageId, snap: Image, u: UserId)
    requires FilesPresent(s) && QuotasExact(s) && WillPurge(s, id, snap) && snap.user == Some(u)
    ensures var t := PurgeOne(s, id, snap).0;
            && t.users[u] == s.users[u] - s.files[snap.file].size
            && t.users[u] >= 0
            && PurgeOne(t, id, snap) == (t, Skipped)
  {
    ImageWithinUsage(s, id, u);
  }

  /**
    Callers that read the row before their transaction may hold an old file id. Whatever copy is used,
    reference counts stay exact if and only if the purge does nothing or the copy's file is current.
   */
  lemma StaleCopyKeepsCountsIff(s: State, id: ImageId, snap: Image)
    requires Inv(s)
    ensures RefsExact(PurgeOne(s, id, snap).0)
            <==> (id !in s.images || !s.images[id].trashed || snap.file !in s.files || snap.file == s.images[id].file)
  {
    hide Refs;
    var t := PurgeOne(s, id, snap).0;
    if id in s.images && s.images[id].trashed && snap.file in s.files {
      if snap.file == s.images[id].file {
        PurgeOneKeepsInv(s, id, s.images[id]);
        assert t.images == PurgeOne(s, id, s.images[id]).0.images;
        assert t.files == PurgeOne(s, id, s.images[id]).0.files;
      } else {
        var g := s.images[id].file;
        RefsAfterRemoval(s.images, id, g);
        assert g in t.files && t.files[g].refCount == |Refs(t.images, g)| + 1;
      }
    }
  }

  /** Whatever copy of the row is used, the clamp keeps every total at zero or above. */
  lemma RefundNeverNegative(s: State, id: ImageId, snap: Image)
    requires forall u :: u in s.users ==> s.users[u] >= 0
    ensures var t := PurgeOne(s, id, snap).0;
            && t.users.Keys == s.users.Keys
            && (forall u :: u in t.users ==> 0 <= t.users[u] <= s.users[u])
            && (forall u :: u in t.users && snap.user != Some(u) ==> t.users[u] == s.users[u])
  {
    hide DropRef;
  }

  // ----- batches: one transaction that purges a list of images -----

  /** Purges `ids` in order with the rows read at the start of the transaction; collects what was freed. */
  function PurgeAll(s: State, ids: seq<ImageId>, rows: map<ImageId, Image>): (r: (State, seq<Path>))
    requires forall id :: id in ids ==> id in rows
  {
    if ids == [] then (s, [])
    else
      var n := |ids| - 1;
      var (t, freed) := PurgeAll(s, ids[..n], rows);
      var (u, o) := PurgeOne(t, ids[n], rows[ids[n]]);
      (u, if o.FileFreed? then freed + [o.path] else freed)
  }

  /** The references to f among the images in `gone`. */
  function Share(images: map<ImageId, Image>, f: FileId, gone: set<ImageId>): set<ImageId>
  {
    Refs(images, f) * gone
  }

  /** Removing exactly `gone` takes away f's last reference. */
  predicate LosesAll(images: map<ImageId, Image>, f: FileId, gone: set<ImageId>)
  {
    Refs(images, f) != {} && Refs(images, f) <= gone
  }

  /** The file table with every reference from `gone` removed; files left without any are dropped. */
  function FilesWithout(s: State, gone: set<ImageId>): map<FileId, File>
  {
    map f | f in s.files && !LosesAll(s.images, f, gone)
      :: s.files[f].(refCount := s.files[f].refCount - |Share(s.images, f, gone)|)
  }

  /** The originals of the files that lose their last reference. */
  function PathsFreed(s: State, gone: set<ImageId>): set<Path>
  {
    set f | f in s.files && LosesAll(s.images, f, gone) :: s.files[f].path
  }

  predicate OwnsNone(images: map<ImageId, Image>, u: UserId, gone: set<ImageId>)
  {
    forall i :: i in gone && i in images ==> images[i].user != Some(u)
  }

  /** `t` is `s` with exactly the images in `gone` purged, and `freed` lists their orphaned originals. */
  ghost predicate Purged(s: State, gone: set<ImageId>, t: State, freed: seq<Path>)
  {
    && t.images == s.images - gone
    && t.files == FilesWithout(s, gone)
    && t.users.Keys == s.users.Keys
    && (forall u :: u in s.users && OwnsNone(s.images, u, gone) ==> t.users[u] == s.users[u])
    && Elements(freed) == PathsFreed(s, gone) && NoDuplicates(freed)
    && t == s.(images := t.images, files := t.files, users := t.users)
  }

  lemma SharePlusOne(images: map<ImageId, Image>, f: FileId, gone: set<ImageId>, id: ImageId)
    requires id in images && id !in gone
    ensures images[id].file != f ==> Share(images, f, gone + {id}) == Share(images, f, gone)
    ensures |Share(images, f, gone + {id})| == |Share(images, f, gone)| + (if images[id].file == f then 1 else 0)
  {
    if images[id].file == f {
      assert Share(images, f, gone + {id}) == Share(images, f, gone) + {id};
    } else {
      assert Share(images, f, gone + {id}) == Share(images, f, gone);
    }
  }

  lemma RefsOfRemaining(images: map<ImageId, Image>, f: FileId, gone: set<ImageId>)
    ensures Refs(images - gone, f) == Refs(images, f) - gone
    ensures |Refs(images - gone, f)| == |Refs(images, f)| - |Share(images, f, gone)|
  {
    assert Refs(images, f) == (Refs(images, f) - gone) + Share(images, f, gone);
  }

  /** Losing one more reference can only cost a file its row when it was the last one. */
  lemma LosesAllOneMore(images: map<ImageId, Image>, f: FileId, gone: set<ImageId>, id: ImageId)
    requires id in images && id !in gone
    ensures images[id].file != f ==> (LosesAll(images, f, gone + {id}) <==> LosesAll(images, f, gone))
    ensures images[id].file == f ==> !LosesAll(images, f, gone)
    ensures images[id].file == f ==>
              (LosesAll(images, f, gone + {id}) <==> |Refs(images, f)| - |Share(images, f, gone)| == 1)
  {
    if images[id].file == f {
      assert id in Refs(images, f);
      SharePlusOne(images, f, gone, id);
      RefsOfRemaining(images, f, gone + {id});
      assert |Refs(images - (gone + {id}), f)| == 0 <==> Refs(images, f) - (gone + {id}) == {};
    } else {
      assert id !in Refs(images, f);
    }
  }

  /** Dropping one more reference, seen at one file row. */
  lemma RowWithoutOneMore(s: State, gone: set<ImageId>, id: ImageId, f: FileId)
    requires RefsExact(s) && id in s.images && id !in gone && f in s.files && s.images[id].file in s.files
    ensures var have := DropRef(FilesWithout(s, gone), s.images[id].file);
            var want := FilesWithout(s, gone + {id});
            (f in have <==> f in want) && (f in want ==> have[f] == want[f])
  {
    hide Refs, Share;
    var file := s.images[id].file;
    LosesAllOneMore(s.images, f, gone, id);
    SharePlusOne(s.images, f, gone, id);
    if f == file {
      var left := |Refs(s.images, f)| - |Share(s.images, f, gone)|;
      assert FilesWithout(s, gone)[f].refCount == left;
      assert f in FilesWithout(s, gone + {id}) <==> left != 1;
      RefsOfRemaining(s.images, f, gone + {id});
    }
  }

  lemma FilesWithoutOneMore(s: State, gone: set<ImageId>, id: ImageId)
    requires RefsExact(s) && id in s.images && id !in gone && s.images[id].file in s.files
    ensures s.images[id].file in FilesWithout(s, gone)
    ensures DropRef(FilesWithout(s, gone), s.images[id].file) == FilesWithout(s, gone + {id})
  {
    var have, want := DropRef(FilesWithout(s, gone), s.images[id].file), FilesWithout(s, gone + {id});
    forall f | f in s.files
      ensures (f in have <==> f in want) && (f in want ==> have[f] == want[f])
    {
      RowWithoutOneMore(s, gone, id, f);
    }
    assert have.Keys == want.Keys;
    LosesAllOneMore(s.images, s.images[id].file, gone, id);
  }

  lemma PathsFreedOneMore(s: State, gone: set<ImageId>, id: ImageId)
    requires PathsDistinct(s) && id in s.images && id !in gone && s.images[id].file in s.files
    ensures s.files[s.images[id].file].path !in PathsFreed(s, gone)
    ensures PathsFreed(s, gone + {id})
            == PathsFreed(s, gone)
               + (if LosesAll(s.images, s.images[id].file, gone + {id}) then {s.files[s.images[id].file].path} else {})
  {
    forall f | f in s.files
      ensures f != s.images[id].file ==> (LosesAll(s.images, f, gone + {id}) <==> LosesAll(s.images, f, gone))
    {
      LosesAllOneMore(s.images, f, gone, id);
    }
    LosesAllOneMore(s.images, s.images[id].file, gone, id);
  }

  lemma FreedExtends(s: State, gone: set<ImageId>, freed: seq<Path>, id: ImageId)
    requires RefsExact(s) && PathsDistinct(s) && id in s.images && id !in gone && s.images[id].file in s.files
    requires Elements(freed) == PathsFreed(s, gone) && NoDuplicates(freed)
    ensures var file := s.images[id].file;
            var more := if file in FilesWithout(s, gone + {id}) then freed else freed + [s.files[file].path];
            Elements(more) == PathsFreed(s, gone + {id}) && NoDuplicates(more)
  {
    var path := s.files[s.images[id].file].path;
    PathsFreedOneMore(s, gone, id);
    assert path !in freed;
    AppendElement(freed, path);
  }

  lemma UsersExtend(s: State, gone: set<ImageId>, users: map<UserId, int>, id: ImageId, size: nat)
    requires id in s.images && users.Keys == s.users.Keys
    requires forall u :: u in s.users && OwnsNone(s.images, u, gone) ==> users[u] == s.users[u]
    ensures var more := RefundOwner(users, s.images[id].user, size);
            && more.Keys == s.users.Keys
            && forall u :: u in s.users && OwnsNone(s.images, u, gone + {id}) ==> more[u] == s.users[u]
  {
    var more := RefundOwner(users, s.images[id].user, size);
    forall u | u in s.users && OwnsNone(s.images, u, gone + {id})
      ensures more[u] == s.users[u]
    {
      assert id in gone + {id};
      assert forall i :: i in gone ==> i in gone + {id};
      assert OwnsNone(s.images, u, gone);
    }
  }

  /** Extending a purged batch by one more trashed image. */
  lemma PurgedExtends(s: State, gone: set<ImageId>, t: State, freed: seq<Path>, id: ImageId)
    requires FilesPresent(s) && RefsExact(s) && PathsDistinct(s) && Purged(s, gone, t, freed)
    requires id in s.images && id !in gone && s.images[id].trashed
    ensures var (u, o) := PurgeOne(t, id, s.images[id]);
            Purged(s, gone + {id}, u, if o.FileFreed? then freed + [o.path] else freed)
  {
    hide PathsFreed, LosesAll, Share;
    var file := s.images[id].file;
    assert file in s.files;
    FilesWithoutOneMore(s, gone, id);
    FreedExtends(s, gone, freed, id);
    UsersExtend(s, gone, t.users, id, t.files[file].size);
    assert t.files[file].path == s.files[file].path;
    assert s.images - gone - {id} == s.images - (gone + {id});
    var (u, o) := PurgeOne(t, id, s.images[id]);
    assert o == if file in FilesWithout(s, gone + {id}) then FileKept else FileFreed(s.files[file].path);
    assert u == t.(images := s.images - (gone + {id}), files := FilesWithout(s, gone + {id}), users := u.users);
  }

  /** Nothing purged yet. */
  lemma PurgedNothing(s: State)
    ensures Purged(s, {}, s, [])
  {
    assert forall f :: !LosesAll(s.images, f, {}) && Share(s.images, f, {}) == {};
    assert s.images - {} == s.images;
    assert FilesWithout(s, {}) == s.files;
    assert PathsFreed(s, {}) == {};
  }

  /**
    The closed form, row by row: a file stays if an image outside `gone` points at it, or if none ever did, and counts
    the images outside that point at it; the originals freed are those of the files that go.
   */
  lemma WithoutMeans(s: State, gone: set<ImageId>, f: FileId)
    requires RefsExact(s)
    ensures f in FilesWithout(s, gone) <==>
            && f in s.files
            && ((exists i :: i in s.images && i !in gone && s.images[i].file == f)
                || (forall i :: i in s.images ==> s.images[i].file != f))
    ensures f in FilesWithout(s, gone) ==>
              FilesWithout(s, gone)[f]
              == s.files[f].(refCount := |set i | i in s.images && i !in gone && s.images[i].file == f|)
    ensures f in s.files && f !in FilesWithout(s, gone) ==> s.files[f].path in PathsFreed(s, gone)
  {
    hide Share, LosesAll, Refs;
    LosesAllMeans(s.images, f, gone);
    RefsOfRemaining(s.images, f, gone);
    assert Refs(s.images - gone, f) == set i | i in s.images && i !in gone && s.images[i].file == f by {
      RemainingRefs(s.images, f, gone);
    }
  }

  lemma LosesAllMeans(images: map<ImageId, Image>, f: FileId, gone: set<ImageId>)
    ensures LosesAll(images, f, gone) <==>
            && (exists i :: i in images && images[i].file == f)
            && (forall i :: i in images && images[i].file == f ==> i in gone)
  {
    assert forall i :: i in Refs(images, f) <==> i in images && images[i].file == f;
  }

  lemma RemainingRefs(images: map<ImageId, Image>, f: FileId, gone: set<ImageId>)
    ensures Refs(images - gone, f) == set i | i in images && i !in gone && images[i].file == f
  {
  }

  /** A batch leaves rows outside it alone. */
  lemma {:induction false} PurgeAllKeepsRows(s: State, ids: seq<ImageId>, id: ImageId)
    requires forall i :: i in ids ==> i in s.images
    ensures var t := PurgeAll(s, ids, s.images).0;
            && (id in t.images ==> id in s.images && t.images[id] == s.images[id])
            && (id in s.images && id !in ids ==> id in t.images)
  {
    if ids != [] {
      DropLastElement(ids);
      PurgeAllKeepsRows(s, ids[..|ids| - 1], id);
    }
  }

  lemma {:induction false} PurgeAllKeepsInv(s: State, ids: seq<ImageId>)
    requires Inv(s)
    requires forall id :: id in ids ==> id in s.images
    ensures Inv(PurgeAll(s, ids, s.images).0)
  {
    if ids != [] {
      var n := |ids| - 1;
      PurgeAllKeepsInv(s, ids[..n]);
      PurgeAllKeepsRows(s, ids[..n], ids[n]);
      PurgeOneKeepsInv(PurgeAll(s, ids[..n], s.images).0, ids[n], s.images[ids[n]]);
    }
  }

  /**
    Purging a duplicate-free list of trashed images removes exactly them, lowers every file's count by
    exactly their share, frees exactly the files that lose all references, and touches no other user.
   */
  lemma {:induction false} PurgeAllIsExact(s: State, ids: seq<ImageId>)
    requires FilesPresent(s) && RefsExact(s) && PathsDistinct(s) && NoDuplicates(ids)
    requires forall id :: id in ids ==> id in s.images && s.images[id].trashed
    ensures Purged(s, Elements(ids), PurgeAll(s, ids, s.images).0, PurgeAll(s, ids, s.images).1)
  {
    if ids == [] {
      PurgedNothing(s);
      assert Elements(ids) == {};
    } else {
      var n := |ids| - 1;
      DropLastElement(ids);
      PurgeAllIsExact(s, ids[..n]);
      var (t, freed) := PurgeAll(s, ids[..n], s.images);
      PurgedExtends(s, Elements(ids[..n]), t, freed, ids[n]);
    }
  }
}
