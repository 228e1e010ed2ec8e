/**
  The scheduled clean-ups: live images that a query found due (expired, or past their group's age) are purged
  or trashed one transaction at a time, each re-checking that the image is still due.
 */
module Cleanup {
  import opened StoreState
  import opened Purge
  import opened Rehome
  import opened AlbumPrivacy

  /** `t` is `s` with exactly the images in `gone` purged and the originals of their orphaned files queued. */
  ghost predicate PurgedAndQueued(s: State, gone: set<ImageId>, t: State)
  {
    && t.images == s.images - gone
    && t.files == FilesWithout(s, gone)
    && t.queue == s.queue + PathsFreed(s, gone)
    && t.users.Keys == s.users.Keys
    && (forall u :: u in s.users && OwnsNone(s.images, u, gone) ==> t.users[u] == s.users[u])
    && t == s.(images := t.images, files := t.files, queue := t.queue, users := t.users)
  }

  lemma NothingPurged(s: State)
    ensures PurgedAndQueued(s, {}, s)
  {
    assert forall f :: !LosesAll(s.images, f, {}) && Share(s.images, f, {}) == {};
    assert s.images - {} == s.images;
    assert FilesWithout(s, {}) == s.files;
    assert PathsFreed(s, {}) == {};
  }

  /** What one administrative purge does to the tables and the queue. */
  lemma PurgeEffect(s: State, id: ImageId)
    requires id in s.images && s.images[id].file in s.files
    ensures var t, file := PerformPurge(s, id), s.images[id].file;
            && t.images == s.images - {id}
            && t.files == DropRef(s.files, file)
            && t.queue == s.queue + (if file in t.files then {} else {s.files[file].path})
            && t.users == RefundOwner(s.users, s.images[id].user, s.files[file].size)
            && t == s.(images := t.images, files := t.files, queue := t.queue, users := t.users)
  {
  }

  /** One more image purged, live or trashed. */
  lemma OneMorePurged(s: State, gone: set<ImageId>, t: State, id: ImageId)
    requires FilesPresent(s) && RefsExact(s) && PathsDistinct(s) && PurgedAndQueued(s, gone, t)
    requires id in s.images && id !in gone
    ensures PurgedAndQueued(s, gone + {id}, PerformPurge(t, id))
  {
    hide LosesAll, Share, OwnsNone, PathsFreed, PerformPurge, DropRef, RefundOwner, RefsExact;
    var file := s.images[id].file;
    FilesWithoutOneMore(s, gone, id);
    PathsFreedOneMore(s, gone, id);
    UsersExtend(s, gone, t.users, id, t.files[file].size);
    OrphanedIff(s, gone + {id}, file);
    PurgeEffect(t, id);
    assert s.images - gone - {id} == s.images - (gone + {id});
  }

  lemma OrphanedIff(s: State, gone: set<ImageId>, f: FileId)
    requires f in s.files
    ensures LosesAll(s.images, f, gone) <==> f !in FilesWithout(s, gone)
  {
  }

  /** The images of a list that are live and due when their turn comes. */
  function DueIn(images: map<ImageId, Image>, order: seq<ImageId>, due: set<ImageId>): set<ImageId>
  {
    set id | id in order && id in images && !images[id].trashed && id in due
  }

  lemma DueInNone(images: map<ImageId, Image>, due: set<ImageId>)
    ensures DueIn(images, [], due) == {}
  {
  }

  lemma DueInOneMore(images: map<ImageId, Image>, order: seq<ImageId>, due: set<ImageId>, id: ImageId)
    requires id !in order
    ensures DueIn(images, order + [id], due)
            == DueIn(images, order, due) + (if id in images && !images[id].trashed && id in due then {id} else {})
    ensures id !in DueIn(images, order, due)
  {
  }

  function Trashed(images: map<ImageId, Image>, gone: set<ImageId>): map<ImageId, Image>
  {
    map i | i in images :: if i in gone then images[i].(trashed := true) else images[i]
  }

  lemma TrashedNone(images: map<ImageId, Image>)
    ensures Trashed(images, {}) == images
  {
  }

  lemma TrashedOneMore(images: map<ImageId, Image>, gone: set<ImageId>, id: ImageId)
    requires id !in gone
    ensures id in images <==> id in Trashed(images, gone)
    ensures id in images ==>
              && Trashed(images, gone)[id] == images[id]
              && Trashed(images, gone + {id}) == Trashed(images, gone)[id := images[id].(trashed := true)]
  {
  }

  lemma TrashedRows(images: map<ImageId, Image>, order: seq<ImageId>, due: set<ImageId>)
    ensures var after := Trashed(images, DueIn(images, order, due));
            && after.Keys == images.Keys
            && forall i :: i in images ==>
                 after[i] == if i in order && i in due then images[i].(trashed := true) else images[i]
  {
  }

  /** What is left after the due images of a list were purged. */
  lemma DueRows(s: State, order: seq<ImageId>, due: set<ImageId>, t: State)
    requires RefsExact(s) && PurgedAndQueued(s, DueIn(s.images, order, due), t)
    ensures forall i :: i in t.images <==> i in s.images && (i !in order || i !in due || s.images[i].trashed)
    ensures forall i :: i in t.images ==> t.images[i] == s.images[i]
    ensures forall f :: f in s.files && f !in t.files ==> s.files[f].path in t.queue
  {
    hide FilesWithout, PathsFreed, RefsExact;
    forall f | f in s.files && f !in t.files
      ensures s.files[f].path in t.queue
    {
      WithoutMeans(s, DueIn(s.images, order, due), f);
    }
  }

  lemma TrashedKeepsInv(s: State, gone: set<ImageId>)
    requires Inv(s)
    ensures Inv(s.(images := Trashed(s.images, gone)))
  {
    SameLinksKeepsInv(s, s.(images := Trashed(s.images, gone)));
  }

  lemma InvParts(s: State)
    requires Inv(s)
    ensures FilesPresent(s) && RefsExact(s) && PathsDistinct(s)
  {
  }

  lemma RemainingRows(s: State, gone: set<ImageId>, t: State, id: ImageId)
    requires PurgedAndQueued(s, gone, t)
    ensures id in t.images <==> id in s.images && id !in gone
    ensures id in t.images ==> t.images[id] == s.images[id]
  {
  }
}
