/**
  The committed state of the image store: the image, file, user and album tables, the object
  storage behind them and the queue of pending physical deletions.

  SHA-256 is taken to be injective, so a file row's hash is represented by the content it hashes.
  A storage path is a surface prefix with a freshly rendered name; names come from a counter.
 */
module StoreState {
  import opened Prelude

  type ImageId = nat
  type FileId = nat
  type UserId = nat
  type AlbumId = nat
  type Content = seq<nat>

  datatype Visibility = Public | Private

  /** The surface column of a file row; rows written before surfaces existed hold Unset. */
  datatype Surface = Unset | On(visibility: Visibility)

  datatype Path = Path(prefix: Visibility, name: nat)

  datatype File = File(hash: Content, surface: Surface, path: Path, size: nat, refCount: int)

  /** A trashed image is a soft-deleted row. Guests' images have no user. */
  datatype Image = Image(user: Option<UserId>, file: FileId, album: Option<AlbumId>,
                         visibility: Visibility, trashed: bool)

  datatype Album = Album(owner: UserId, visibility: Visibility)

  datatype State = State(
    images: map<ImageId, Image>,
    files: map<FileId, File>,
    users: map<UserId, int>,
    albums: map<AlbumId, Album>,
    objects: map<Path, Content>,
    queue: set<Path>,
    nextImage: ImageId,
    nextFile: FileId,
    nextName: nat)

  const EMPTY := State(map[], map[], map[], map[], map[], {}, 0, 0, 0)

  /** The surface a file counts as: an unset one counts as public. */
  function FileSurface(f: File): Visibility
  {
    if f.surface.Unset? then Public else f.surface.visibility
  }

  /** The images, live or trashed, that point at file f. */
  function Refs(images: map<ImageId, Image>, f: FileId): set<ImageId>
  {
    set i | i in images && images[i].file == f
  }

  /** The images, live or trashed, that belong to user u. */
  function Owned(images: map<ImageId, Image>, u: UserId): set<ImageId>
  {
    set i | i in images && images[i].user == Some(u)
  }

  function SizeOf(files: map<FileId, File>, f: FileId): nat
  {
    if f in files then files[f].size else 0
  }

  /** The size of each live or trashed image of user u. */
  function Sizes(s: State, u: UserId): map<ImageId, nat>
  {
    map i | i in s.images && s.images[i].user == Some(u) :: SizeOf(s.files, s.images[i].file)
  }

  /** Bytes that user u's live and trashed images account for. */
  ghost function Usage(s: State, u: UserId): nat
  {
    Sum(Sizes(s, u))
  }

  // ----- what every reachable state keeps -----

  ghost predicate FilesPresent(s: State)
  {
    forall i :: i in s.images ==> s.images[i].file in s.files
  }

  ghost predicate RefsExact(s: State)
  {
    forall f :: f in s.files ==> s.files[f].refCount == |Refs(s.images, f)|
  }

  /** Two rows that the unique index on (hash, surface) would not let coexist. */
  predicate SameSlot(a: File, b: File)
  {
    a.hash == b.hash && a.surface == b.surface
  }

  ghost predicate HashSurfaceUnique(s: State)
  {
    forall f, g :: f in s.files && g in s.files && SameSlot(s.files[f], s.files[g]) ==> f == g
  }

  /** A file row whose original is stored, under its surface's prefix, with the content of its hash. */
  ghost predicate Backed(s: State, f: File)
  {
    && f.path in s.objects
    && s.objects[f.path] == f.hash
    && f.size == |f.hash|
    && (f.surface.On? ==> f.path.prefix == f.surface.visibility)
    && f.path !in s.queue
  }

  ghost predicate FilesBacked(s: State)
  {
    forall f :: f in s.files ==> Backed(s, s.files[f])
  }

  ghost predicate PathsDistinct(s: State)
  {
    forall f, g :: f in s.files && g in s.files && s.files[f].path == s.files[g].path ==> f == g
  }

  /** Row ids and path names not yet handed out are really unused. */
  ghost predicate CountersAhead(s: State)
  {
    && (forall i :: i in s.images ==> i < s.nextImage)
    && (forall f :: f in s.files ==> f < s.nextFile)
    && (forall p :: p in s.objects ==> p.name < s.nextName)
    && (forall p :: p in s.queue ==> p.name < s.nextName)
  }

  ghost predicate QuotasExact(s: State)
  {
    && (forall i :: i in s.images && s.images[i].user.Some? ==> s.images[i].user.value in s.users)
    && (forall u :: u in s.users ==> s.users[u] == Usage(s, u))
  }

  ghost predicate Inv(s: State)
  {
    && FilesPresent(s)
    && RefsExact(s)
    && HashSurfaceUnique(s)
    && FilesBacked(s)
    && PathsDistinct(s)
    && CountersAhead(s)
    && QuotasExact(s)
  }

  lemma EmptyIsConsistent()
    ensures Inv(EMPTY)
  {
  }

  // ----- how references and usage follow a change of one row -----

  lemma RefsAfterRemoval(images: map<ImageId, Image>, id: ImageId, f: FileId)
    requires id in images
    ensures |Refs(images - {id}, f)| == |Refs(images, f)| - (if images[id].file == f then 1 else 0)
  {
    if images[id].file == f {
      assert Refs(images - {id}, f) == Refs(images, f) - {id};
    } else {
      assert Refs(images - {id}, f) == Refs(images, f);
    }
  }

  lemma RefsAfterInsert(images: map<ImageId, Image>, id: ImageId, img: Image, f: FileId)
    requires id !in images
    ensures |Refs(images[id := img], f)| == |Refs(images, f)| + (if img.file == f then 1 else 0)
  {
    RefsAfterRemoval(images[id := img], id, f);
    assert images[id := img] - {id} == images;
  }

  lemma RefsAfterUpdate(images: map<ImageId, Image>, id: ImageId, img: Image, f: FileId)
    requires id in images
    ensures |Refs(images[id := img], f)|
            == |Refs(images, f)| - (if images[id].file == f then 1 else 0) + (if img.file == f then 1 else 0)
  {
    RefsAfterRemoval(images, id, f);
    RefsAfterInsert(images - {id}, id, img, f);
    assert (images - {id})[id := img] == images[id := img];
  }

  /** Removing an image lowers exactly its owner's usage, by exactly its file's size. */
  lemma UsageAfterRemoval(s: State, t: State, id: ImageId, u: UserId)
    requires id in s.images && t.images == s.images - {id}
    requires forall i :: i in t.images ==> SizeOf(t.files, t.images[i].file) == SizeOf(s.files, s.images[i].file)
    ensures Usage(s, u)
            == Usage(t, u) + (if s.images[id].user == Some(u) then SizeOf(s.files, s.images[id].file) else 0)
  {
    if s.images[id].user == Some(u) {
      assert Sizes(t, u) == Sizes(s, u) - {id};
      SumRemove(Sizes(s, u), id);
    } else {
      assert Sizes(t, u) == Sizes(s, u);
    }
  }

  /** Adding an image raises exactly its owner's usage, by exactly its file's size. */
  lemma UsageAfterInsert(s: State, t: State, id: ImageId, u: UserId)
    requires id !in s.images && id in t.images && s.images == t.images - {id}
    requires forall i :: i in s.images ==> SizeOf(t.files, t.images[i].file) == SizeOf(s.files, s.images[i].file)
    ensures Usage(t, u)
            == Usage(s, u) + (if t.images[id].user == Some(u) then SizeOf(t.files, t.images[id].file) else 0)
  {
    UsageAfterRemoval(t, s, id, u);
  }

  /** Usage only depends on owners and file sizes. */
  lemma UsageUnchanged(s: State, t: State, u: UserId)
    requires s.images.Keys == t.images.Keys
    requires forall i :: i in s.images ==>
      && t.images[i].user == s.images[i].user
      && SizeOf(t.files, t.images[i].file) == SizeOf(s.files, s.images[i].file)
    ensures Usage(s, u) == Usage(t, u)
  {
    assert Sizes(s, u) == Sizes(t, u);
  }

  /** No image of a user is larger than the user's recorded usage. */
  lemma ImageWithinUsage(s: State, id: ImageId, u: UserId)
    requires QuotasExact(s) && id in s.images && s.images[id].user == Some(u)
    ensures SizeOf(s.files, s.images[id].file) <= s.users[u]
  {
    SumRemove(Sizes(s, u), id);
  }
}
