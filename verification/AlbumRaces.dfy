/**
  The private-album claim under interleaving. An update reads the album rows it cares about before it writes its
  image, an upload before it inserts one, and an album turned private converts its images after its own row was
  written. Columns only: files and owners play no part here.
 */
module AlbumRaces {
  import opened Prelude
  import opened StoreState
  import opened Operations

  type RequestId = nat

  datatype Pic = Pic(album: Option<AlbumId>, visibility: Visibility, trashed: bool)

  /** Where an open request stands between its steps. `seen` is the image's album when its row was read. */
  datatype Request =
    | Reading(image: ImageId, patch: Patch, seen: Option<AlbumId>)
    | Writing(image: ImageId, visibility: Option<Visibility>, into: Option<Option<AlbumId>>, seen: Option<AlbumId>)
    | Storing(dest: Option<AlbumId>, wanted: Visibility)
    | Inserting(dest: Option<AlbumId>, chosen: Visibility)
    | Turned(album: AlbumId)                            // row written, images not listed yet
    | Converting(album: AlbumId, todo: set<ImageId>)

  /** `unfinished` holds the albums whose last conversion was given up. */
  datatype Board = Board(images: map<ImageId, Pic>, albums: map<AlbumId, Visibility>,
                         requests: map<RequestId, Request>, unfinished: set<AlbumId>,
                         nextImage: ImageId, nextAlbum: AlbumId)

  datatype Step =
    | BeginUpdate(request: RequestId, image: ImageId, patch: Patch)
    | BeginUpload(request: RequestId, dest: Option<AlbumId>, wanted: Visibility)
    | ReadAlbum(request: RequestId)
    | Write(request: RequestId, done: bool)
    | ChangeAlbum(request: RequestId, album: AlbumId, visibility: Visibility)
    | ListImages(request: RequestId)
    | Convert(request: RequestId, image: ImageId)
    | Trash(image: ImageId)
    | Purge(image: ImageId)
    | CreateAlbum(visibility: Visibility)
    | DeleteAlbum(album: AlbumId, withImages: bool)
    | Crash

  predicate Hides(s: Board, album: Option<AlbumId>)
  {
    album.Some? && album.value in s.albums && s.albums[album.value] == Private
  }

  function Drop(s: Board, r: RequestId): Board
  {
    s.(requests := s.requests - {r})
  }

  function Advance(s: Board, r: RequestId, next: Request): Board
  {
    s.(requests := s.requests[r := next])
  }

  /** The one album row an update reads: its destination, or the album it stays in when it is to go public. */
  function DecideUpdate(s: Board, r: RequestId, id: ImageId, p: Patch, seen: Option<AlbumId>): Board
  {
    if p.album.Some? && p.album.value.Into? && p.album.value.album !in s.albums then Drop(s, r)
    else if p.album.None? && p.visibility == Some(Public) && Hides(s, seen) then Drop(s, r)
    else
      var forced := p.album.Some? && p.album.value.Into? && Hides(s, Some(p.album.value.album));
      Advance(s, r, Writing(id, if forced then Some(Private) else p.visibility, AlbumColumn(p), seen))
  }

  function ApplyRead(s: Board, r: RequestId): Board
  {
    if r !in s.requests then s
    else
      match s.requests[r]
      case Reading(id, p, seen) => DecideUpdate(s, r, id, p, seen)
      case Storing(dest, wanted) =>
        if dest.Some? && dest.value !in s.albums then Drop(s, r)
        else Advance(s, r, Inserting(dest, if Hides(s, dest) then Private else wanted))
      case _ => s
  }

  function Written(pic: Pic, visibility: Option<Visibility>, into: Option<Option<AlbumId>>): Pic
  {
    Pic(if into.Some? then into.value else pic.album,
        if visibility.Some? then visibility.value else pic.visibility, pic.trashed)
  }

  /** The write of the columns, alone or together with a move; when it fails nothing is written. */
  function ApplyWrite(s: Board, r: RequestId, done: bool): Board
  {
    if r !in s.requests then s
    else
      match s.requests[r]
      case Writing(id, v, into, _) =>
        if done && id in s.images && !s.images[id].trashed then
          Drop(s, r).(images := s.images[id := Written(s.images[id], v, into)])
        else Drop(s, r)
      case Inserting(dest, v) =>
        if done then Drop(s, r).(images := s.images[s.nextImage := Pic(dest, v, false)], nextImage := s.nextImage + 1)
        else Drop(s, r)
      case _ => s
  }

  function LiveIn(s: Board, a: AlbumId): set<ImageId>
  {
    set i | i in s.images && !s.images[i].trashed && s.images[i].album == Some(a)
  }

  /** A conversion with nothing left to do is complete. */
  function Continue(s: Board, r: RequestId, a: AlbumId, todo: set<ImageId>): Board
  {
    if todo == {} then Drop(s, r).(unfinished := s.unfinished - {a}) else Advance(s, r, Converting(a, todo))
  }

  /** An image that is no longer there when its turn comes makes the whole conversion fail. */
  function ApplyConvert(s: Board, r: RequestId, id: ImageId): Board
  {
    if r in s.requests && s.requests[r].Converting? && id in s.requests[r].todo then
      var a := s.requests[r].album;
      if id in s.images && !s.images[id].trashed then
        Continue(s.(images := s.images[id := s.images[id].(visibility := Private)]), r, a, s.requests[r].todo - {id})
      else Drop(s, r).(unfinished := s.unfinished + {a})
    else s
  }

  function ApplyChange(s: Board, r: RequestId, a: AlbumId, v: Visibility): Board
  {
    if r in s.requests || a !in s.albums then s
    else
      var t := s.(albums := s.albums[a := v]);
      if v == Private then Advance(t, r, Turned(a)) else t
  }

  function ApplyDelete(s: Board, a: AlbumId, withImages: bool): Board
  {
    s.(albums := s.albums - {a},
       images := map i | i in s.images ::
         if s.images[i].album == Some(a) then s.images[i].(album := None, trashed := withImages || s.images[i].trashed)
         else s.images[i])
  }

  predicate IsChange(q: Request, a: AlbumId)
  {
    (q.Turned? || q.Converting?) && q.album == a
  }

  function BeingChanged(s: Board): set<AlbumId>
  {
    set r | r in s.requests && (s.requests[r].Turned? || s.requests[r].Converting?) :: s.requests[r].album
  }

  function Apply(s: Board, e: Step): Board
  {
    match e
    case BeginUpdate(r, id, p) =>
      if r in s.requests || id !in s.images || s.images[id].trashed then s
      else Advance(s, r, Reading(id, p, s.images[id].album))
    case BeginUpload(r, dest, wanted) => if r in s.requests then s else Advance(s, r, Storing(dest, wanted))
    case ReadAlbum(r) => ApplyRead(s, r)
    case Write(r, done) => ApplyWrite(s, r, done)
    case ChangeAlbum(r, a, v) => ApplyChange(s, r, a, v)
    case ListImages(r) =>
      if r in s.requests && s.requests[r].Turned? then
        Continue(s, r, s.requests[r].album, LiveIn(s, s.requests[r].album))
      else s
    case Convert(r, id) => ApplyConvert(s, r, id)
    case Trash(id) => if id in s.images then s.(images := s.images[id := s.images[id].(trashed := true)]) else s
    case Purge(id) => s.(images := s.images - {id})
    case CreateAlbum(v) => s.(albums := s.albums[s.nextAlbum := v], nextAlbum := s.nextAlbum + 1)
    case DeleteAlbum(a, withImages) => ApplyDelete(s, a, withImages)
    case Crash => s.(requests := map[], unfinished := s.unfinished + BeingChanged(s))
  }

  function Run(s: Board, steps: seq<Step>): Board
  {
    if steps == [] then s else Apply(Run(s, steps[..|steps| - 1]), steps[|steps| - 1])
  }

  // ----- the schedule -----

  function Named(album: Option<AlbumId>): set<AlbumId>
  {
    if album.Some? then {album.value} else {}
  }

  function Dest(p: Patch): set<AlbumId>
  {
    if p.album.Some? && p.album.value.Into? then {p.album.value.album} else {}
  }

  /** The albums an update or upload is about: where its image is and where it is to go. */
  function Aims(q: Request): set<AlbumId>
  {
    match q
    case Reading(_, p, seen) => Named(seen) + Dest(p)
    case Writing(_, _, into, seen) => Named(seen) + (if into.Some? then Named(into.value) else {})
    case Storing(dest, _) => Named(dest)
    case Inserting(dest, _) => Named(dest)
    case _ => {}
  }

  /** The image an update is about. */
  function Subject(q: Request): Option<ImageId>
  {
    if q.Reading? || q.Writing? then Some(q.image) else None
  }

  predicate Changing(s: Board, a: AlbumId)
  {
    exists r :: r in s.requests && IsChange(s.requests[r], a)
  }

  /**
    No update begins on an image with an open one, and no album changes while a request about it is open, or the
    reverse.
   */
  predicate Clashes(s: Board, e: Step)
  {
    match e
    case BeginUpdate(_, id, p) =>
      || (exists r :: r in s.requests && Subject(s.requests[r]) == Some(id))
      || (exists a :: a in (Dest(p) + (if id in s.images then Named(s.images[id].album) else {})) && Changing(s, a))
    case BeginUpload(_, dest, _) => dest.Some? && Changing(s, dest.value)
    case ChangeAlbum(_, a, _) =>
      Changing(s, a) || exists r :: r in s.requests && a in Aims(s.requests[r])
    case _ => false
  }

  ghost predicate ClashFree(s: Board, steps: seq<Step>)
  {
    forall i :: 0 <= i < |steps| ==> !Clashes(Run(s, steps[..i]), steps[i])
  }

  // ----- what such runs keep -----

  /** For one image: private inside a private album, unless that album's conversion is open or was given up. */
  predicate Covered(s: Board, pic: Pic)
  {
    pic.trashed || !Hides(s, pic.album) || Changing(s, pic.album.value) || pic.album.value in s.unfinished
    || pic.visibility == Private
  }

  ghost predicate AllCovered(s: Board)
  {
    forall i :: i in s.images ==> Covered(s, s.images[i])
  }

  /** The image, if it is still there, is where its request saw it, or its album was deleted. */
  predicate StillSeen(s: Board, id: ImageId, seen: Option<AlbumId>)
  {
    id in s.images ==> s.images[id].album == seen || s.images[id].album == None
  }

  /** What a request has decided or listed is still right. */
  predicate Ready(s: Board, q: Request)
  {
    match q
    case Reading(id, _, seen) => id < s.nextImage && StillSeen(s, id, seen)
    case Writing(id, v, into, seen) =>
      && id < s.nextImage && StillSeen(s, id, seen)
      && (into.Some? && Hides(s, into.value) ==> v == Some(Private))
      && (into.None? && v == Some(Public) ==> !Hides(s, seen))
    case Storing(_, _) => true
    case Inserting(dest, v) => Hides(s, dest) ==> v == Private
    case Turned(a) => a < s.nextAlbum
    case Converting(a, todo) =>
      a < s.nextAlbum && forall i :: i in LiveIn(s, a) && s.images[i].visibility == Public ==> i in todo
  }

  /** Two open requests are about different images and, if one changes an album, about different albums. */
  predicate Apart(p: Request, q: Request)
  {
    && (Subject(p).Some? ==> Subject(p) != Subject(q))
    && (p.Turned? || p.Converting? ==> !IsChange(q, p.album) && p.album !in Aims(q))
  }

  /** Albums that a request has seen to exist. */
  function Known(q: Request): set<AlbumId>
  {
    match q
    case Reading(_, _, seen) => Named(seen)
    case Storing(_, _) => {}
    case _ => Aims(q)
  }

  predicate Below(albums: set<AlbumId>, next: AlbumId)
  {
    forall a :: a in albums ==> a < next
  }

  /** Ids not yet handed out are unused. */
  ghost predicate InBounds(s: Board)
  {
    && (forall i :: i in s.images ==> i < s.nextImage && Below(Named(s.images[i].album), s.nextAlbum))
    && Below(s.albums.Keys, s.nextAlbum)
    && (forall r :: r in s.requests ==> Below(Known(s.requests[r]), s.nextAlbum))
  }

  ghost predicate Orderly(s: Board)
  {
    && InBounds(s) && AllCovered(s)
    && (forall r :: r in s.requests ==> Ready(s, s.requests[r]))
    && (forall r, q :: r in s.requests && q in s.requests && r != q ==> Apart(s.requests[r], s.requests[q]))
  }

  // ----- step by step -----

  /** The same albums are being changed. */
  ghost predicate SameChanges(s: Board, t: Board)
  {
    forall a :: Changing(t, a) == Changing(s, a)
  }

  lemma DropKeepsChanges(s: Board, t: Board, r: RequestId)
    requires r in s.requests && !s.requests[r].Turned? && !s.requests[r].Converting?
    requires t.requests == s.requests - {r}
    ensures SameChanges(s, t)
  {
    forall a
      ensures Changing(t, a) == Changing(s, a)
    {
      if q :| q in s.requests && IsChange(s.requests[q], a) {
        assert q in t.requests && IsChange(t.requests[q], a);
      }
    }
  }

  lemma AdvanceKeepsChanges(s: Board, t: Board, r: RequestId)
    requires r in s.requests ==> !s.requests[r].Turned? && !s.requests[r].Converting?
    requires r in t.requests && !t.requests[r].Turned? && !t.requests[r].Converting?
    requires t.requests == s.requests[r := t.requests[r]]
    ensures SameChanges(s, t)
  {
    forall a
      ensures Changing(t, a) == Changing(s, a)
    {
      if q :| q in s.requests && IsChange(s.requests[q], a) {
        assert q in t.requests && IsChange(t.requests[q], a);
      }
    }
  }

  /** Albums and images stay; one request that changes no album moves on or ends. */
  lemma RequestOnly(s: Board, t: Board, r: RequestId)
    requires Orderly(s) && SameChanges(s, t)
    requires t == s.(requests := t.requests)
    requires forall q :: q in t.requests && q != r ==> q in s.requests && t.requests[q] == s.requests[q]
    requires r in t.requests ==> Ready(t, t.requests[r]) && Below(Known(t.requests[r]), t.nextAlbum)
    requires r in t.requests ==> forall q :: q in t.requests && q != r ==>
               Apart(t.requests[r], t.requests[q]) && Apart(t.requests[q], t.requests[r])
    ensures Orderly(t)
  {
    forall i | i in t.images
      ensures Covered(t, t.images[i])
    {
      assert Covered(s, s.images[i]);
    }
    forall q | q in t.requests
      ensures Ready(t, t.requests[q])
    {
      assert q != r ==> Ready(s, s.requests[q]);
    }
  }

  lemma BeginUpdateKeepsOrder(s: Board, r: RequestId, id: ImageId, p: Patch)
    requires Orderly(s) && !Clashes(s, BeginUpdate(r, id, p))
    ensures Orderly(Apply(s, BeginUpdate(r, id, p)))
  {
    var t := Apply(s, BeginUpdate(r, id, p));
    if t != s {
      AdvanceKeepsChanges(s, t, r);
      forall q | q in s.requests
        ensures Apart(t.requests[r], t.requests[q]) && Apart(t.requests[q], t.requests[r])
      {
        assert Subject(s.requests[q]) != Some(id);
        assert s.requests[q].Turned? || s.requests[q].Converting? ==>
                 IsChange(s.requests[q], s.requests[q].album) && Changing(s, s.requests[q].album);
      }
      RequestOnly(s, t, r);
    }
  }

  lemma BeginUploadKeepsOrder(s: Board, r: RequestId, dest: Option<AlbumId>, wanted: Visibility)
    requires Orderly(s) && !Clashes(s, BeginUpload(r, dest, wanted))
    ensures Orderly(Apply(s, BeginUpload(r, dest, wanted)))
  {
    var t := Apply(s, BeginUpload(r, dest, wanted));
    if t != s {
      AdvanceKeepsChanges(s, t, r);
      forall q | q in s.requests
        ensures Apart(t.requests[r], t.requests[q]) && Apart(t.requests[q], t.requests[r])
      {
        assert s.requests[q].Turned? || s.requests[q].Converting? ==>
                 IsChange(s.requests[q], s.requests[q].album) && Changing(s, s.requests[q].album);
      }
      RequestOnly(s, t, r);
    }
  }

  /** A request that has read its album row decides; its image and albums stay those it was about. */
  lemma DecidedKeepsOrder(s: Board, t: Board, r: RequestId)
    requires Orderly(s) && r in s.requests && (s.requests[r].Reading? || s.requests[r].Storing?)
    requires t == Drop(s, r) || (r in t.requests && t == Advance(s, r, t.requests[r]))
    requires r in t.requests ==>
               && Ready(t, t.requests[r]) && Below(Known(t.requests[r]), t.nextAlbum)
               && (t.requests[r].Writing? || t.requests[r].Inserting?)
               && Subject(t.requests[r]) == Subject(s.requests[r]) && Aims(t.requests[r]) <= Aims(s.requests[r])
    ensures Orderly(t)
  {
    hide Ready, InBounds, Covered, AllCovered;
    if r in t.requests {
      AdvanceKeepsChanges(s, t, r);
      forall q | q in s.requests && q != r
        ensures Apart(t.requests[r], t.requests[q]) && Apart(t.requests[q], t.requests[r])
      {
        assert Apart(s.requests[r], s.requests[q]) && Apart(s.requests[q], s.requests[r]);
      }
    } else {
      DropKeepsChanges(s, t, r);
    }
    RequestOnly(s, t, r);
  }

  lemma DecisionKnown(s: Board, r: RequestId)
    requires Below(s.albums.Keys, s.nextAlbum) && r in s.requests && Below(Known(s.requests[r]), s.nextAlbum)
    ensures var t := ApplyRead(s, r);
            t.nextAlbum == s.nextAlbum && (r in t.requests ==> Below(Known(t.requests[r]), t.nextAlbum))
  {
    var t := ApplyRead(s, r);
    assert r in t.requests ==>
             forall a :: a in Known(t.requests[r]) ==> a in Known(s.requests[r]) || a in s.albums.Keys;
  }

  lemma ReadKeepsOrder(s: Board, r: RequestId)
    requires Orderly(s)
    ensures Orderly(ApplyRead(s, r))
  {
    hide AllCovered, Apart, Known;
    var t := ApplyRead(s, r);
    if t != s {
      assert Ready(s, s.requests[r]);
      DecisionKnown(s, r);
      DecidedKeepsOrder(s, t, r);
    }
  }

  /** One image row is written or added by a request that ends with it. */
  /** The others know nothing about the image written. */
  lemma WrittenStillReady(s: Board, t: Board, r: RequestId, id: ImageId)
    requires Orderly(s) && r in s.requests && id in t.images
    requires t == s.(requests := s.requests - {r}, images := s.images[id := t.images[id]], nextImage := t.nextImage)
    requires s.nextImage <= t.nextImage
    requires !t.images[id].trashed ==> t.images[id].album.None? || !Changing(s, t.images[id].album.value)
    requires id >= s.nextImage || Subject(s.requests[r]) == Some(id)
    ensures forall q :: q in t.requests ==> Ready(t, t.requests[q])
  {
    hide AllCovered, InBounds;
    forall q | q in t.requests
      ensures Ready(t, t.requests[q])
    {
      var p := s.requests[q];
      assert Ready(s, p) && Apart(s.requests[r], p);
      if p.Converting? {
        assert IsChange(p, p.album) && Changing(s, p.album);
        forall i | i in LiveIn(t, p.album) && t.images[i].visibility == Public
          ensures i in p.todo
        {
          assert i != id ==> i in LiveIn(s, p.album);
        }
      }
    }
  }

  lemma WrittenRow(s: Board, t: Board, r: RequestId, id: ImageId)
    requires Orderly(s) && r in s.requests && id in t.images
    requires !s.requests[r].Turned? && !s.requests[r].Converting?
    requires t == s.(requests := s.requests - {r}, images := s.images[id := t.images[id]], nextImage := t.nextImage)
    requires s.nextImage <= t.nextImage && id < t.nextImage
    requires Covered(t, t.images[id]) && Below(Named(t.images[id].album), t.nextAlbum)
    requires !t.images[id].trashed ==> t.images[id].album.None? || !Changing(s, t.images[id].album.value)
    requires id >= s.nextImage || Subject(s.requests[r]) == Some(id)
    ensures Orderly(t)
  {
    DropKeepsChanges(s, t, r);
    forall i | i in t.images
      ensures Covered(t, t.images[i])
    {
      assert i != id ==> Covered(s, s.images[i]);
    }
    WrittenStillReady(s, t, r, id);
  }

  /** No album that a request is about is being changed. */
  lemma AimedUnchanged(s: Board, r: RequestId)
    requires Orderly(s) && r in s.requests
    ensures forall a :: a in Aims(s.requests[r]) ==> !Changing(s, a)
  {
    forall a, c | a in Aims(s.requests[r]) && c in s.requests
      ensures !IsChange(s.requests[c], a)
    {
      assert c != r ==> Apart(s.requests[c], s.requests[r]);
    }
  }

  lemma WriteKeepsOrder(s: Board, r: RequestId, done: bool)
    requires Orderly(s)
    ensures Orderly(ApplyWrite(s, r, done))
  {
    hide Apart, Changing;
    var t := ApplyWrite(s, r, done);
    if t != s {
      var q := s.requests[r];
      assert Ready(s, q) && Below(Known(q), s.nextAlbum);
      assert forall into :: q.Writing? && q.into == Some(into) ==> Named(into) <= Known(q);
      AimedUnchanged(s, r);
      DropKeepsChanges(s, t, r);
      if q.Writing? && done && q.image in s.images && !s.images[q.image].trashed {
        assert Covered(s, s.images[q.image]);
        WrittenRow(s, t, r, q.image);
      } else if q.Inserting? && done {
        WrittenRow(s, t, r, s.nextImage);
      } else {
        RequestOnly(s, t, r);
      }
    }
  }

  /** An album's own row: nobody else is about it, so only its images' cover changes. */
  /** A change to private is itself the excuse for what is public inside. */
  lemma ChangeKeepsCover(s: Board, r: RequestId, a: AlbumId, v: Visibility)
    requires AllCovered(s) && r !in s.requests && a in s.albums
    ensures AllCovered(ApplyChange(s, r, a, v))
  {
    var t := ApplyChange(s, r, a, v);
    forall b | b != a
      ensures Changing(t, b) == Changing(s, b)
    {
      if q :| q in s.requests && IsChange(s.requests[q], b) {
        assert q in t.requests && IsChange(t.requests[q], b);
      }
    }
    if v == Private {
      assert IsChange(t.requests[r], a);
    }
    forall i | i in t.images
      ensures Covered(t, t.images[i])
    {
      assert Covered(s, s.images[i]);
    }
  }

  lemma TurnedApart(a: AlbumId, q: Request)
    requires !IsChange(q, a) && a !in Aims(q)
    ensures Apart(Turned(a), q) && Apart(q, Turned(a))
  {
  }

  lemma ChangeKeepsOrder(s: Board, r: RequestId, a: AlbumId, v: Visibility)
    requires Orderly(s) && !Clashes(s, ChangeAlbum(r, a, v))
    ensures Orderly(ApplyChange(s, r, a, v))
  {
    hide AllCovered, Covered, Apart;
    var t := ApplyChange(s, r, a, v);
    if t != s {
      ChangeKeepsCover(s, r, a, v);
      ChangedStillReady(s, t, a);
      forall q | q in s.requests
        ensures Apart(Turned(a), s.requests[q]) && Apart(s.requests[q], Turned(a))
      {
        assert !IsChange(s.requests[q], a) && a !in Aims(s.requests[q]);
        TurnedApart(a, s.requests[q]);
      }
    }
  }

  /** Requests not about album a do not notice a change of its row. */
  lemma ChangedStillReady(s: Board, t: Board, a: AlbumId)
    requires Orderly(s) && !Changing(s, a) && forall q :: q in s.requests ==> a !in Aims(s.requests[q])
    requires t.images == s.images && t.nextImage == s.nextImage && t.nextAlbum == s.nextAlbum
    requires t.albums - {a} == s.albums - {a}
    ensures forall q :: q in s.requests ==> Ready(t, s.requests[q])
  {
    forall q | q in s.requests
      ensures Ready(t, s.requests[q])
    {
      var p := s.requests[q];
      assert Ready(s, p);
      assert forall b :: b != a && b in t.albums ==> b in t.albums - {a};
      assert forall b :: b != a && b in t.albums ==> b in s.albums && s.albums[b] == t.albums[b];
      assert LiveIn(t, if p.Converting? then p.album else 0) == LiveIn(s, if p.Converting? then p.album else 0);
    }
  }

  /** Only the album of request r is changed by r. */
  lemma OthersStillChanging(s: Board, t: Board, r: RequestId, a: AlbumId)
    requires r in s.requests && IsChange(s.requests[r], a) && t.requests - {r} == s.requests - {r}
    requires r in t.requests ==> IsChange(t.requests[r], a)
    ensures forall b :: b != a ==> Changing(t, b) == Changing(s, b)
    ensures r in t.requests ==> Changing(t, a)
  {
    assert forall q :: q != r ==>
             (q in s.requests <==> q in s.requests - {r}) && (q in t.requests <==> q in t.requests - {r});
    assert forall q :: q != r && q in s.requests ==> s.requests[q] == (s.requests - {r})[q] == t.requests[q];
    forall b | b != a
      ensures Changing(t, b) == Changing(s, b)
    {
      if q :| q in s.requests && IsChange(s.requests[q], b) {
        assert q in t.requests && IsChange(t.requests[q], b);
      }
    }
  }

  /** A step of the change of album a that leaves rows and images alone: everybody else stays ready and apart. */
  lemma OthersStillReady(s: Board, t: Board, r: RequestId)
    requires forall q :: q in s.requests ==> Ready(s, s.requests[q])
    requires t == s.(requests := t.requests, unfinished := t.unfinished)
    requires forall q :: q in t.requests && q != r ==> q in s.requests && t.requests[q] == s.requests[q]
    ensures forall q :: q in t.requests && q != r ==> Ready(t, t.requests[q])
  {
    forall q | q in t.requests && q != r
      ensures Ready(t, t.requests[q])
    {
      assert Ready(s, s.requests[q]);
      assert forall b :: LiveIn(t, b) == LiveIn(s, b);
    }
  }

  lemma ChangerOnly(s: Board, t: Board, r: RequestId, a: AlbumId)
    requires Orderly(s) && r in s.requests && IsChange(s.requests[r], a)
    requires t == s.(requests := t.requests, unfinished := t.unfinished)
    requires t.requests == s.requests - {r} || (r in t.requests && t.requests == s.requests[r := t.requests[r]])
    requires r in t.requests ==> t.requests[r].Converting? && t.requests[r].album == a && Ready(t, t.requests[r])
    requires AllCovered(t)
    ensures Orderly(t)
  {
    hide AllCovered, Named, Ready;
    OthersStillReady(s, t, r);
    forall q | q in t.requests && q != r
      ensures r in t.requests ==> Apart(t.requests[r], t.requests[q]) && Apart(t.requests[q], t.requests[r])
    {
      assert Apart(s.requests[r], s.requests[q]) && Apart(s.requests[q], s.requests[r]);
    }
  }

  /** Every public image of the album is still to be converted, so cover is kept by going on, and by being done. */
  lemma ContinueCovers(s: Board, r: RequestId, a: AlbumId, todo: set<ImageId>)
    requires Orderly(s) && r in s.requests && IsChange(s.requests[r], a)
    requires forall i :: i in LiveIn(s, a) && s.images[i].visibility == Public ==> i in todo
    ensures AllCovered(Continue(s, r, a, todo))
  {
    hide InBounds, Ready, Apart;
    var t := Continue(s, r, a, todo);
    OthersStillChanging(s, t, r, a);
    forall i | i in t.images
      ensures Covered(t, t.images[i])
    {
      assert Covered(s, s.images[i]);
      assert s.images[i].album == Some(a) && !s.images[i].trashed ==> i in LiveIn(s, a);
    }
  }

  /** A conversion moves on to what is left, or is complete. */
  lemma ContinueKeepsOrder(s: Board, r: RequestId, a: AlbumId, todo: set<ImageId>)
    requires Orderly(s) && r in s.requests && IsChange(s.requests[r], a)
    requires forall i :: i in LiveIn(s, a) && s.images[i].visibility == Public ==> i in todo
    ensures Orderly(Continue(s, r, a, todo))
  {
    hide AllCovered, InBounds, Apart;
    ContinueCovers(s, r, a, todo);
    assert Ready(s, s.requests[r]);
    ChangerOnly(s, Continue(s, r, a, todo), r, a);
  }

  lemma ListKeepsOrder(s: Board, r: RequestId)
    requires Orderly(s)
    ensures Orderly(Apply(s, ListImages(r)))
  {
    if r in s.requests && s.requests[r].Turned? {
      ContinueKeepsOrder(s, r, s.requests[r].album, LiveIn(s, s.requests[r].album));
    }
  }

  /** Images go private, to the trash, away or out of their album; albums keep their rows or go. */
  ghost predicate Withdraws(s: Board, t: Board)
  {
    && t == s.(images := t.images, albums := t.albums)
    && (forall i :: i in t.images ==>
          && i in s.images
          && (t.images[i].album == s.images[i].album || t.images[i].album == None)
          && (t.images[i].visibility == s.images[i].visibility || t.images[i].visibility == Private)
          && (s.images[i].trashed ==> t.images[i].trashed))
    && (forall a :: a in t.albums ==> a in s.albums && t.albums[a] == s.albums[a])
  }

  lemma WithdrawalKeepsOrder(s: Board, t: Board)
    requires Orderly(s) && Withdraws(s, t)
    ensures Orderly(t)
  {
    assert forall a :: Changing(t, a) == Changing(s, a);
    forall i | i in t.images
      ensures Covered(t, t.images[i]) && Below(Named(t.images[i].album), t.nextAlbum)
    {
      assert Covered(s, s.images[i]) && Below(Named(s.images[i].album), s.nextAlbum);
    }
    assert t.albums.Keys <= s.albums.Keys;
    forall q | q in t.requests
      ensures Ready(t, t.requests[q])
    {
      var p := s.requests[q];
      assert Ready(s, p);
      if p.Converting? {
        assert LiveIn(t, p.album) <= LiveIn(s, p.album);
      }
    }
  }

  lemma ConvertKeepsOrder(s: Board, r: RequestId, id: ImageId)
    requires Orderly(s)
    ensures Orderly(ApplyConvert(s, r, id))
  {
    hide InBounds, AllCovered, Apart;
    if r in s.requests && s.requests[r].Converting? && id in s.requests[r].todo {
      var a := s.requests[r].album;
      assert Ready(s, s.requests[r]) && IsChange(s.requests[r], a);
      if id in s.images && !s.images[id].trashed {
        var t := s.(images := s.images[id := s.images[id].(visibility := Private)]);
        WithdrawalKeepsOrder(s, t);
        assert LiveIn(t, a) == LiveIn(s, a);
        ContinueKeepsOrder(t, r, a, s.requests[r].todo - {id});
      } else {
        GiveUpKeepsOrder(s, r, a);
      }
    }
  }

  /** A conversion given up leaves its album unfinished. */
  lemma GiveUpKeepsOrder(s: Board, r: RequestId, a: AlbumId)
    requires Orderly(s) && r in s.requests && IsChange(s.requests[r], a)
    ensures Orderly(Drop(s, r).(unfinished := s.unfinished + {a}))
  {
    hide InBounds, Ready, Apart;
    var t := Drop(s, r).(unfinished := s.unfinished + {a});
    OthersStillChanging(s, t, r, a);
    forall i | i in t.images
      ensures Covered(t, t.images[i])
    {
      assert Covered(s, s.images[i]);
    }
    ChangerOnly(s, t, r, a);
  }

  lemma CreateKeepsOrder(s: Board, v: Visibility)
    requires Orderly(s)
    ensures Orderly(Apply(s, CreateAlbum(v)))
  {
    var t := Apply(s, CreateAlbum(v));
    assert forall a :: Changing(t, a) == Changing(s, a);
    forall i | i in t.images
      ensures Covered(t, t.images[i]) && Below(Named(t.images[i].album), t.nextAlbum)
    {
      assert Covered(s, s.images[i]) && Below(Named(s.images[i].album), s.nextAlbum);
    }
    forall q | q in t.requests
      ensures Ready(t, t.requests[q]) && Below(Known(t.requests[q]), t.nextAlbum)
    {
      var p := s.requests[q];
      assert Ready(s, p) && Below(Known(p), s.nextAlbum);
      assert forall b :: b in Known(p) ==> b != s.nextAlbum;
      assert forall into :: p.Writing? && p.into == Some(into) ==> Named(into) <= Known(p);
      assert forall b :: LiveIn(t, b) == LiveIn(s, b);
    }
  }

  lemma CrashKeepsOrder(s: Board)
    requires Orderly(s)
    ensures Orderly(Apply(s, Crash))
  {
    var t := Apply(s, Crash);
    forall i | i in t.images
      ensures Covered(t, t.images[i])
    {
      assert Covered(s, s.images[i]);
      if s.images[i].album.Some? && Changing(s, s.images[i].album.value) {
        var r :| r in s.requests && IsChange(s.requests[r], s.images[i].album.value);
        assert s.requests[r].album in BeingChanged(s);
      }
    }
  }

  lemma StepKeepsOrder(s: Board, e: Step)
    requires Orderly(s) && !Clashes(s, e)
    ensures Orderly(Apply(s, e))
  {
    hide Orderly, Clashes, ApplyRead, ApplyWrite, ApplyConvert, ApplyChange;
    match e
    case BeginUpdate(r, id, p) => BeginUpdateKeepsOrder(s, r, id, p);
    case BeginUpload(r, dest, wanted) => BeginUploadKeepsOrder(s, r, dest, wanted);
    case ReadAlbum(r) => ReadKeepsOrder(s, r);
    case Write(r, done) => WriteKeepsOrder(s, r, done);
    case ChangeAlbum(r, a, v) => ChangeKeepsOrder(s, r, a, v);
    case ListImages(r) => ListKeepsOrder(s, r);
    case Convert(r, id) => ConvertKeepsOrder(s, r, id);
    case Trash(id) => WithdrawalKeepsOrder(s, Apply(s, e));
    case Purge(id) => WithdrawalKeepsOrder(s, Apply(s, e));
    case CreateAlbum(v) => CreateKeepsOrder(s, v);
    case DeleteAlbum(a, withImages) => WithdrawalKeepsOrder(s, Apply(s, e));
    case Crash => CrashKeepsOrder(s);
  }

  lemma ClashFreePrefix(s: Board, steps: seq<Step>, n: nat)
    requires ClashFree(s, steps) && n <= |steps|
    ensures ClashFree(s, steps[..n])
  {
    forall i | 0 <= i < n
      ensures !Clashes(Run(s, steps[..n][..i]), steps[..n][i])
    {
      assert steps[..n][..i] == steps[..i];
    }
  }

  lemma {:induction false} RunsKeepOrder(s: Board, steps: seq<Step>)
    requires Orderly(s) && ClashFree(s, steps)
    ensures Orderly(Run(s, steps))
  {
    hide Orderly, Apply, Clashes;
    if steps != [] {
      var n := |steps| - 1;
      ClashFreePrefix(s, steps, n);
      RunsKeepOrder(s, steps[..n]);
      StepKeepsOrder(Run(s, steps[..n]), steps[n]);
    }
  }

  /**
    When updates of one image do not overlap and no album changes while a request about it is open, every live
    image in a private album is private at every point of the run, unless that album's conversion is still going
    on or was given up; a later complete conversion makes up for that.
   */
  lemma ClashFreeRunsCover(s: Board, steps: seq<Step>, n: nat, i: ImageId)
    requires InBounds(s) && AllCovered(s) && s.requests == map[]
    requires ClashFree(s, steps) && n <= |steps|
    ensures var t := Run(s, steps[..n]);
            i in t.images && !t.images[i].trashed && Hides(t, t.images[i].album)
            && !Changing(t, t.images[i].album.value) && t.images[i].album.value !in t.unfinished
            ==> t.images[i].visibility == Private
  {
    ClashFreePrefix(s, steps, n);
    assert Orderly(s);
    RunsKeepOrder(s, steps[..n]);
    var t := Run(s, steps[..n]);
    assert i in t.images ==> Covered(t, t.images[i]);
  }

  // ----- both halves of the schedule are needed -----

  const ONE_PUBLIC := Board(map[0 := Pic(None, Public, false)], map[0 := Public], map[], {}, 1, 1)

  /** The update reads the album while it is public and writes after the album was turned and converted. */
  const LATE_MOVE: seq<Step> := [
    BeginUpdate(0, 0, Patch(None, Some(Into(0)))),
    ReadAlbum(0),
    ChangeAlbum(1, 0, Private),
    ListImages(1),
    Write(0, true)]

  const ONE_PRIVATE := ONE_PUBLIC.(albums := map[0 := Private])

  /** One update decides to go public outside any album; meanwhile another moves the image into a private one. */
  const CROSSED: seq<Step> := [
    BeginUpdate(0, 0, Patch(Some(Public), None)),
    ReadAlbum(0),
    BeginUpdate(1, 0, Patch(None, Some(Into(0)))),
    ReadAlbum(1),
    Write(1, true),
    Write(0, true)]

  lemma OneMore(s: Board, steps: seq<Step>, n: nat)
    requires n < |steps|
    ensures Run(s, steps[..n + 1]) == Apply(Run(s, steps[..n]), steps[n])
  {
    assert steps[..n + 1][..n] == steps[..n];
  }

  /** The update holds on to what it decided. */
  lemma LateMoveDecided()
    ensures Run(ONE_PUBLIC, LATE_MOVE[..2])
            == ONE_PUBLIC.(requests := map[0 := Writing(0, None, Some(Some(0)), None)])
  {
    hide Run;
    assert Run(ONE_PUBLIC, LATE_MOVE[..0]) == ONE_PUBLIC by {
      RunNothing(ONE_PUBLIC);
    }
    OneMore(ONE_PUBLIC, LATE_MOVE, 0);
    OneMore(ONE_PUBLIC, LATE_MOVE, 1);
  }

  /** The change is complete: the album holds no live image yet. */
  lemma LateMoveTurned()
    ensures Run(ONE_PUBLIC, LATE_MOVE[..4])
            == ONE_PUBLIC.(albums := map[0 := Private],
                           requests := map[0 := Writing(0, None, Some(Some(0)), None)])
  {
    hide Run;
    LateMoveDecided();
    OneMore(ONE_PUBLIC, LATE_MOVE, 2);
    OneMore(ONE_PUBLIC, LATE_MOVE, 3);
    assert LiveIn(Run(ONE_PUBLIC, LATE_MOVE[..3]), 0) == {};
    assert ONE_PUBLIC.unfinished - {0} == {};
  }

  lemma LateMoveUncovers()
    ensures InBounds(ONE_PUBLIC) && AllCovered(ONE_PUBLIC)
    ensures !AllCovered(Run(ONE_PUBLIC, LATE_MOVE))
  {
    hide Run, Dest;
    LateMoveTurned();
    OneMore(ONE_PUBLIC, LATE_MOVE, 4);
    assert LATE_MOVE[..5] == LATE_MOVE;
    var t := Run(ONE_PUBLIC, LATE_MOVE);
    assert t.images[0] == Pic(Some(0), Public, false) && t.requests == map[] && t.albums[0] == Private;
    assert !Covered(t, t.images[0]);
  }

  lemma RunNothing(s: Board)
    ensures Run(s, []) == s
  {
  }

  lemma CrossedDecided()
    ensures Run(ONE_PRIVATE, CROSSED[..4])
            == ONE_PRIVATE.(requests := map[0 := Writing(0, Some(Public), None, None),
                                            1 := Writing(0, Some(Private), Some(Some(0)), None)])
  {
    hide Run;
    assert Run(ONE_PRIVATE, CROSSED[..0]) == ONE_PRIVATE by {
      RunNothing(ONE_PRIVATE);
    }
    OneMore(ONE_PRIVATE, CROSSED, 0);
    OneMore(ONE_PRIVATE, CROSSED, 1);
    assert Run(ONE_PRIVATE, CROSSED[..2])
           == ONE_PRIVATE.(requests := map[0 := Writing(0, Some(Public), None, None)]);
    OneMore(ONE_PRIVATE, CROSSED, 2);
    OneMore(ONE_PRIVATE, CROSSED, 3);
  }

  lemma CrossedUpdatesUncover()
    ensures InBounds(ONE_PRIVATE) && AllCovered(ONE_PRIVATE)
    ensures !AllCovered(Run(ONE_PRIVATE, CROSSED))
  {
    hide Run, Known, LiveIn;
    CrossedDecided();
    OneMore(ONE_PRIVATE, CROSSED, 4);
    OneMore(ONE_PRIVATE, CROSSED, 5);
    assert CROSSED[..6] == CROSSED;
    var t := Run(ONE_PRIVATE, CROSSED);
    assert t.images[0] == Pic(Some(0), Public, false) && t.requests == map[];
    assert !Covered(t, t.images[0]);
  }
}
