/**
  The steps of AlbumRaces against the whole operations: run without interruption, an update, a change of an album
  and the plain steps leave on the board exactly what the operations leave in the tables.
 */
module AlbumSteps {
  import opened Prelude
  import opened StoreState
  import opened Purge
  import opened Rehome
  import opened Accounts
  import opened Operations
  import opened AlbumPrivacy
  import Races = AlbumRaces

  type Board = Races.Board

  function PicOf(img: Image): Races.Pic
  {
    Races.Pic(img.album, img.visibility, img.trashed)
  }

  /** The album and visibility columns of the tables, with no request open; the counters are not compared. */
  function BoardOf(s: State, nextImage: ImageId, nextAlbum: AlbumId): Board
  {
    Races.Board(map i | i in s.images :: PicOf(s.images[i]), map a | a in s.albums :: s.albums[a].visibility, map[], {},
                nextImage, nextAlbum)
  }

  // ----- updates -----

  /** Reading the album row decides what the update as a whole decides. */
  lemma ReadDecides(s: State, user: UserId, id: ImageId, p: Patch, n: ImageId, m: AlbumId)
    requires id in s.images && !s.images[id].trashed && s.images[id].user == Some(user)
    requires p.album.Some? && p.album.value.Into? && p.album.value.album in s.albums ==>
               s.albums[p.album.value.album].owner == user
    ensures var b := BoardOf(s, n, m);
            var c := b.(requests := map[0 := Races.Reading(id, p, s.images[id].album)]);
            Races.ApplyRead(c, 0)
            == if Accepted(s, user, id, p)
               then b.(requests := map[0 := Races.Writing(id, WantedVisibility(s, p), AlbumColumn(p),
                                                          s.images[id].album)])
               else b
  {
    var b := BoardOf(s, n, m);
    var c := b.(requests := map[0 := Races.Reading(id, p, s.images[id].album)]);
    assert c.requests - {0} == map[];
  }

  lemma WriteMatches(s: State, t: State, id: ImageId, u: Updates, seen: Option<AlbumId>, n: ImageId, m: AlbumId)
    requires OnlyImage(s, t, id) && !s.images[id].trashed
    requires t.images[id] == Updated(s.images[id], u).(file := t.images[id].file)
    ensures Races.ApplyWrite(BoardOf(s, n, m).(requests := map[0 := Races.Writing(id, u.visibility, u.album, seen)]),
                             0, true)
            == BoardOf(t, n, m)
  {
    var c := BoardOf(s, n, m).(requests := map[0 := Races.Writing(id, u.visibility, u.album, seen)]);
    assert c.requests - {0} == map[];
    var e := Races.ApplyWrite(c, 0, true);
    assert e.images == BoardOf(t, n, m).images;
  }

  /** An update whose steps nothing interrupts writes the columns that the whole operation writes. */
  lemma UpdateAlone(s: State, user: UserId, id: ImageId, p: Patch, n: ImageId, m: AlbumId)
    requires Inv(s) && id in s.images && s.images[id].user == Some(user)
    requires p.album.Some? && p.album.value.Into? && p.album.value.album in s.albums ==>
               s.albums[p.album.value.album].owner == user
    ensures var begun := Races.Apply(BoardOf(s, n, m), Races.BeginUpdate(0, id, p));
            Races.Apply(Races.Apply(begun, Races.ReadAlbum(0)), Races.Write(0, true))
            == BoardOf(UpdateImage(s, user, id, p).0, n, m)
  {
    hide UpdateImage, Inv, BoardOf, Accepted, WantedVisibility, AlbumColumn, Races.ApplyRead, Races.ApplyWrite;
    var b := BoardOf(s, n, m);
    UpdateEffect(s, user, id, p);
    BoardRows(s, n, m);
    if s.images[id].trashed {
      TrashedRefused(s, user, id, p);
      NothingOpen(b);
    } else {
      ReadDecides(s, user, id, p, n, m);
      assert Races.Apply(b, Races.BeginUpdate(0, id, p))
             == b.(requests := map[0 := Races.Reading(id, p, s.images[id].album)]);
      if Accepted(s, user, id, p) {
        WriteMatches(s, UpdateImage(s, user, id, p).0, id, Updates(WantedVisibility(s, p), AlbumColumn(p)),
                     s.images[id].album, n, m);
      } else {
        NothingOpen(b);
      }
    }
  }

  lemma TrashedRefused(s: State, user: UserId, id: ImageId, p: Patch)
    requires id in s.images && s.images[id].trashed
    ensures !Accepted(s, user, id, p)
  {
  }

  lemma BoardRows(s: State, n: ImageId, m: AlbumId)
    ensures var b := BoardOf(s, n, m);
            && b.images.Keys == s.images.Keys && b.requests == map[] && b.unfinished == {}
            && b.nextImage == n && b.nextAlbum == m
            && (forall i :: i in s.images ==> b.images[i] == PicOf(s.images[i]))
            && b.albums.Keys == s.albums.Keys && (forall a :: a in s.albums ==> b.albums[a] == s.albums[a].visibility)
  {
  }

  lemma NothingOpen(b: Board)
    requires b.requests == map[]
    ensures Races.Apply(b, Races.ReadAlbum(0)) == b && Races.Apply(b, Races.Write(0, true)) == b
  {
  }

  // ----- uploads -----

  /** The upload adds its image in the chosen album, private where it must be, or adds nothing. */
  lemma UploadAdds(s: State, user: UserId, content: Content, v: Visibility, album: Option<AlbumId>, quota: int)
    requires album.Some? ==> OwnsAlbum(s, user, album.value)
    ensures OneMoreImage(s, PerformUpload(s, Some(user), content, v, album, quota), Some(user), album,
                         UploadVisibility(s, Some(user), v, album))
  {
    hide UploadNew, UploadAgain, FindFile, UploadVisibility;
    UploadAddsOne(s, Some(user), content, UploadVisibility(s, Some(user), v, album), album, quota);
  }

  /** A user's upload that nothing interrupts, stored or rolled back, adds what the whole operation adds. */
  lemma UploadAlone(s: State, user: UserId, content: Content, v: Visibility, album: Option<AlbumId>, quota: int,
                    m: AlbumId)
    requires CountersAhead(s) && (album.Some? ==> OwnsAlbum(s, user, album.value))
    ensures var t := PerformUpload(s, Some(user), content, v, album, quota);
            var done := s.nextImage in t.images;
            var begun := Races.Apply(BoardOf(s, s.nextImage, m), Races.BeginUpload(0, album, v));
            Races.Apply(Races.Apply(begun, Races.ReadAlbum(0)), Races.Write(0, done))
            == BoardOf(t, if done then s.nextImage + 1 else s.nextImage, m)
  {
    hide PerformUpload, OneMoreImage, BoardOf, UploadVisibility, Races.Apply;
    var t := PerformUpload(s, Some(user), content, v, album, quota);
    UploadAdds(s, user, content, v, album, quota);
    ReadChooses(s, user, v, album, m);
    InsertMatches(s, t, user, album, UploadVisibility(s, Some(user), v, album), m);
  }

  lemma ReadChooses(s: State, user: UserId, v: Visibility, album: Option<AlbumId>, m: AlbumId)
    requires album.Some? ==> OwnsAlbum(s, user, album.value)
    ensures var b := BoardOf(s, s.nextImage, m);
            Races.Apply(Races.Apply(b, Races.BeginUpload(0, album, v)), Races.ReadAlbum(0))
            == b.(requests := map[0 := Races.Inserting(album, UploadVisibility(s, Some(user), v, album))])
  {
    var b := BoardOf(s, s.nextImage, m);
    var c := b.(requests := map[0 := Races.Storing(album, v)]);
    assert Races.Apply(b, Races.BeginUpload(0, album, v)) == c;
    assert Races.Hides(c, album) <==> Races.Hides(b, album);
    var chosen := UploadVisibility(s, Some(user), v, album);
    assert c.requests[0 := Races.Inserting(album, chosen)] == map[0 := Races.Inserting(album, chosen)];
  }

  lemma InsertMatches(s: State, t: State, user: UserId, album: Option<AlbumId>, chosen: Visibility, m: AlbumId)
    requires CountersAhead(s) && OneMoreImage(s, t, Some(user), album, chosen)
    ensures var done := s.nextImage in t.images;
            Races.Apply(BoardOf(s, s.nextImage, m).(requests := map[0 := Races.Inserting(album, chosen)]),
                        Races.Write(0, done))
            == BoardOf(t, if done then s.nextImage + 1 else s.nextImage, m)
  {
    hide BoardOf, Races.Apply;
    var b := BoardOf(s, s.nextImage, m);
    BoardRows(s, s.nextImage, m);
    InsertStep(b, album, chosen, s.nextImage in t.images);
    if s.nextImage in t.images {
      BoardRows(t, s.nextImage + 1, m);
      var d := BoardOf(t, s.nextImage + 1, m);
      assert d.images == b.images[s.nextImage := Races.Pic(album, chosen, false)];
      assert d.albums == b.albums;
    } else {
      BoardRows(t, s.nextImage, m);
      var d := BoardOf(t, s.nextImage, m);
      assert d.images == b.images && d.albums == b.albums;
    }
  }

  lemma InsertStep(b: Board, album: Option<AlbumId>, chosen: Visibility, done: bool)
    requires b.requests == map[]
    ensures Races.Apply(b.(requests := map[0 := Races.Inserting(album, chosen)]), Races.Write(0, done))
            == if done then b.(images := b.images[b.nextImage := Races.Pic(album, chosen, false)],
                               nextImage := b.nextImage + 1)
               else b
  {
    var c := b.(requests := map[0 := Races.Inserting(album, chosen)]);
    assert c.requests - {0} == map[];
  }

  // ----- a change of an album -----

  /** The conversions of the listed images, one step each. */
  ghost function Conversions(b: Board, order: seq<ImageId>): Board
  {
    if order == [] then b
    else Races.Apply(Conversions(b, order[..|order| - 1]), Races.Convert(0, order[|order| - 1]))
  }

  /** After the first images of the list are converted, the others are still to do. */
  lemma {:induction false} ConversionsMatch(s: State, user: UserId, a: AlbumId, order: seq<ImageId>, k: nat,
                                            n: ImageId, m: AlbumId)
    requires Inv(s) && ListsAlbum(order, s, user, a) && NoDuplicates(order) && k <= |order| && order != []
    ensures var b := BoardOf(s, n, m).(requests := map[0 := Races.Converting(a, Elements(order))]);
            var t := BoardOf(ConvertAll(s, user, order[..k], Private).0, n, m);
            Conversions(b, order[..k])
            == if k == |order| then t
               else t.(requests := map[0 := Races.Converting(a, Elements(order[k..]))])
    decreases k
  {
    hide Inv, ListsAlbum, ConvertAll, BoardOf, Races.Apply;
    if k == 0 {
      assert order[0..] == order;
      ConvertNothing(s, user);
    } else {
      ConversionsMatch(s, user, a, order, k - 1, n, m);
      assert order[..k][..k - 1] == order[..k - 1] && order[..k][k - 1] == order[k - 1];
      OneConversion(s, user, a, order, k, n, m);
    }
  }

  lemma ConvertNothing(s: State, user: UserId)
    ensures ConvertAll(s, user, [], Private) == (s, Ok)
  {
  }

  lemma OneConversion(s: State, user: UserId, a: AlbumId, order: seq<ImageId>, k: nat, n: ImageId, m: AlbumId)
    requires Inv(s) && ListsAlbum(order, s, user, a) && NoDuplicates(order) && 0 < k <= |order|
    ensures var before := BoardOf(ConvertAll(s, user, order[..k - 1], Private).0, n, m);
            var t := BoardOf(ConvertAll(s, user, order[..k], Private).0, n, m);
            Races.Apply(before.(requests := map[0 := Races.Converting(a, Elements(order[k - 1..]))]),
                        Races.Convert(0, order[k - 1]))
            == if k == |order| then t
               else t.(requests := map[0 := Races.Converting(a, Elements(order[k..]))])
  {
    hide Inv, ConvertAll, UpdateImage, BoardOf, Races.Apply;
    var id := order[k - 1];
    Prefix(order, k);
    ConvertAllWorks(s, user, order[..k - 1], Private);
    ConvertAllWorks(s, user, order[..k], Private);
    var was, now := ConvertAll(s, user, order[..k - 1], Private).0, ConvertAll(s, user, order[..k], Private).0;
    BoardRows(was, n, m);
    OneConverted(s, was, now, id, Elements(order[..k - 1]), n, m);
    StepConverts(BoardOf(was, n, m), BoardOf(now, n, m), a, id, Elements(order[k - 1..]), Elements(order[k..]));
  }

  /** The list up to the k-th image, and what is left of it. */
  lemma Prefix(order: seq<ImageId>, k: nat)
    requires NoDuplicates(order) && 0 < k <= |order|
    ensures forall i :: i in order[..k] ==> i in order
    ensures forall i :: i in order[..k - 1] ==> i in order
    ensures order[k - 1] in order && order[k - 1] !in Elements(order[..k - 1])
    ensures Elements(order[..k]) == Elements(order[..k - 1]) + {order[k - 1]}
    ensures order[k - 1] in Elements(order[k - 1..])
    ensures Elements(order[k..]) == Elements(order[k - 1..]) - {order[k - 1]}
    ensures Elements(order[k..]) == {} <==> k == |order|
  {
    DropLastElement(order[..k]);
    assert order[..k][..k - 1] == order[..k - 1];
    var rest := order[k - 1..];
    assert rest[0] == order[k - 1] && rest[1..] == order[k..];
    assert forall i :: i in rest <==> i == rest[0] || i in rest[1..];
    if k < |order| {
      assert order[k] in Elements(order[k..]);
    }
  }

  lemma OneConverted(s: State, was: State, now: State, id: ImageId, done: set<ImageId>, n: ImageId, m: AlbumId)
    requires Converted(s, was, done, Private) && Converted(s, now, done + {id}, Private)
    requires id in s.images && !s.images[id].trashed && id !in done
    ensures id in BoardOf(was, n, m).images && !BoardOf(was, n, m).images[id].trashed
    ensures BoardOf(now, n, m)
            == BoardOf(was, n, m).(images := BoardOf(was, n, m).images
                                     [id := BoardOf(was, n, m).images[id].(visibility := Private)])
  {
    hide BoardOf, Converted;
    BoardRows(was, n, m);
    BoardRows(now, n, m);
    SameButOne(s, was, now, id, done);
    var b, c := BoardOf(was, n, m), BoardOf(now, n, m);
    assert c.images == b.images[id := b.images[id].(visibility := Private)];
    assert c.albums == b.albums;
  }

  lemma SameButOne(s: State, was: State, now: State, id: ImageId, done: set<ImageId>)
    requires Converted(s, was, done, Private) && Converted(s, now, done + {id}, Private)
    requires id in s.images && !s.images[id].trashed && id !in done
    ensures now.images.Keys == was.images.Keys && now.albums == was.albums && id in was.images
    ensures forall i :: i in was.images && i != id ==> PicOf(now.images[i]) == PicOf(was.images[i])
    ensures !was.images[id].trashed && PicOf(now.images[id]) == PicOf(was.images[id]).(visibility := Private)
  {
  }

  lemma StepConverts(b: Board, c: Board, a: AlbumId, id: ImageId, todo: set<ImageId>, rest: set<ImageId>)
    requires b.requests == map[] && b.unfinished == {} && id in todo && rest == todo - {id}
    requires id in b.images && !b.images[id].trashed
    requires c == b.(images := b.images[id := b.images[id].(visibility := Private)])
    ensures Races.Apply(b.(requests := map[0 := Races.Converting(a, todo)]), Races.Convert(0, id))
            == if rest == {} then c else c.(requests := map[0 := Races.Converting(a, rest)])
  {
    var d := b.(requests := map[0 := Races.Converting(a, todo)]);
    assert d.requests - {0} == map[];
    assert d.unfinished - {a} == {};
    assert d.requests[0 := Races.Converting(a, rest)] == map[0 := Races.Converting(a, rest)];
  }

  /**
    A change of an album that nothing interrupts, its row, the listing, and one conversion per listed image when it
    turned private, leaves the columns that the whole operation leaves.
   */
  lemma ChangeAlone(s: State, user: UserId, a: AlbumId, v: Visibility, order: seq<ImageId>, n: ImageId, m: AlbumId)
    requires Inv(s) && AlbumsLinked(s) && OwnsAlbum(s, user, a) && ListsAlbum(order, s, user, a) && NoDuplicates(order)
    ensures var turned := Races.Apply(BoardOf(s, n, m), Races.ChangeAlbum(0, a, v));
            Conversions(Races.Apply(turned, Races.ListImages(0)), if v == Private then order else [])
            == BoardOf(UpdateAlbum(s, user, a, v, order).0, n, m)
  {
    hide Inv, ConvertAll, Conversions;
    var b := BoardOf(s, n, m);
    var t := s.(albums := s.albums[a := s.albums[a].(visibility := v)]);
    AlbumsKeepInv(s, t.albums);
    RowWritten(s, a, v, n, m);
    NoConversions(BoardOf(t, n, m));
    if v == Private {
      assert ListsAlbum(order, t, user, a);
      ListedAre(s, t, user, a, order, n, m);
      if order == [] {
        ConvertNothing(t, user);
        assert Elements(order) == {};
      } else {
        assert order[0] in Elements(order);
        ConversionsMatch(t, user, a, order, |order|, n, m);
        assert order[..|order|] == order;
      }
      ListStep(BoardOf(t, n, m), a, Elements(order));
    } else {
      NothingListed(BoardOf(t, n, m));
    }
  }

  lemma RowWritten(s: State, a: AlbumId, v: Visibility, n: ImageId, m: AlbumId)
    requires a in s.albums
    ensures var t := s.(albums := s.albums[a := s.albums[a].(visibility := v)]);
            Races.Apply(BoardOf(s, n, m), Races.ChangeAlbum(0, a, v))
            == if v == Private then BoardOf(t, n, m).(requests := map[0 := Races.Turned(a)]) else BoardOf(t, n, m)
  {
    var t := s.(albums := s.albums[a := s.albums[a].(visibility := v)]);
    assert BoardOf(t, n, m).albums == BoardOf(s, n, m).albums[a := v];
  }

  lemma NoConversions(b: Board)
    ensures Conversions(b, []) == b
  {
  }

  lemma NothingListed(b: Board)
    requires b.requests == map[]
    ensures Races.Apply(b, Races.ListImages(0)) == b
  {
  }

  /** Every live image in the album is the owner's, so the step lists what the operation lists. */
  lemma ListedAre(s: State, t: State, user: UserId, a: AlbumId, order: seq<ImageId>, n: ImageId, m: AlbumId)
    requires AlbumsLinked(s) && OwnsAlbum(s, user, a) && ListsAlbum(order, s, user, a) && t == s.(albums := t.albums)
    ensures Races.LiveIn(BoardOf(t, n, m), a) == Elements(order)
  {
  }

  lemma ListStep(b: Board, a: AlbumId, live: set<ImageId>)
    requires b.requests == map[] && b.unfinished == {} && Races.LiveIn(b, a) == live
    ensures Races.Apply(b.(requests := map[0 := Races.Turned(a)]), Races.ListImages(0))
            == if live == {} then b else b.(requests := map[0 := Races.Converting(a, live)])
  {
    var c := b.(requests := map[0 := Races.Turned(a)]);
    assert Races.LiveIn(c, a) == live;
    assert c.requests - {0} == map[];
    assert c.unfinished - {a} == {};
    assert c.requests[0 := Races.Converting(a, live)] == map[0 := Races.Converting(a, live)];
  }

  // ----- one-step operations -----

  lemma TrashAlone(s: State, id: ImageId, n: ImageId, m: AlbumId)
    ensures Races.Apply(BoardOf(s, n, m), Races.Trash(id)) == BoardOf(SetTrashed(s, id, true), n, m)
  {
    var b, c := Races.Apply(BoardOf(s, n, m), Races.Trash(id)), BoardOf(SetTrashed(s, id, true), n, m);
    assert b.images == c.images;
  }

  lemma PurgeAlone(s: State, id: ImageId, n: ImageId, m: AlbumId)
    requires FilesPresent(s)
    ensures Races.Apply(BoardOf(s, n, m), Races.Purge(id)) == BoardOf(PerformPurge(s, id), n, m)
  {
    hide RefundOwner, DropRef;
    var b, c := Races.Apply(BoardOf(s, n, m), Races.Purge(id)), BoardOf(PerformPurge(s, id), n, m);
    assert b.images == c.images;
  }

  lemma DeleteAlone(s: State, user: UserId, a: AlbumId, withImages: bool, n: ImageId, m: AlbumId)
    requires AlbumsLinked(s) && OwnsAlbum(s, user, a)
    ensures Races.Apply(BoardOf(s, n, m), Races.DeleteAlbum(a, withImages))
            == BoardOf(PerformDeleteAlbum(s, user, a, withImages), n, m)
  {
    var b := Races.Apply(BoardOf(s, n, m), Races.DeleteAlbum(a, withImages));
    var c := BoardOf(PerformDeleteAlbum(s, user, a, withImages), n, m);
    assert b.images == c.images && b.albums == c.albums;
  }

  lemma CreateAlone(s: State, user: UserId, v: Visibility, n: ImageId, m: AlbumId)
    requires m !in s.albums && user in s.users
    ensures Races.Apply(BoardOf(s, n, m), Races.CreateAlbum(v))
            == BoardOf(Perform(s, CreateAlbum(user, m, v)), n, m + 1)
  {
    var b := Races.Apply(BoardOf(s, n, m), Races.CreateAlbum(v));
    var c := BoardOf(Perform(s, CreateAlbum(user, m, v)), n, m + 1);
    assert b.albums == c.albums;
  }

  // ----- what is remembered of conversions -----

  /** A conversion that reaches its last image clears the mark of one given up before; a crash marks all open ones. */
  lemma MarksOfConversions(b: Board, r: Races.RequestId, id: ImageId)
    ensures r in b.requests && b.requests[r].Converting? && b.requests[r].todo == {id}
            && id in b.images && !b.images[id].trashed ==>
              var t := Races.Apply(b, Races.Convert(r, id));
              r !in t.requests && t.unfinished == b.unfinished - {b.requests[r].album}
    ensures var t := Races.Apply(b, Races.Crash);
            && t.requests == map[] && t.images == b.images && t.albums == b.albums
            && forall a :: a in t.unfinished <==> a in b.unfinished || Races.Changing(b, a)
  {
    if r in b.requests && b.requests[r].Converting? && b.requests[r].todo == {id} {
      assert b.requests[r].todo - {id} == {};
    }
  }
}
