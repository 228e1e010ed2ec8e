/** Short concrete runs that show where the store's guards stop short of the property next door. */
module Counterexamples {
  import opened Prelude
  import opened StoreState
  import opened Purge
  import opened Rehome
  import opened Accounts
  import opened StoreRuns
  import opened StoreSafety
  import opened Agreement
  import opened Schedules
  import opened Operations
  import opened AlbumPrivacy

  const BYTES: Content := [7]
  const PUBLIC_FILE := File(BYTES, On(Public), Path(Public, 0), 1, 1)
  const PRIVATE_FILE := File(BYTES, On(Private), Path(Private, 1), 1, 1)
  const SHOWN := Image(Some(0), 0, None, Public, false)
  const GO_PRIVATE := Updates(Some(Private), None)

  /** The system after the first n events of a run from the empty store. */
  ghost function After(events: seq<Event>, n: nat): System
    requires n <= |events|
  {
    Run(START, events[..n])
  }

  lemma OneMore(events: seq<Event>, n: nat)
    requires n < |events|
    ensures After(events, n + 1) == Apply(After(events, n), events[n])
  {
    assert events[..n + 1][..n] == events[..n];
  }

  lemma NoneYet(events: seq<Event>)
    ensures After(events, 0) == START
  {
  }

  /** User 0 uploads into a store without images. */
  lemma FirstUpload(users: map<UserId, int>)
    requires 0 in users
    ensures UploadNew(EMPTY.(users := users), Some(0), BYTES, Public, None, 0)
            == (State(map[0 := SHOWN], map[0 := PUBLIC_FILE], users[0 := users[0] + 1], map[],
                      map[Path(Public, 0) := BYTES], {}, 1, 1, 1), None)
  {
    var s := EMPTY.(users := users);
    var (t, _) := UploadNew(s, Some(0), BYTES, Public, None, 0);
    assert t.images == map[0 := SHOWN];
    assert t.files == map[0 := PUBLIC_FILE];
    assert t.objects == map[Path(Public, 0) := BYTES];
  }

  // ----- an expired image is moved between the clean-up's query and its transaction -----

  /** Two users show the same public content; user 0's image then goes private. */
  const MOVED_SINCE: seq<Event> := [
    SignUp(0),
    SignUp(1),
    Upload(Some(0), BYTES, Public, None, 0),
    Reupload(Some(1), 0, None, 0),
    BeginUpdate(0, 0, GO_PRIVATE),
    LoadRow(0),
    Lookup(0),
    CopyOver(0, true, true),
    Create(0, true, true),
    CommitMove(0)]

  const SHARED_FILE := PUBLIC_FILE.(refCount := 2)
  const SHARED_JOB := Job(0, 0, SHARED_FILE, Private, GO_PRIVATE)

  lemma BothShow()
    ensures var s := After(MOVED_SINCE, 4);
            && s.db.images == map[0 := SHOWN, 1 := SHOWN.(user := Some(1))]
            && s.db.files == map[0 := SHARED_FILE]
            && s.db.objects == map[Path(Public, 0) := BYTES]
            && s.db.nextFile == 1 && s.db.nextName == 1 && s.calls == map[]
  {
    hide Run, ApplyRemoveAccount, UploadNew;
    NoneYet(MOVED_SINCE);
    OneMore(MOVED_SINCE, 0);
    OneMore(MOVED_SINCE, 1);
    OneMore(MOVED_SINCE, 2);
    FirstUpload(After(MOVED_SINCE, 2).db.users);
    OneMore(MOVED_SINCE, 3);
  }

  lemma SharedRead()
    ensures var s := After(MOVED_SINCE, 6);
            s.db == After(MOVED_SINCE, 4).db && s.calls == map[0 := Loaded(SHARED_JOB)]
  {
    hide Run, After;
    BothShow();
    OneMore(MOVED_SINCE, 4);
    assert After(MOVED_SINCE, 5).calls == map[0 := Opened(0, 0, Private, GO_PRIVATE)];
    OneMore(MOVED_SINCE, 5);
  }

  lemma SharedLoaded()
    ensures var s := After(MOVED_SINCE, 7);
            s.db == After(MOVED_SINCE, 4).db && s.calls == map[0 := Missed(SHARED_JOB)]
  {
    hide Run, After;
    BothShow();
    SharedRead();
    OneMore(MOVED_SINCE, 6);
  }

  lemma SharedCopied()
    ensures var s := After(MOVED_SINCE, 8);
            && s.calls == map[0 := Copied(SHARED_JOB, Path(Private, 1))]
            && s.db.images == After(MOVED_SINCE, 4).db.images && s.db.files == map[0 := SHARED_FILE]
            && s.db.nextFile == 1
  {
    hide Run, After;
    BothShow();
    SharedLoaded();
    OneMore(MOVED_SINCE, 7);
  }

  lemma PrivateCopyStored()
    ensures var s := After(MOVED_SINCE, 9);
            && s.calls == map[0 := Resolved(SHARED_JOB, 1)]
            && s.db.images == map[0 := SHOWN, 1 := SHOWN.(user := Some(1))]
            && s.db.files == map[0 := SHARED_FILE, 1 := PRIVATE_FILE.(refCount := 0)]
  {
    hide Run, After, NewUser;
    BothShow();
    SharedCopied();
    OneMore(MOVED_SINCE, 8);
  }

  lemma SharedMoved()
    ensures var s := After(MOVED_SINCE, 10);
            && s.db.images == map[0 := Image(Some(0), 1, None, Private, false), 1 := SHOWN.(user := Some(1))]
            && s.db.files == map[0 := PUBLIC_FILE, 1 := PRIVATE_FILE]
  {
    hide Run, After, NewUser, ApplyRemoveAccount;
    PrivateCopyStored();
    OneMore(MOVED_SINCE, 9);
  }

  /**
    The clean-up of expired images reads image 0 before it is moved and purges it, with that copy, afterwards. The
    public file goes although user 1 still shows it; with a fresh copy nothing would have been lost.
   */
  lemma StalePurgeBreaksCounts()
    ensures var s := After(MOVED_SINCE, |MOVED_SINCE|);
            && 0 in After(MOVED_SINCE, 4).db.images && SystemInv(s)
            && var copy := After(MOVED_SINCE, 4).db.images[0];
               var ready := SetTrashed(s.db, 0, true);
               var (t, o) := PurgeOne(ready, 0, copy);
               && o == FileFreed(Path(Public, 0))
               && !RefsExact(t) && !FilesPresent(t)
               && 0 in ready.images && Inv(PurgeOne(ready, 0, ready.images[0]).0)
  {
    hide Run, SystemInv, Inv;
    BothShow();
    SharedMoved();
    ReachedStores();
    var ready := SetTrashed(After(MOVED_SINCE, 10).db, 0, true);
    PurgeOneKeepsInv(ready, 0, ready.images[0]);
    var t := PurgeOne(ready, 0, SHOWN).0;
    assert 1 in t.images && t.images[1].file !in t.files;
    assert Refs(t.images, 1) == {};
  }

  lemma ReachedStores()
    ensures var s := After(MOVED_SINCE, |MOVED_SINCE|);
            SystemInv(s) && Inv(SetTrashed(s.db, 0, true))
  {
    hide Run, Inv;
    StartIsConsistent();
    RunsKeepSystem(START, MOVED_SINCE[..|MOVED_SINCE|]);
    var db := After(MOVED_SINCE, |MOVED_SINCE|).db;
    SetTrashedSameLinks(db, 0, true);
    SameLinksKeepsInv(db, SetTrashed(db, 0, true));
  }

  // ----- two updates of one image overlap -----

  /** "Public" looks first and writes last, "private" moves the image in between. */
  const LATE_WRITE: seq<Event> := [
    SignUp(0),
    Upload(Some(0), BYTES, Public, None, 0),
    BeginUpdate(0, 0, Updates(Some(Public), None)),
    LoadRow(0),
    BeginUpdate(1, 0, GO_PRIVATE),
    LoadRow(1),
    Lookup(1),
    CopyOver(1, true, true),
    Create(1, true, true),
    CommitMove(1),
    Write(0)]

  const MOVE_JOB := Job(0, 0, PUBLIC_FILE, Private, GO_PRIVATE)
  const WRITE_DUE := Plain(0, Updates(Some(Public), None))

  lemma FirstShow()
    ensures After(LATE_WRITE, 2).db == State(map[0 := SHOWN], map[0 := PUBLIC_FILE], map[0 := 1], map[],
                                             map[Path(Public, 0) := BYTES], {}, 1, 1, 1)
    ensures After(LATE_WRITE, 2).calls == map[]
  {
    hide Run, After, UploadNew;
    NoneYet(LATE_WRITE);
    OneMore(LATE_WRITE, 0);
    FirstUpload(After(LATE_WRITE, 1).db.users);
    OneMore(LATE_WRITE, 1);
  }

  lemma UploadThenLook()
    ensures After(LATE_WRITE, 4).db == After(LATE_WRITE, 2).db
    ensures After(LATE_WRITE, 4).calls == map[0 := WRITE_DUE]
  {
    hide Run, After, UploadNew;
    FirstShow();
    OneMore(LATE_WRITE, 2);
    assert After(LATE_WRITE, 3).calls == map[0 := Opened(0, 0, Public, Updates(Some(Public), None))];
    OneMore(LATE_WRITE, 3);
  }

  lemma MoveStarts()
    ensures After(LATE_WRITE, 6).db == After(LATE_WRITE, 4).db
    ensures After(LATE_WRITE, 6).calls == map[0 := WRITE_DUE, 1 := Loaded(MOVE_JOB)]
    ensures Overlaps(After(LATE_WRITE, 4), LATE_WRITE[4])
  {
    hide Run, After, NewUser;
    FirstShow();
    UploadThenLook();
    assert ImageOf(After(LATE_WRITE, 4).calls[0]) == 0;
    OneMore(LATE_WRITE, 4);
    assert After(LATE_WRITE, 5).calls[1] == Opened(0, 0, Private, GO_PRIVATE);
    OneMore(LATE_WRITE, 5);
  }

  lemma MoveInBetween()
    ensures var s := After(LATE_WRITE, 8);
            && s.calls == map[0 := WRITE_DUE, 1 := Copied(MOVE_JOB, Path(Private, 1))]
            && s.db.images == map[0 := SHOWN] && s.db.files == map[0 := PUBLIC_FILE] && s.db.nextFile == 1
  {
    hide Run, After, NewUser, ApplyRemoveAccount;
    FirstShow();
    UploadThenLook();
    MoveStarts();
    OneMore(LATE_WRITE, 6);
    assert After(LATE_WRITE, 7).calls[1] == Missed(MOVE_JOB);
    OneMore(LATE_WRITE, 7);
  }

  lemma PrivateRowMade()
    ensures var s := After(LATE_WRITE, 9);
            && s.calls == map[0 := WRITE_DUE, 1 := Resolved(MOVE_JOB, 1)]
            && s.db.images == map[0 := SHOWN]
            && s.db.files == map[0 := PUBLIC_FILE, 1 := PRIVATE_FILE.(refCount := 0)]
  {
    hide Run, After;
    MoveInBetween();
    OneMore(LATE_WRITE, 8);
  }

  lemma MoveEnds()
    ensures var s := After(LATE_WRITE, 10);
            && s.calls == map[0 := WRITE_DUE]
            && s.db.images == map[0 := Image(Some(0), 1, None, Private, false)]
            && 1 in s.db.files && s.db.files[1].surface == On(Private)
  {
    hide Run, After;
    PrivateRowMade();
    OneMore(LATE_WRITE, 9);
  }

  /** The requests overlap, and the late write leaves a public image on the private file. */
  lemma LateWriteBreaksAgreement()
    ensures !OneAtATime(START, LATE_WRITE)
    ensures Raced(After(LATE_WRITE, 10), LATE_WRITE[10])
    ensures !Agree(Run(START, LATE_WRITE).db)
  {
    hide Run;
    MoveStarts();
    MoveEnds();
    OneMore(LATE_WRITE, 10);
    assert LATE_WRITE[..11] == LATE_WRITE;
    assert !Agrees(After(LATE_WRITE, 11).db, 0);
  }

  // ----- a restore into an album that turned private -----

  /** A public image is trashed before its album turns private, and restored afterwards. */
  const TRASH_CONVERT_RESTORE: seq<Op> := [
    Register(0),
    CreateAlbum(0, 0, Public),
    AddUpload(Some(0), BYTES, Public, Some(0), 0),
    SoftDelete(0, 0),
    ChangeAlbum(0, 0, Private, []),
    Restore(0, 0)]

  ghost function Stage(n: nat): State
    requires n <= |TRASH_CONVERT_RESTORE|
  {
    PerformAll(EMPTY, TRASH_CONVERT_RESTORE[..n])
  }

  lemma NextStage(n: nat)
    requires n < |TRASH_CONVERT_RESTORE|
    ensures Stage(n + 1) == Perform(Stage(n), TRASH_CONVERT_RESTORE[n])
  {
    assert TRASH_CONVERT_RESTORE[..n + 1][..n] == TRASH_CONVERT_RESTORE[..n];
  }

  lemma UploadIntoAlbum()
    ensures Stage(3).images == map[0 := Image(Some(0), 0, Some(0), Public, false)]
    ensures Stage(3).albums == map[0 := Album(0, Public)]
  {
    assert Stage(0) == EMPTY;
    NextStage(0);
    NextStage(1);
    NextStage(2);
  }

  lemma TrashedThenConverted()
    ensures Stage(5).images == map[0 := Image(Some(0), 0, Some(0), Public, true)]
    ensures Stage(5).albums == map[0 := Album(0, Private)]
  {
    hide Stage, UpdateImage;
    UploadIntoAlbum();
    NextStage(3);
    assert Stage(4) == SetTrashed(Stage(3), 0, true);
    NextStage(4);
    assert ListsAlbum([], Stage(4), 0, 0);
    assert Stage(5) == UpdateAlbum(Stage(4), 0, 0, Private, []).0;
  }

  lemma RestoreIntoPrivateAlbum()
    ensures Tidy(Stage(5))
    ensures !PrivateInside(PerformAll(EMPTY, TRASH_CONVERT_RESTORE))
  {
    hide Inv, Agree, PerformAll, Tidy, UpdateImage;
    TrashedThenConverted();
    NextStage(5);
    assert TRASH_CONVERT_RESTORE[..6] == TRASH_CONVERT_RESTORE;
    assert !PrivateIfHidden(Stage(6), Stage(6).images[0]);
    EmptyIsTidy();
    RunsWithoutRestore(EMPTY, TRASH_CONVERT_RESTORE[..5]);
  }
}
