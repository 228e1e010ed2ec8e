/** The start-up repair: every live image whose visibility differs from its file's surface is moved. */
module Repair {
  import opened Prelude
  import opened StoreState
  import opened StoreRuns
  import opened Agreement
  import opened Operations

  predicate Mismatched(s: State, id: ImageId)
  {
    id in s.images && !s.images[id].trashed && !Agrees(s, id)
  }

  ghost predicate LiveAgree(s: State)
  {
    forall id :: id in s.images ==> !Mismatched(s, id)
  }

  /** The images the repair query selects, each once. */
  ghost predicate ListsMismatched(order: seq<ImageId>, s: State)
  {
    NoDuplicates(order) && forall id :: id in order <==> Mismatched(s, id)
  }

  /** Repairs a list of images in order; also counts the successes. */
  ghost function RepairAll(s: State, ids: seq<ImageId>): (State, nat)
  {
    if ids == [] then (s, 0)
    else
      var (t, n) := RepairAll(s, ids[..|ids| - 1]);
      var id := ids[|ids| - 1];
      if id !in t.images || t.images[id].file !in t.files || Agrees(t, id) then (t, n)
      else
        var (u, r) := Move(t, id, t.images[id].visibility, NOTHING);
        (u, if r == Ok then n + 1 else n)
  }

  /** Images in `done` were re-pointed to agreeing files, the others kept theirs. */
  ghost predicate Repaired(s: State, t: State, done: set<ImageId>)
  {
    && t.images.Keys == s.images.Keys && t.albums == s.albums && t.users == s.users
    && (forall i :: i in s.images ==> t.images[i] == s.images[i].(file := t.images[i].file))
    && (forall i :: i in s.images && i !in done ==> t.images[i].file == s.images[i].file)
    && (forall i :: i in s.images && i !in done ==> Agrees(t, i) == Agrees(s, i))
    && (forall i :: i in s.images && i in done ==> Agrees(t, i))
  }

  lemma RepairedOneMore(s: State, t: State, u: State, done: set<ImageId>, id: ImageId)
    requires Repaired(s, t, done) && id !in done && OnlyImage(t, u, id)
    requires u.images[id] == t.images[id].(file := u.images[id].file) && Agrees(u, id)
    requires forall i :: i in t.images && i != id ==> Agrees(u, i) == Agrees(t, i)
    ensures Repaired(s, u, done + {id})
  {
  }

  lemma RepairStep(s: State, t: State, done: set<ImageId>, id: ImageId)
    requires Inv(t) && Repaired(s, t, done) && Mismatched(s, id) && id !in done
    ensures id in t.images && t.images[id].file in t.files && !Agrees(t, id)
    ensures var (u, r) := Move(t, id, t.images[id].visibility, NOTHING);
            r == Ok && Inv(u) && Repaired(s, u, done + {id})
  {
    hide Move, FilesPresent;
    MoveWorks(t, id, t.images[id].visibility, NOTHING);
    var u := Move(t, id, t.images[id].visibility, NOTHING).0;
    MovedAlone(t, u, id);
    RepairedOneMore(s, t, u, done, id);
  }

  /** Moving one image leaves the agreement of all others as it was. */
  lemma MovedAlone(s: State, t: State, id: ImageId)
    requires FilesPresent(s) && FilesPresent(t) && OnlyImage(s, t, id)
    ensures forall i :: i in s.images && i != id ==> Agrees(t, i) == Agrees(s, i)
  {
    forall i | i in s.images && i != id
      ensures Agrees(t, i) == Agrees(s, i)
    {
      assert s.images[i].file in s.files && t.images[i].file in t.files;
    }
  }

  lemma {:induction false} RepairAllWorks(s: State, ids: seq<ImageId>)
    requires Inv(s) && NoDuplicates(ids) && forall id :: id in ids ==> Mismatched(s, id)
    ensures var (t, n) := RepairAll(s, ids);
            Inv(t) && Repaired(s, t, Elements(ids)) && n == |ids|
  {
    if ids != [] {
      DropLastElement(ids);
      RepairAllWorks(s, ids[..|ids| - 1]);
      RepairStep(s, RepairAll(s, ids[..|ids| - 1]).0, Elements(ids[..|ids| - 1]), ids[|ids| - 1]);
    }
  }

  /**
    From any consistent store, whatever its visibilities, the repair run alone brings every live image into
    agreement, changes no visibility, and counts exactly the images it moved.
   */
  lemma RepairEstablishesAgreement(s: State, order: seq<ImageId>)
    requires Inv(s) && ListsMismatched(order, s)
    ensures var (t, n) := RepairAll(s, order);
            && Inv(t) && LiveAgree(t) && n == |order|
            && t.images.Keys == s.images.Keys
            && (forall i :: i in s.images ==> t.images[i] == s.images[i].(file := t.images[i].file))
            && (forall i :: i in s.images && !Mismatched(s, i) ==> t.images[i] == s.images[i])
  {
    RepairAllWorks(s, order);
    var t := RepairAll(s, order).0;
    forall id | id in t.images
      ensures !Mismatched(t, id)
    {
      assert id in Elements(order) <==> Mismatched(s, id);
    }
  }
}
