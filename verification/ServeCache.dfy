/**
  The disk cache of served bytes: a directory of files with modification times, evicted oldest first under
  a byte budget. File names are hashes of keys; SHA-256 is taken to be injective, so a key names its file.
 */
module ServeCache {
  import opened Prelude

  type Time = int
  type Data = seq<nat>

  /** An entry's file, or the temporary file it is written to first. */
  datatype Path = Path(key: string, temporary: bool)

  datatype Entry = Entry(data: Data, modified: Time)

  type Dir = map<Path, Entry>

  const DEFAULT_MAX_BYTES := 512 * 1024 * 1024
  const DEFAULT_MAX_FILE_BYTES := 20 * 1024 * 1024

  function FilePath(key: string): Path
  {
    Path(key, false)
  }

  /** Sizes of the entries; temporary files are not looked at. */
  function EntrySizes(d: Dir): map<Path, nat>
  {
    map p | p in d && !p.temporary :: |d[p].data|
  }

  ghost function Total(d: Dir): nat
  {
    Sum(EntrySizes(d))
  }

  // ----- what eviction should do -----

  /** All entries, each once, oldest first. */
  ghost predicate OldestFirst(order: seq<Path>, d: Dir)
  {
    && NoDuplicates(order)
    && (forall p :: p in order <==> p in d && !p.temporary)
    && (forall i, j :: 0 <= i < j < |order| ==> d[order[i]].modified <= d[order[j]].modified)
  }

  function Without(d: Dir, victims: seq<Path>): Dir
  {
    d - Elements(victims)
  }

  /** The first k entries go, and k is the least number that makes room, or all of them. */
  ghost predicate Evicts(d: Dir, order: seq<Path>, k: nat, incoming: nat, maxBytes: nat)
  {
    && OldestFirst(order, d) && k <= |order|
    && (k < |order| ==> Total(Without(d, order[..k])) + incoming <= maxBytes)
    && (k > 0 ==> Total(Without(d, order[..k - 1])) + incoming > maxBytes)
  }

  predicate Accepted(data: Data, maxFileBytes: nat)
  {
    0 < |data| <= maxFileBytes
  }

  /** What an accepted put leaves: evict, write the temporary file, rename it. */
  function Stored(d: Dir, key: string, data: Data, now: Time, victims: seq<Path>): Dir
  {
    (Without(d, victims) - {Path(key, true)})[FilePath(key) := Entry(data, now)]
  }

  ghost predicate PutStep(d: Dir, key: string, data: Data, now: Time, e: Dir, maxBytes: nat, maxFileBytes: nat)
  {
    if !Accepted(data, maxFileBytes) then e == d
    else exists order, k :: Evicts(d, order, k, |data|, maxBytes) && e == Stored(d, key, data, now, order[..k])
  }

  function Touched(d: Dir, key: string, now: Time): Dir
  {
    if FilePath(key) in d then d[FilePath(key) := d[FilePath(key)].(modified := now)] else d
  }

  // ----- what follows for every put -----

  lemma {:induction false} NothingLeft(d: Dir)
    requires forall p :: p in d ==> p.temporary
    ensures Total(d) == 0
  {
    assert EntrySizes(d) == map[];
  }

  lemma TotalStored(d: Dir, key: string, data: Data, now: Time)
    ensures Total((d - {Path(key, true)})[FilePath(key) := Entry(data, now)]) <= Total(d) + |data|
  {
    var e := (d - {Path(key, true)})[FilePath(key) := Entry(data, now)];
    SumRemove(EntrySizes(e), FilePath(key));
    if FilePath(key) in d {
      SumRemove(EntrySizes(d), FilePath(key));
      assert EntrySizes(e) - {FilePath(key)} == EntrySizes(d) - {FilePath(key)};
    } else {
      assert EntrySizes(e) - {FilePath(key)} == EntrySizes(d);
    }
  }

  /** After every accepted put, from any directory, the entries fit the budget, or the new one is alone. */
  lemma PutBound(d: Dir, key: string, data: Data, now: Time, e: Dir, maxBytes: nat, maxFileBytes: nat)
    requires PutStep(d, key, data, now, e, maxBytes, maxFileBytes) && Accepted(data, maxFileBytes)
    ensures Total(e) <= (if maxBytes >= |data| then maxBytes else |data|)
    ensures FilePath(key) in e && e[FilePath(key)] == Entry(data, now)
  {
    var order, k :| Evicts(d, order, k, |data|, maxBytes) && e == Stored(d, key, data, now, order[..k]);
    var rest := Without(d, order[..k]);
    TotalStored(rest, key, data, now);
    if k == |order| {
      assert order[..k] == order;
      NothingLeft(rest);
    }
  }

  /**
    What an accepted put leaves: the new entry, and every other path of the old directory that is no victim and not
    the entry's own temporary file, with its bytes and its time. With room for the new bytes nothing is a victim.
   */
  lemma PutLeaves(d: Dir, key: string, data: Data, now: Time, e: Dir, maxBytes: nat, maxFileBytes: nat)
    returns (order: seq<Path>, k: nat)
    requires PutStep(d, key, data, now, e, maxBytes, maxFileBytes) && 0 < |data| <= maxFileBytes
    ensures Evicts(d, order, k, |data|, maxBytes)
    ensures Path(key, false) in e && e[Path(key, false)] == Entry(data, now)
    ensures forall p :: p != Path(key, false) ==>
              (p in e <==> p in d && p !in order[..k] && p != Path(key, true))
    ensures forall p :: p != Path(key, false) && p in e ==> e[p] == d[p]
    ensures Total(d) + |data| <= maxBytes ==> k == 0
  {
    hide Total;
    order, k :| Evicts(d, order, k, |data|, maxBytes) && e == Stored(d, key, data, now, order[..k]);
    if k > 0 {
      NoFewerVictims(d, order, k, |data|, maxBytes, 0);
      assert Without(d, order[..0]) == d;
    }
  }

  /** Whatever goes is an entry no newer than any other entry that stays; foreign temporary files stay. */
  lemma PutKeepsNewest(d: Dir, key: string, data: Data, now: Time, e: Dir, maxBytes: nat, maxFileBytes: nat,
                       gone: Path, kept: Path)
    requires PutStep(d, key, data, now, e, maxBytes, maxFileBytes) && 0 < |data| <= maxFileBytes
    requires gone in d && gone !in e && gone != Path(key, true)
    requires kept in d && kept in e && kept != Path(key, false) && !kept.temporary
    ensures !gone.temporary && d[gone].modified <= d[kept].modified
  {
    var order, k := PutLeaves(d, key, data, now, e, maxBytes, maxFileBytes);
    VictimsAreOldest(d, order, k, |data|, maxBytes, gone, kept);
  }

  /** The victims are the oldest: none is newer than an entry that survives the eviction. */
  lemma VictimsAreOldest(d: Dir, order: seq<Path>, k: nat, incoming: nat, maxBytes: nat, victim: Path, survivor: Path)
    requires Evicts(d, order, k, incoming, maxBytes)
    requires victim in d && victim !in Without(d, order[..k])
    requires survivor in Without(d, order[..k]) && !survivor.temporary
    ensures !victim.temporary && d[victim].modified <= d[survivor].modified
  {
    var i :| 0 <= i < k && order[..k][i] == victim;
    var j :| 0 <= j < |order| && order[j] == survivor;
    assert j < k ==> order[..k][j] == survivor;
    assert order[i] == victim;
  }

  /** An entry read just now is evicted only after every entry last used before. */
  lemma JustReadGoesLast(d: Dir, key: string, now: Time, order: seq<Path>, k: nat, incoming: nat, maxBytes: nat)
    requires FilePath(key) in d && forall p :: p in d && p != FilePath(key) ==> d[p].modified < now
    requires Evicts(Touched(d, key, now), order, k, incoming, maxBytes)
    requires FilePath(key) !in Without(Touched(d, key, now), order[..k])
    ensures forall p :: p in Without(Touched(d, key, now), order[..k]) ==> p.temporary
  {
    var e := Touched(d, key, now);
    forall p | p in Without(e, order[..k]) && !p.temporary
      ensures false
    {
      VictimsAreOldest(e, order, k, incoming, maxBytes, FilePath(key), p);
    }
  }

  lemma WithoutMore(d: Dir, order: seq<Path>, m: nat, n: nat)
    requires OldestFirst(order, d) && m <= n <= |order|
    ensures Total(Without(d, order[..m])) >= Total(Without(d, order[..n]))
    decreases n - m
  {
    if m < n {
      OneVictim(d, order, m);
      WithoutMore(d, order, m + 1, n);
    }
  }

  /** The next victim takes exactly its size off the total. */
  lemma OneVictim(d: Dir, order: seq<Path>, m: nat)
    requires OldestFirst(order, d) && m < |order|
    ensures order[m] in d && order[m] in Without(d, order[..m]) && Without(d, order[..m])[order[m]] == d[order[m]]
    ensures Without(d, order[..m + 1]) == Without(d, order[..m]) - {order[m]}
    ensures Total(Without(d, order[..m])) == Total(Without(d, order[..m + 1])) + |d[order[m]].data|
  {
    hide Sum;
    var before := Without(d, order[..m]);
    assert order[..m + 1] == order[..m] + [order[m]];
    AppendElement(order[..m], order[m]);
    assert order[m] in order && order[m] !in order[..m];
    SumRemove(EntrySizes(before), order[m]);
    assert EntrySizes(Without(d, order[..m + 1])) == EntrySizes(before) - {order[m]};
  }

  /** No shorter oldest-first prefix would have made room. */
  lemma NoFewerVictims(d: Dir, order: seq<Path>, k: nat, incoming: nat, maxBytes: nat, fewer: nat)
    requires Evicts(d, order, k, incoming, maxBytes) && fewer < k
    ensures Total(Without(d, order[..fewer])) + incoming > maxBytes
  {
    hide OldestFirst, Total, Without;
    WithoutMore(d, order, fewer, k - 1);
  }

  // ----- runs: a hit is the latest accepted put -----

  datatype Op = Put(key: string, data: Data, now: Time) | Get(key: string, now: Time)

  ghost predicate StepOk(d: Dir, op: Op, e: Dir, maxBytes: nat, maxFileBytes: nat)
  {
    match op
    case Put(key, data, now) => PutStep(d, key, data, now, e, maxBytes, maxFileBytes)
    case Get(key, now) => e == Touched(d, key, now)
  }

  ghost predicate IsRun(dirs: seq<Dir>, ops: seq<Op>, maxBytes: nat, maxFileBytes: nat)
  {
    && |dirs| == |ops| + 1
    && forall i :: 0 <= i < |ops| ==> StepOk(dirs[i], ops[i], dirs[i + 1], maxBytes, maxFileBytes)
  }

  predicate Overwrites(op: Op, key: string, maxFileBytes: nat)
  {
    op.Put? && op.key == key && Accepted(op.data, maxFileBytes)
  }

  /** Any other step leaves an entry's bytes alone or removes the entry. */
  lemma OtherStepKeepsData(d: Dir, op: Op, e: Dir, maxBytes: nat, maxFileBytes: nat, key: string)
    requires StepOk(d, op, e, maxBytes, maxFileBytes) && !Overwrites(op, key, maxFileBytes)
    ensures FilePath(key) in e ==> FilePath(key) in d && e[FilePath(key)].data == d[FilePath(key)].data
  {
  }

  /** A hit at the end of a run returns the bytes of the latest accepted put of its key. */
  lemma {:induction false} HitIsLatestPut(dirs: seq<Dir>, ops: seq<Op>, maxBytes: nat, maxFileBytes: nat,
                                          put: nat, at: nat)
    requires IsRun(dirs, ops, maxBytes, maxFileBytes) && put < at <= |ops|
    requires ops[put].Put? && Accepted(ops[put].data, maxFileBytes)
    requires forall i :: put < i < at ==> !Overwrites(ops[i], ops[put].key, maxFileBytes)
    ensures FilePath(ops[put].key) in dirs[at] ==> dirs[at][FilePath(ops[put].key)].data == ops[put].data
    decreases at
  {
    hide PutStep;
    assert StepOk(dirs[at - 1], ops[at - 1], dirs[at - 1 + 1], maxBytes, maxFileBytes);
    if at == put + 1 {
      var op := ops[put];
      PutBound(dirs[put], op.key, op.data, op.now, dirs[at], maxBytes, maxFileBytes);
    } else {
      HitIsLatestPut(dirs, ops, maxBytes, maxFileBytes, put, at - 1);
      OtherStepKeepsData(dirs[at - 1], ops[at - 1], dirs[at], maxBytes, maxFileBytes, ops[put].key);
    }
  }

  /** Without any accepted put in between, a hit returns what the directory held at the start. */
  lemma {:induction false} HitIsOriginal(dirs: seq<Dir>, ops: seq<Op>, maxBytes: nat, maxFileBytes: nat,
                                         key: string, at: nat)
    requires IsRun(dirs, ops, maxBytes, maxFileBytes) && at <= |ops|
    requires forall i :: 0 <= i < at ==> !Overwrites(ops[i], key, maxFileBytes)
    ensures FilePath(key) in dirs[at] ==>
              FilePath(key) in dirs[0] && dirs[at][FilePath(key)].data == dirs[0][FilePath(key)].data
  {
    hide PutStep;
    if at > 0 {
      HitIsOriginal(dirs, ops, maxBytes, maxFileBytes, key, at - 1);
      assert StepOk(dirs[at - 1], ops[at - 1], dirs[at - 1 + 1], maxBytes, maxFileBytes);
      OtherStepKeepsData(dirs[at - 1], ops[at - 1], dirs[at], maxBytes, maxFileBytes, key);
    }
  }

  // ----- the cache as it runs -----

  class Cache {
    const maxBytes: nat
    const maxFileBytes: nat
    var dir: Dir

    /** Limits of zero or less stand for the defaults; the directory is taken as found. */
    constructor (found: Dir, bytes: int, fileBytes: int)
      ensures dir == found
      ensures maxBytes == if bytes <= 0 then DEFAULT_MAX_BYTES else bytes
      ensures maxFileBytes == if fileBytes <= 0 then DEFAULT_MAX_FILE_BYTES else fileBytes
    {
      dir := found;
      maxBytes := if bytes <= 0 then DEFAULT_MAX_BYTES else bytes;
      maxFileBytes := if fileBytes <= 0 then DEFAULT_MAX_FILE_BYTES else fileBytes;
    }

    /** A hit is used now, which is what makes eviction least-recently-used. */
    method Get(key: string, now: Time) returns (hit: Option<Data>)
      modifies this
      ensures hit == if FilePath(key) in old(dir) then Some(old(dir)[FilePath(key)].data) else None
      ensures dir == Touched(old(dir), key, now)
      ensures dir.Keys == old(dir).Keys && forall p :: p in dir && p != Path(key, false) ==> dir[p] == old(dir)[p]
      ensures Path(key, false) in dir ==>
                dir[Path(key, false)] == Entry(old(dir)[Path(key, false)].data, now) && hit.Some?
    {
      var p := FilePath(key);
      if p !in dir {
        return None;
      }
      dir := dir[p := dir[p].(modified := now)];
      hit := Some(dir[p].data);
    }

    /** The walk over the directory: the entries, oldest first, and their total size. */
    method Scan() returns (ents: seq<Path>, used: nat)
      ensures OldestFirst(ents, dir) && used == Total(dir)
    {
      hide Picked, Total;
      ents, used := [], 0;
      var rest := Entries(dir);
      NothingPicked(dir);
      while rest != {}
        invariant Picked(dir, ents, rest) && rest <= Entries(dir)
        invariant used + Total(Without(dir, ents)) == Total(dir)
        decreases |rest|
      {
        OldestExists(dir, rest);
        var p :| p in rest && forall q :: q in rest ==> dir[p].modified <= dir[q].modified;
        OnePicked(dir, ents, rest, p);
        ents := ents + [p];
        used := used + |dir[p].data|;
        rest := rest - {p};
      }
      AllPicked(dir, ents);
    }

    /** Removes oldest entries one after another until the incoming bytes fit. */
    method Evict(incoming: nat) returns (ghost order: seq<Path>, ghost k: nat)
      modifies this
      ensures Evicts(old(dir), order, k, incoming, maxBytes) && dir == Without(old(dir), order[..k])
    {
      hide Total, Without, OldestFirst;
      var ents, used := Scan();
      order, k := ents, 0;
      NothingPicked(dir);
      assert ents[..0] == [];
      var i := 0;
      while i < |ents|
        invariant 0 <= i == k <= |ents| && OldestFirst(ents, old(dir))
        invariant dir == Without(old(dir), ents[..i]) && used == Total(dir)
        invariant i > 0 ==> Total(Without(old(dir), ents[..i - 1])) + incoming > maxBytes
      {
        if used + incoming <= maxBytes {
          return;
        }
        OneVictim(old(dir), ents, i);
        var e := ents[i];
        used := used - |dir[e].data|;
        dir := dir - {e};
        i := i + 1;
        k := i;
      }
    }

    /** Empty and oversized data is not stored, without an error. */
    method Put(key: string, data: Data, now: Time)
      modifies this
      ensures PutStep(old(dir), key, data, now, dir, maxBytes, maxFileBytes)
      ensures data == [] || |data| > maxFileBytes ==> dir == old(dir)
      ensures 0 < |data| <= maxFileBytes ==>
                && Total(dir) <= (if maxBytes >= |data| then maxBytes else |data|)
                && Path(key, false) in dir && dir[Path(key, false)] == Entry(data, now)
                && (forall p :: p in dir && p != Path(key, false) ==> p in old(dir) && dir[p] == old(dir)[p])
                && (forall p :: p in old(dir) && p.temporary && p != Path(key, true) ==> p in dir)
                && (forall p, q :: p in old(dir) && p !in dir && p != Path(key, true)
                                   && q in old(dir) && q in dir && q != Path(key, false) && !q.temporary ==>
                      old(dir)[p].modified <= old(dir)[q].modified)
                && (Total(old(dir)) + |data| <= maxBytes ==>
                      forall p :: p in old(dir) && p != Path(key, true) ==> p in dir)
    {
      if |data| == 0 || |data| > maxFileBytes {
        return;
      }
      ghost var order, k := Evict(|data|);
      var p, tmp := FilePath(key), Path(key, true);
      dir := dir[tmp := Entry(data, now)];
      dir := dir[p := dir[tmp]] - {tmp};
      assert dir == Stored(old(dir), key, data, now, order[..k]);
      PutBound(old(dir), key, data, now, dir, maxBytes, maxFileBytes);
      PutEffect(old(dir), key, data, now, dir, maxBytes, maxFileBytes);
    }
  }

  /** The effect of an accepted put on every path. */
  lemma PutEffect(d: Dir, key: string, data: Data, now: Time, e: Dir, maxBytes: nat, maxFileBytes: nat)
    requires PutStep(d, key, data, now, e, maxBytes, maxFileBytes) && 0 < |data| <= maxFileBytes
    ensures Path(key, false) in e && e[Path(key, false)] == Entry(data, now)
    ensures forall p :: p in e && p != Path(key, false) ==> p in d && e[p] == d[p]
    ensures forall p :: p in d && p.temporary && p != Path(key, true) ==> p in e
    ensures forall p, q :: p in d && p !in e && p != Path(key, true)
                           && q in d && q in e && q != Path(key, false) && !q.temporary ==>
              d[p].modified <= d[q].modified
    ensures Total(d) + |data| <= maxBytes ==> forall p :: p in d && p != Path(key, true) ==> p in e
  {
    hide Total, PutStep;
    var order, k := PutLeaves(d, key, data, now, e, maxBytes, maxFileBytes);
    forall p, q | p in d && p !in e && p != Path(key, true) && q in d && q in e && q != Path(key, false) && !q.temporary
      ensures d[p].modified <= d[q].modified
    {
      PutKeepsNewest(d, key, data, now, e, maxBytes, maxFileBytes, p, q);
    }
  }

  function Entries(d: Dir): set<Path>
  {
    set p | p in d && !p.temporary
  }

  /** `ents` lists the entries outside `rest`, oldest first, and none of them is newer than one in `rest`. */
  ghost predicate Picked(d: Dir, ents: seq<Path>, rest: set<Path>)
  {
    && NoDuplicates(ents) && rest <= Entries(d)
    && (forall p :: p in ents <==> p in d && !p.temporary && p !in rest)
    && (forall i, j :: 0 <= i < j < |ents| ==> d[ents[i]].modified <= d[ents[j]].modified)
    && (forall p, q :: p in ents && q in rest ==> d[p].modified <= d[q].modified)
  }

  lemma NothingPicked(d: Dir)
    ensures Picked(d, [], Entries(d)) && Without(d, []) == d
  {
    assert Elements<Path>([]) == {};
  }

  lemma OnePicked(d: Dir, ents: seq<Path>, rest: set<Path>, p: Path)
    requires Picked(d, ents, rest) && p in rest && forall q :: q in rest ==> d[p].modified <= d[q].modified
    ensures Picked(d, ents + [p], rest - {p})
    ensures Total(Without(d, ents)) == Total(Without(d, ents + [p])) + |d[p].data|
  {
    hide Sum;
    AppendElement(ents, p);
    SumRemove(EntrySizes(Without(d, ents)), p);
    assert EntrySizes(Without(d, ents + [p])) == EntrySizes(Without(d, ents)) - {p};
  }

  lemma AllPicked(d: Dir, ents: seq<Path>)
    requires Picked(d, ents, {})
    ensures OldestFirst(ents, d) && Total(Without(d, ents)) == 0
  {
    NothingLeft(Without(d, ents));
  }

  lemma {:induction false} OldestExists(d: Dir, rest: set<Path>)
    requires rest != {} && rest <= d.Keys
    ensures exists p :: p in rest && forall q :: q in rest ==> d[p].modified <= d[q].modified
    decreases |rest|
  {
    var p :| p in rest;
    var others := rest - {p};
    if others != {} {
      OldestExists(d, others);
      var q :| q in others && forall r :: r in others ==> d[q].modified <= d[r].modified;
      var oldest := if d[p].modified <= d[q].modified then p else q;
      assert oldest in rest;
      forall r | r in rest
        ensures d[oldest].modified <= d[r].modified
      {
        assert r == p || r in others;
      }
    } else {
      assert rest == {p};
    }
  }
}
