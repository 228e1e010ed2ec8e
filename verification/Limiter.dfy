/**
  Fixed-window rate limiting: windows expire lazily, expired ones are swept now and then, and a request
  that passes several windows is first checked against all of them and then counted in each, reading the
  clock again every time.
 */
module Limiter {
  import opened Prelude

  type Time = int

  const SWEEP_THRESHOLD := 512
  const MINUTE: Time := 60_000_000_000
  const HOUR: Time := 60 * MINUTE
  const DAY: Time := 24 * HOUR

  datatype Window = Window(count: nat, reset: Time)

  type Hits = map<string, Window>

  datatype Tier = Tier(name: string, dur: Time, limit: int)

  datatype Answer = Answer(ok: bool, tier: string, retry: Time)

  const GRANTED := Answer(true, "", 0)

  function Tiers(perMinute: int, perHour: int, perDay: int): seq<Tier>
  {
    [Tier("minute", MINUTE, perMinute), Tier("hour", HOUR, perHour), Tier("day", DAY, perDay)]
  }

  function Key(id: string, name: string): string
  {
    id + "|" + name
  }

  // ----- the windows -----

  /** The window a reader at `now` takes into account. */
  function Look(h: Hits, key: string, now: Time): Option<Window>
  {
    if key in h && now <= h[key].reset then Some(h[key]) else None
  }

  function Swept(h: Hits, now: Time): Hits
  {
    map k | k in h && now <= h[k].reset :: h[k]
  }

  /** A limiter that never sweeps skips this. */
  function MaybeSwept(h: Hits, now: Time, sweeps: bool): Hits
  {
    if sweeps && |h| >= SWEEP_THRESHOLD then Swept(h, now) else h
  }

  predicate Full(h: Hits, key: string, limit: int, now: Time)
  {
    limit > 0 && Look(h, key, now).Some? && Look(h, key, now).value.count >= limit
  }

  /** One more in the open window, or the first in a new one. */
  function NextWindow(w: Option<Window>, dur: Time, now: Time): Window
  {
    if w.Some? then Window(w.value.count + 1, w.value.reset) else Window(1, now + dur)
  }

  function AllowAt(h: Hits, key: string, dur: Time, limit: int, now: Time, sweeps: bool): (Hits, bool)
  {
    if limit <= 0 then (h, true)
    else
      var s := MaybeSwept(h, now, sweeps);
      if Full(s, key, limit, now) then (s, false)
      else (s[key := NextWindow(Look(s, key, now), dur, now)], true)
  }

  /** The first enabled tier that is full at `now`, as a refusal. */
  function Refusal(h: Hits, id: string, tiers: seq<Tier>, now: Time): Option<Answer>
  {
    if tiers == [] then None
    else if Full(h, Key(id, tiers[0].name), tiers[0].limit, now) then
      Some(Answer(false, tiers[0].name, h[Key(id, tiers[0].name)].reset - now))
    else Refusal(h, id, tiers[1..], now)
  }

  /** Counts in every tier, the k-th at its own later reading. */
  function CountAll(h: Hits, id: string, tiers: seq<Tier>, at: seq<Time>, sweeps: bool): Hits
    requires |at| == |tiers|
  {
    if tiers == [] then h
    else
      var n := |tiers| - 1;
      AllowAt(CountAll(h, id, tiers[..n], at[..n], sweeps), Key(id, tiers[n].name), tiers[n].dur, tiers[n].limit, at[n],
              sweeps).0
  }

  function AllowAllAt(h: Hits, id: string, tiers: seq<Tier>, now: Time, at: seq<Time>, sweeps: bool): (Hits, Answer)
    requires |at| == |tiers|
  {
    var s := MaybeSwept(h, now, sweeps);
    var refusal := Refusal(s, id, tiers, now);
    if refusal.Some? then (s, refusal.value) else (CountAll(s, id, tiers, at, sweeps), GRANTED)
  }

  // ----- requests and runs -----

  datatype Request =
    | One(key: string, dur: Time, limit: int, now: Time)
    | Tiered(id: string, tiers: seq<Tier>, now: Time, at: seq<Time>)
    | SweepNow(now: Time)

  /** The clock never runs backwards inside a request. */
  predicate Ordered(r: Request)
  {
    r.Tiered? ==> |r.at| == |r.tiers| && Ascending(r.now, r.at)
  }

  predicate Ascending(now: Time, at: seq<Time>)
  {
    && (forall i :: 0 <= i < |at| ==> now <= at[i])
    && (forall i, j :: 0 <= i < j < |at| ==> at[i] <= at[j])
  }

  function Last(r: Request): Time
  {
    if r.Tiered? && r.at != [] then r.at[|r.at| - 1] else r.now
  }

  predicate Clocked(rs: seq<Request>)
  {
    && (forall i :: 0 <= i < |rs| ==> Ordered(rs[i]))
    && (forall i :: 0 < i < |rs| ==> Last(rs[i - 1]) <= rs[i].now)
  }

  /** `t` is not before the end of the run. */
  predicate Since(rs: seq<Request>, t: Time)
  {
    rs != [] ==> Last(rs[|rs| - 1]) <= t
  }

  function Step(h: Hits, r: Request, sweeps: bool): (Hits, Answer)
    requires Ordered(r)
  {
    match r
    case One(key, dur, limit, now) =>
      var (t, ok) := AllowAt(h, key, dur, limit, now, sweeps);
      (t, if ok then GRANTED else Answer(false, "", 0))
    case Tiered(id, tiers, now, at) => AllowAllAt(h, id, tiers, now, at, sweeps)
    case SweepNow(now) => (if sweeps then Swept(h, now) else h, GRANTED)
  }

  function Run(rs: seq<Request>, sweeps: bool): (Hits, seq<Answer>)
    requires Clocked(rs)
  {
    if rs == [] then (map[], [])
    else
      var n := |rs| - 1;
      var (h, answers) := Run(rs[..n], sweeps);
      var (t, answer) := Step(h, rs[n], sweeps);
      (t, answers + [answer])
  }

  // ----- sweeping cannot be noticed -----

  /** From `now` on, nobody can tell the two tables apart. */
  ghost predicate Alike(a: Hits, b: Hits, now: Time)
  {
    forall k :: Look(a, k, now) == Look(b, k, now)
  }

  /** What is open later was open before. */
  lemma LookLater(h: Hits, key: string, now: Time, later: Time)
    requires now <= later
    ensures Look(h, key, later)
            == if Look(h, key, now).Some? && later <= Look(h, key, now).value.reset then Look(h, key, now) else None
  {
  }

  lemma AlikeLater(a: Hits, b: Hits, now: Time, later: Time)
    requires Alike(a, b, now) && now <= later
    ensures Alike(a, b, later)
  {
    forall k
      ensures Look(a, k, later) == Look(b, k, later)
    {
      LookLater(a, k, now, later);
      LookLater(b, k, now, later);
    }
  }

  lemma SweepUnnoticed(h: Hits, now: Time, sweeps: bool)
    ensures Alike(Swept(h, now), h, now) && Alike(MaybeSwept(h, now, sweeps), h, now)
  {
  }

  lemma AllowAlike(a: Hits, b: Hits, key: string, dur: Time, limit: int, now: Time)
    requires Alike(a, b, now)
    ensures var (x, y) := (AllowAt(a, key, dur, limit, now, true), AllowAt(b, key, dur, limit, now, false));
            x.1 == y.1 && Alike(x.0, y.0, now)
  {
    SweepUnnoticed(a, now, true);
    var s := MaybeSwept(a, now, true);
    assert Alike(s, b, now) by {
      forall k
        ensures Look(s, k, now) == Look(b, k, now)
      {
        assert Look(s, k, now) == Look(a, k, now);
      }
    }
    WriteAlike(s, b, key, NextWindow(Look(s, key, now), dur, now), now);
    assert Look(s, key, now) == Look(b, key, now);
  }

  lemma WriteAlike(a: Hits, b: Hits, key: string, w: Window, now: Time)
    requires Alike(a, b, now)
    ensures Alike(a[key := w], b[key := w], now)
  {
    var x, y := a[key := w], b[key := w];
    forall k
      ensures Look(x, k, now) == Look(y, k, now)
    {
      assert Look(a, k, now) == Look(b, k, now);
    }
  }

  lemma {:induction false} RefusalAlike(a: Hits, b: Hits, id: string, tiers: seq<Tier>, now: Time)
    requires Alike(a, b, now)
    ensures Refusal(a, id, tiers, now) == Refusal(b, id, tiers, now)
  {
    if tiers != [] {
      var key := Key(id, tiers[0].name);
      assert Look(a, key, now) == Look(b, key, now);
      RefusalAlike(a, b, id, tiers[1..], now);
    }
  }

  lemma {:induction false} CountAllAlike(a: Hits, b: Hits, id: string, tiers: seq<Tier>, now: Time, at: seq<Time>)
    requires Alike(a, b, now) && |at| == |tiers| && Ascending(now, at)
    ensures Alike(CountAll(a, id, tiers, at, true), CountAll(b, id, tiers, at, false),
                  if at == [] then now else at[|at| - 1])
  {
    if tiers != [] {
      var n := |tiers| - 1;
      CountAllAlike(a, b, id, tiers[..n], now, at[..n]);
      var x, y := CountAll(a, id, tiers[..n], at[..n], true), CountAll(b, id, tiers[..n], at[..n], false);
      AlikeLater(x, y, if n == 0 then now else at[n - 1], at[n]);
      AllowAlike(x, y, Key(id, tiers[n].name), tiers[n].dur, tiers[n].limit, at[n]);
    }
  }

  lemma StepAlike(a: Hits, b: Hits, r: Request)
    requires Ordered(r) && Alike(a, b, r.now)
    ensures Step(a, r, true).1 == Step(b, r, false).1
    ensures Alike(Step(a, r, true).0, Step(b, r, false).0, Last(r))
  {
    match r
    case One(key, dur, limit, now) => AllowAlike(a, b, key, dur, limit, now);
    case SweepNow(now) => SweepUnnoticed(a, now, true);
    case Tiered(id, tiers, now, at) =>
      SweepUnnoticed(a, now, true);
      var s := MaybeSwept(a, now, true);
      assert Alike(s, b, now) by {
        forall k
          ensures Look(s, k, now) == Look(b, k, now)
        {
          assert Look(s, k, now) == Look(a, k, now);
        }
      }
      RefusalAlike(s, b, id, tiers, now);
      CountAllAlike(s, b, id, tiers, now, at);
      AlikeLater(s, b, now, Last(r));
  }

  /**
    Over every run with a monotone clock, a limiter that sweeps (past the threshold and whenever told to)
    gives the same answers, tier names and retry times as one that never sweeps.
   */
  lemma {:induction false} SweepingIsInvisible(rs: seq<Request>, t: Time)
    requires Clocked(rs) && Since(rs, t)
    ensures Run(rs, true).1 == Run(rs, false).1
    ensures Alike(Run(rs, true).0, Run(rs, false).0, t)
  {
    hide Alike, Step;
    if rs == [] {
      NothingAlike(t);
    } else {
      var n := |rs| - 1;
      SweepingIsInvisible(rs[..n], rs[n].now);
      StepAlike(Run(rs[..n], true).0, Run(rs[..n], false).0, rs[n]);
      AlikeLater(Run(rs, true).0, Run(rs, false).0, Last(rs[n]), t);
    }
  }

  lemma NothingAlike(t: Time)
    ensures Alike(map[], map[], t)
  {
  }

  // ----- what an answer of the tiered check means -----

  /** A request is refused exactly when some enabled tier is full, and the answer names the first such. */
  lemma {:induction false} RefusalIff(h: Hits, id: string, tiers: seq<Tier>, now: Time)
    ensures Refusal(h, id, tiers, now).Some? <==>
            exists i :: 0 <= i < |tiers| && Full(h, Key(id, tiers[i].name), tiers[i].limit, now)
    ensures Refusal(h, id, tiers, now).Some? ==>
              exists i :: 0 <= i < |tiers| && NamesFirst(h, id, tiers, now, Refusal(h, id, tiers, now).value, i)
  {
    if tiers != [] {
      RefusalIff(h, id, tiers[1..], now);
      var rest := Refusal(h, id, tiers[1..], now);
      if Full(h, Key(id, tiers[0].name), tiers[0].limit, now) {
        assert NamesFirst(h, id, tiers, now, Refusal(h, id, tiers, now).value, 0);
      } else if rest.Some? {
        var i :| 0 <= i < |tiers[1..]| && NamesFirst(h, id, tiers[1..], now, rest.value, i);
        assert NamesFirst(h, id, tiers, now, rest.value, i + 1) by {
          forall j | 0 <= j < i + 1
            ensures !Full(h, Key(id, tiers[j].name), tiers[j].limit, now)
          {
            assert j > 0 ==> tiers[j] == tiers[1..][j - 1];
          }
        }
      } else {
        forall i | 0 <= i < |tiers|
          ensures !Full(h, Key(id, tiers[i].name), tiers[i].limit, now)
        {
          assert i > 0 ==> tiers[i] == tiers[1..][i - 1];
        }
      }
    }
  }

  /** The i-th tier is the first full one, and the answer asks to wait until its window ends. */
  predicate NamesFirst(h: Hits, id: string, tiers: seq<Tier>, now: Time, a: Answer, i: nat)
    requires i < |tiers|
  {
    && Full(h, Key(id, tiers[i].name), tiers[i].limit, now)
    && (forall j :: 0 <= j < i ==> !Full(h, Key(id, tiers[j].name), tiers[j].limit, now))
    && a == Answer(false, tiers[i].name, Look(h, Key(id, tiers[i].name), now).value.reset - now)
    && a.retry >= 0
  }

  /** A refusal changes no count that anyone can still see. */
  lemma RefusalCountsNothing(h: Hits, id: string, tiers: seq<Tier>, now: Time, at: seq<Time>, sweeps: bool)
    requires |at| == |tiers|
    ensures AllowAllAt(h, id, tiers, now, at, sweeps).1.ok
            <==> Refusal(MaybeSwept(h, now, sweeps), id, tiers, now).None?
    ensures !AllowAllAt(h, id, tiers, now, at, sweeps).1.ok ==>
              Alike(AllowAllAt(h, id, tiers, now, at, sweeps).0, h, now)
  {
    RefusalIff(MaybeSwept(h, now, sweeps), id, tiers, now);
    SweepUnnoticed(h, now, sweeps);
  }

  predicate DistinctNames(tiers: seq<Tier>)
  {
    forall i, j :: 0 <= i < j < |tiers| ==> tiers[i].name != tiers[j].name
  }

  lemma KeysDistinct(id: string, a: string, b: string)
    requires a != b
    ensures Key(id, a) != Key(id, b)
  {
    assert Key(id, a)[|id| + 1..] == a && Key(id, b)[|id| + 1..] == b;
  }

  /** A window as seen by a reader at `t`. */
  function SeenAt(w: Window, t: Time): Option<Window>
  {
    if t <= w.reset then Some(w) else None
  }

  lemma AllowOne(h: Hits, key: string, dur: Time, limit: int, now: Time, sweeps: bool, k: string, t: Time)
    requires now <= t
    ensures var (s, ok) := AllowAt(h, key, dur, limit, now, sweeps);
            && (ok <==> !Full(h, key, limit, now))
            && Look(s, k, t) == if k == key && limit > 0 && ok
                                then SeenAt(NextWindow(Look(h, key, now), dur, now), t) else Look(h, k, t)
  {
    SweepUnnoticed(h, now, sweeps);
    var s := MaybeSwept(h, now, sweeps);
    assert Look(s, key, now) == Look(h, key, now) && Look(s, k, now) == Look(h, k, now);
    LookLater(s, k, now, t);
    LookLater(h, k, now, t);
  }

  /** Not full at the check, not full at any later reading: a window only ever empties by expiring. */
  lemma NotFullLater(h: Hits, key: string, limit: int, now: Time, later: Time)
    requires now <= later && !Full(h, key, limit, now)
    ensures !Full(h, key, limit, later)
  {
    LookLater(h, key, now, later);
  }

  /** What a key shows after the tiers were counted: its own tier counted once, at that tier's reading. */
  ghost function Counted(h: Hits, id: string, tiers: seq<Tier>, at: seq<Time>, key: string, t: Time): Option<Window>
    requires |at| == |tiers|
  {
    if i :| 0 <= i < |tiers| && tiers[i].limit > 0 && Key(id, tiers[i].name) == key
    then SeenAt(NextWindow(Look(h, key, at[i]), tiers[i].dur, at[i]), t)
    else Look(h, key, t)
  }

  /** Once the check passed, every enabled tier is counted exactly once although the clock is read again. */
  lemma {:induction false} EachTierCountedOnce(h: Hits, id: string, tiers: seq<Tier>, now: Time, at: seq<Time>,
                                               sweeps: bool, key: string, t: Time)
    requires |at| == |tiers| && Ascending(now, at) && DistinctNames(tiers) && now <= t
    requires at != [] ==> at[|at| - 1] <= t
    requires Refusal(h, id, tiers, now).None?
    ensures Look(CountAll(h, id, tiers, at, sweeps), key, t) == Counted(h, id, tiers, at, key, t)
  {
    if tiers != [] {
      var n := |tiers| - 1;
      var before := CountAll(h, id, tiers[..n], at[..n], sweeps);
      var mine := Key(id, tiers[n].name);
      NoRefusalPrefix(h, id, tiers, now);
      EachTierCountedOnce(h, id, tiers[..n], now, at[..n], sweeps, mine, at[n]);
      EachTierCountedOnce(h, id, tiers[..n], now, at[..n], sweeps, key, t);
      forall i | 0 <= i < n
        ensures Key(id, tiers[i].name) != mine
      {
        KeysDistinct(id, tiers[i].name, tiers[n].name);
      }
      assert Look(before, mine, at[n]) == Look(h, mine, at[n]);
      NotFullLater(h, mine, tiers[n].limit, now, at[n]);
      AllowOne(before, mine, tiers[n].dur, tiers[n].limit, at[n], sweeps, key, t);
      CountedOneMore(h, id, tiers, at, key, t);
    }
  }

  lemma CountedOneMore(h: Hits, id: string, tiers: seq<Tier>, at: seq<Time>, key: string, t: Time)
    requires tiers != [] && |at| == |tiers| && DistinctNames(tiers)
    ensures var n := |tiers| - 1;
            Counted(h, id, tiers, at, key, t)
            == if tiers[n].limit > 0 && Key(id, tiers[n].name) == key
               then SeenAt(NextWindow(Look(h, key, at[n]), tiers[n].dur, at[n]), t)
               else Counted(h, id, tiers[..n], at[..n], key, t)
  {
    forall i, j | 0 <= i < j < |tiers|
      ensures Key(id, tiers[i].name) != Key(id, tiers[j].name)
    {
      KeysDistinct(id, tiers[i].name, tiers[j].name);
    }
  }

  lemma NoRefusalPrefix(h: Hits, id: string, tiers: seq<Tier>, now: Time)
    requires tiers != [] && Refusal(h, id, tiers, now).None?
    ensures Refusal(h, id, tiers[..|tiers| - 1], now).None?
    ensures !Full(h, Key(id, tiers[|tiers| - 1].name), tiers[|tiers| - 1].limit, now)
  {
    RefusalIff(h, id, tiers, now);
    RefusalIff(h, id, tiers[..|tiers| - 1], now);
  }
}
