/**
  How many requests one key can get through: at most L per window, and at most 2L - 1 in any interval as
  long as a window, whatever else the limiter is asked to do and however often it sweeps.
 */
module LimiterBounds {
  import opened Limiter

  /** One counted request: when, and when the window it was counted in was opened. */
  datatype Admission = Admission(at: Time, start: Time)

  // ----- the admissions of one key over a run -----

  function AdmittedBy(h: Hits, asked: string, dur: Time, limit: int, now: Time, key: string): seq<Admission>
  {
    if asked != key || limit <= 0 || Full(h, key, limit, now) then []
    else [Admission(now, NextWindow(Look(h, key, now), dur, now).reset - dur)]
  }

  function AdmittedInAll(h: Hits, id: string, tiers: seq<Tier>, at: seq<Time>, key: string): seq<Admission>
    requires |at| == |tiers|
  {
    if tiers == [] then []
    else
      var n := |tiers| - 1;
      AdmittedInAll(h, id, tiers[..n], at[..n], key)
      + AdmittedBy(CountAll(h, id, tiers[..n], at[..n], true), Key(id, tiers[n].name), tiers[n].dur, tiers[n].limit,
                   at[n], key)
  }

  function AdmittedIn(h: Hits, r: Request, key: string): seq<Admission>
    requires Ordered(r)
  {
    match r
    case One(asked, dur, limit, now) => AdmittedBy(h, asked, dur, limit, now, key)
    case Tiered(id, tiers, now, at) =>
      var s := MaybeSwept(h, now, true);
      if Refusal(s, id, tiers, now).Some? then [] else AdmittedInAll(s, id, tiers, at, key)
    case SweepNow(_) => []
  }

  function Admitted(rs: seq<Request>, key: string): seq<Admission>
    requires Clocked(rs)
  {
    if rs == [] then []
    else
      var n := |rs| - 1;
      Admitted(rs[..n], key) + AdmittedIn(Run(rs[..n], true).0, rs[n], key)
  }

  /** A single request is admitted, where there is a limit, exactly when its answer says so. */
  lemma AnswersTell(h: Hits, key: string, dur: Time, limit: int, now: Time)
    ensures Step(h, One(key, dur, limit, now), true).1.ok
            <==> limit <= 0 || AdmittedIn(h, One(key, dur, limit, now), key) != []
    ensures |AdmittedIn(h, One(key, dur, limit, now), key)| <= 1
  {
    SweepUnnoticed(h, now, true);
    assert Look(MaybeSwept(h, now, true), key, now) == Look(h, key, now);
  }

  /** A tiered request that is refused is admitted under no key, one that is granted under each enabled tier's. */
  lemma TieredAnswersTell(h: Hits, id: string, tiers: seq<Tier>, now: Time, at: seq<Time>, key: string)
    requires |at| == |tiers| && Ascending(now, at) && DistinctNames(tiers)
    ensures var r := Tiered(id, tiers, now, at);
            && (!Step(h, r, true).1.ok ==> AdmittedIn(h, r, key) == [])
            && (Step(h, r, true).1.ok ==>
                  |AdmittedIn(h, r, key)|
                  == if exists i :: 0 <= i < |tiers| && tiers[i].limit > 0 && Key(id, tiers[i].name) == key then 1
                     else 0)
  {
    hide MaybeSwept, CountAll;
    RefusalIff(MaybeSwept(h, now, true), id, tiers, now);
    if Refusal(MaybeSwept(h, now, true), id, tiers, now).None? {
      GrantedOncePerTier(MaybeSwept(h, now, true), id, tiers, now, at, key);
    }
  }

  lemma {:induction false} GrantedOncePerTier(h: Hits, id: string, tiers: seq<Tier>, now: Time, at: seq<Time>,
                                              key: string)
    requires |at| == |tiers| && Ascending(now, at) && DistinctNames(tiers) && Refusal(h, id, tiers, now).None?
    ensures |AdmittedInAll(h, id, tiers, at, key)|
            == if exists i :: 0 <= i < |tiers| && tiers[i].limit > 0 && Key(id, tiers[i].name) == key then 1 else 0
  {
    hide CountAll, Refusal;
    if tiers != [] {
      var n := |tiers| - 1;
      NoRefusalPrefix(h, id, tiers, now);
      GrantedOncePerTier(h, id, tiers[..n], now, at[..n], key);
      var before := CountAll(h, id, tiers[..n], at[..n], true);
      var mine := Key(id, tiers[n].name);
      forall i | 0 <= i < n
        ensures Key(id, tiers[i].name) != mine
      {
        KeysDistinct(id, tiers[i].name, tiers[n].name);
      }
      EachTierCountedOnce(h, id, tiers[..n], now, at[..n], true, mine, at[n]);
      assert Look(before, mine, at[n]) == Look(h, mine, at[n]);
      NotFullLater(h, mine, tiers[n].limit, now, at[n]);
      assert !Full(before, mine, tiers[n].limit, at[n]);
      assert forall i :: 0 <= i < n ==> tiers[..n][i] == tiers[i];
    }
  }

  // ----- counting -----

  function Opener(start: Time): Admission
  {
    Admission(start, start)
  }

  function InWindow(adm: seq<Admission>, start: Time): nat
  {
    if adm == [] then 0
    else InWindow(adm[..|adm| - 1], start) + (if adm[|adm| - 1].start == start then 1 else 0)
  }

  function Between(adm: seq<Admission>, from: Time, to: Time): nat
  {
    if adm == [] then 0
    else Between(adm[..|adm| - 1], from, to) + (if from <= adm[|adm| - 1].at <= to then 1 else 0)
  }

  ghost predicate Opened(adm: seq<Admission>)
  {
    forall a :: a in adm ==> Opener(a.start) in adm
  }

  /** Admissions lie in their windows, the first one opens it, and a later window opens after an earlier one ended. */
  ghost predicate Windowed(adm: seq<Admission>, dur: Time)
  {
    && Opened(adm)
    && (forall i :: 0 <= i < |adm| ==> adm[i].start <= adm[i].at <= adm[i].start + dur)
    && (forall i, j :: 0 <= i < j < |adm| ==> adm[i].start == adm[j].start || adm[i].start + dur < adm[j].start)
  }

  /** `now` is late enough, the stored window is the last one and its count is right. */
  ghost predicate Tracks(h: Hits, adm: seq<Admission>, key: string, dur: Time, limit: nat, now: Time)
  {
    && Windowed(adm, dur)
    && (forall start :: InWindow(adm, start) <= limit)
    && match Look(h, key, now)
       case Some(w) =>
         && adm != [] && adm[|adm| - 1].start == w.reset - dur
         && InWindow(adm, w.reset - dur) == w.count
         && w.reset - dur <= now
       case None => forall i :: 0 <= i < |adm| ==> adm[i].start + dur < now
  }

  lemma TracksLater(h: Hits, s: Hits, adm: seq<Admission>, key: string, dur: Time, limit: nat, now: Time, later: Time)
    requires Tracks(h, adm, key, dur, limit, now) && now <= later
    requires Look(s, key, later) == Look(h, key, later)
    ensures Tracks(s, adm, key, dur, limit, later)
  {
    LookLater(h, key, now, later);
  }

  /** One more admission: into the window of the last one, or into a new window after all others. */
  lemma OneMoreAdmission(adm: seq<Admission>, a: Admission, start: Time)
    ensures InWindow(adm + [a], start) == InWindow(adm, start) + (if a.start == start then 1 else 0)
  {
    assert (adm + [a])[..|adm|] == adm;
  }

  lemma {:induction false} NoneInNewWindow(adm: seq<Admission>, dur: Time, start: Time)
    requires dur >= 0 && forall i :: 0 <= i < |adm| ==> adm[i].start + dur < start
    ensures InWindow(adm, start) == 0
  {
    if adm != [] {
      NoneInNewWindow(adm[..|adm| - 1], dur, start);
    }
  }

  /** A further admission opens its window or shares that of the last one. */
  lemma AdmitOpened(adm: seq<Admission>, a: Admission, again: bool)
    requires Opened(adm)
    requires if again then adm != [] && adm[|adm| - 1].start == a.start else a == Opener(a.start)
    ensures Opened(adm + [a])
  {
    if again {
      assert adm[|adm| - 1] in adm;
    } else {
      assert (adm + [a])[|adm|] == a;
    }
  }

  lemma AdmitWindowed(h: Hits, adm: seq<Admission>, key: string, dur: Time, limit: nat, now: Time)
    requires Tracks(h, adm, key, dur, limit, now) && dur >= 0
    ensures Windowed(adm + [Admission(now, NextWindow(Look(h, key, now), dur, now).reset - dur)], dur)
  {
    var a := Admission(now, NextWindow(Look(h, key, now), dur, now).reset - dur);
    var more := adm + [a];
    AdmitOpened(adm, a, Look(h, key, now).Some?);
    forall i, j | 0 <= i < j < |more|
      ensures more[i].start == more[j].start || more[i].start + dur < more[j].start
    {
      if j == |adm| && Look(h, key, now).Some? {
        assert adm[|adm| - 1].start == a.start;
      }
    }
  }

  lemma AdmitCounts(h: Hits, adm: seq<Admission>, key: string, dur: Time, limit: nat, most: nat, now: Time)
    requires Tracks(h, adm, key, dur, most, now) && dur >= 0 && 0 < limit <= most && !Full(h, key, limit, now)
    ensures var w := NextWindow(Look(h, key, now), dur, now);
            var more := adm + [Admission(now, w.reset - dur)];
            InWindow(more, w.reset - dur) == w.count && forall start :: InWindow(more, start) <= most
  {
    var w := NextWindow(Look(h, key, now), dur, now);
    var a := Admission(now, w.reset - dur);
    if Look(h, key, now).None? {
      NoneInNewWindow(adm, dur, a.start);
    }
    forall start
      ensures InWindow(adm + [a], start) <= most
    {
      OneMoreAdmission(adm, a, start);
    }
    OneMoreAdmission(adm, a, a.start);
  }

  lemma AllowTracks(h: Hits, adm: seq<Admission>, asked: string, d: Time, limit: int, now: Time,
                    key: string, dur: Time, most: nat)
    requires Tracks(h, adm, key, dur, most, now) && dur >= 0
    requires asked == key ==> d == dur && limit <= most
    ensures Tracks(AllowAt(h, asked, d, limit, now, true).0, adm + AdmittedBy(h, asked, d, limit, now, key),
                   key, dur, most, now)
  {
    hide Full, AllowAt, Windowed, InWindow;
    var s := AllowAt(h, asked, d, limit, now, true).0;
    AllowOne(h, asked, d, limit, now, true, key, now);
    if asked == key && limit > 0 && !Full(h, key, limit, now) {
      AdmitWindowed(h, adm, key, dur, most, now);
      AdmitCounts(h, adm, key, dur, limit, most, now);
    } else {
      assert adm + [] == adm;
      TracksLater(h, s, adm, key, dur, most, now, now);
    }
  }

  /** No request asks for more than `most` on this key, or with another window length. */
  predicate Limits(r: Request, key: string, dur: Time, most: nat)
  {
    match r
    case One(asked, d, limit, _) => asked == key ==> d == dur && limit <= most
    case Tiered(id, tiers, _, _) => TiersWithin(id, tiers, key, dur, most)
    case SweepNow(_) => true
  }

  predicate TiersWithin(id: string, tiers: seq<Tier>, key: string, dur: Time, most: nat)
  {
    forall i :: 0 <= i < |tiers| && Key(id, tiers[i].name) == key ==> tiers[i].dur == dur && tiers[i].limit <= most
  }

  /** The last tier's part in counting all. */
  lemma LastTier(h: Hits, id: string, tiers: seq<Tier>, at: seq<Time>, key: string)
    requires |at| == |tiers| && tiers != []
    ensures var n := |tiers| - 1;
            var s, x := CountAll(h, id, tiers[..n], at[..n], true), tiers[n];
            && CountAll(h, id, tiers, at, true) == AllowAt(s, Key(id, x.name), x.dur, x.limit, at[n], true).0
            && AdmittedInAll(h, id, tiers, at, key)
               == AdmittedInAll(h, id, tiers[..n], at[..n], key)
                  + AdmittedBy(s, Key(id, x.name), x.dur, x.limit, at[n], key)
  {
  }

  lemma NoTiers(h: Hits, id: string, key: string)
    ensures CountAll(h, id, [], [], true) == h && AdmittedInAll(h, id, [], [], key) == []
  {
  }

  lemma {:induction false} CountAllTracks(h: Hits, adm: seq<Admission>, id: string, tiers: seq<Tier>, now: Time,
                                          at: seq<Time>, key: string, dur: Time, most: nat)
    requires Tracks(h, adm, key, dur, most, now) && dur >= 0
    requires |at| == |tiers| && Ascending(now, at) && TiersWithin(id, tiers, key, dur, most)
    ensures Tracks(CountAll(h, id, tiers, at, true), adm + AdmittedInAll(h, id, tiers, at, key), key, dur, most,
                   if at == [] then now else at[|at| - 1])
  {
    hide Tracks, CountAll, AllowAt, AdmittedInAll, AdmittedBy, Look, Key;
    if tiers == [] {
      NoTiers(h, id, key);
      assert adm + [] == adm;
    } else {
      var n := |tiers| - 1;
      CountAllTracks(h, adm, id, tiers[..n], now, at[..n], key, dur, most);
      var s := CountAll(h, id, tiers[..n], at[..n], true);
      var some := adm + AdmittedInAll(h, id, tiers[..n], at[..n], key);
      TracksLater(s, s, some, key, dur, most, if n == 0 then now else at[n - 1], at[n]);
      AllowTracks(s, some, Key(id, tiers[n].name), tiers[n].dur, tiers[n].limit, at[n], key, dur, most);
      LastTier(h, id, tiers, at, key);
      assert some + AdmittedBy(s, Key(id, tiers[n].name), tiers[n].dur, tiers[n].limit, at[n], key)
             == adm + AdmittedInAll(h, id, tiers, at, key);
    }
  }

  lemma StepTracks(h: Hits, adm: seq<Admission>, r: Request, key: string, dur: Time, most: nat)
    requires Ordered(r) && Tracks(h, adm, key, dur, most, r.now) && dur >= 0 && Limits(r, key, dur, most)
    ensures Tracks(Step(h, r, true).0, adm + AdmittedIn(h, r, key), key, dur, most, Last(r))
  {
    hide Tracks;
    match r
    case One(asked, d, limit, now) => AllowTracks(h, adm, asked, d, limit, now, key, dur, most);
    case SweepNow(now) =>
      SweepUnnoticed(h, now, true);
      TracksLater(h, Swept(h, now), adm, key, dur, most, now, now);
      assert adm + [] == adm;
    case Tiered(id, tiers, now, at) =>
      var s := MaybeSwept(h, now, true);
      SweepUnnoticed(h, now, true);
      TracksLater(h, s, adm, key, dur, most, now, now);
      CountAllTracks(s, adm, id, tiers, now, at, key, dur, most);
      assert adm + [] == adm;
      TracksLater(s, s, adm, key, dur, most, now, Last(r));
  }

  lemma NothingTracked(key: string, dur: Time, most: nat, now: Time)
    ensures Tracks(map[], [], key, dur, most, now)
  {
  }

  lemma {:induction false} RunTracks(rs: seq<Request>, key: string, dur: Time, most: nat, t: Time)
    requires Clocked(rs) && Since(rs, t) && dur >= 0
    requires forall i :: 0 <= i < |rs| ==> Limits(rs[i], key, dur, most)
    ensures Tracks(Run(rs, true).0, Admitted(rs, key), key, dur, most, t)
  {
    hide Tracks, Step, AdmittedIn, Limits;
    if rs == [] {
      NothingTracked(key, dur, most, t);
    } else {
      var n := |rs| - 1;
      RunTracks(rs[..n], key, dur, most, rs[n].now);
      StepTracks(Run(rs[..n], true).0, Admitted(rs[..n], key), rs[n], key, dur, most);
      var h := Run(rs, true).0;
      TracksLater(h, h, Admitted(rs, key), key, dur, most, Last(rs[n]), t);
    }
  }

  // ----- any interval as long as a window -----

  /** The windows that an interval of window length touches are at most two. */
  lemma TwoWindows(adm: seq<Admission>, dur: Time, from: Time, i: nat, j: nat, k: nat)
    requires Windowed(adm, dur) && i < j < k < |adm|
    requires from <= adm[i].at && adm[k].at <= from + dur
    ensures adm[i].start == adm[j].start || adm[j].start == adm[k].start
  {
    assert adm[i].start == adm[j].start || adm[i].start + dur < adm[j].start;
    assert adm[j].start == adm[k].start || adm[j].start + dur < adm[k].start;
  }

  /** With only two windows in sight, counting the interval is counting the two windows. */
  lemma {:induction false} TwoWindowsCount(adm: seq<Admission>, from: Time, to: Time, one: Time, two: Time)
    requires one != two
    requires forall i :: 0 <= i < |adm| && from <= adm[i].at <= to ==> adm[i].start == one || adm[i].start == two
    ensures Between(adm, from, to) + (if one < from && Opener(one) in adm then 1 else 0)
            <= InWindow(adm, one) + InWindow(adm, two)
  {
    if adm != [] {
      var n := |adm| - 1;
      TwoWindowsCount(adm[..n], from, to, one, two);
      assert adm == adm[..n] + [adm[n]];
    }
  }

  lemma {:induction false} OneWindowCount(adm: seq<Admission>, from: Time, to: Time, one: Time)
    requires forall i :: 0 <= i < |adm| && from <= adm[i].at <= to ==> adm[i].start == one
    ensures Between(adm, from, to) <= InWindow(adm, one)
  {
    if adm != [] {
      OneWindowCount(adm[..|adm| - 1], from, to, one);
    }
  }

  lemma {:induction false} FirstIn(adm: seq<Admission>, from: Time, to: Time, i: nat) returns (first: nat)
    requires i < |adm| && from <= adm[i].at <= to
    ensures first <= i && from <= adm[first].at <= to
    ensures forall j :: 0 <= j < first ==> !(from <= adm[j].at <= to)
    decreases i
  {
    first := i;
    if j :| 0 <= j < i && from <= adm[j].at <= to {
      first := FirstIn(adm, from, to, j);
    }
  }

  lemma {:induction false} LastIn(adm: seq<Admission>, from: Time, to: Time, i: nat) returns (last: nat)
    requires i < |adm| && from <= adm[i].at <= to
    ensures i <= last < |adm| && from <= adm[last].at <= to
    ensures forall j :: last < j < |adm| ==> !(from <= adm[j].at <= to)
    decreases |adm| - i
  {
    last := i;
    if j :| i < j < |adm| && from <= adm[j].at <= to {
      last := LastIn(adm, from, to, j);
    }
  }

  /** Between the first and the last admission of the interval only their two windows occur. */
  lemma TwoInSight(adm: seq<Admission>, dur: Time, from: Time, first: nat, last: nat)
    requires Windowed(adm, dur) && first < |adm| && last < |adm|
    requires from <= adm[first].at && adm[last].at <= from + dur
    requires forall j :: 0 <= j < |adm| && from <= adm[j].at <= from + dur ==> first <= j <= last
    ensures forall j :: 0 <= j < |adm| && from <= adm[j].at <= from + dur ==>
              adm[j].start == adm[first].start || adm[j].start == adm[last].start
  {
    hide Opened;
    forall j | 0 <= j < |adm| && from <= adm[j].at <= from + dur
      ensures adm[j].start == adm[first].start || adm[j].start == adm[last].start
    {
      if first < j < last {
        TwoWindows(adm, dur, from, first, j, last);
      }
    }
  }

  /** When the interval touches two windows, the opener of the first lies outside it. */
  lemma OpenerOutside(adm: seq<Admission>, dur: Time, from: Time, first: nat, last: nat)
    requires Windowed(adm, dur) && first < last < |adm| && adm[first].start != adm[last].start
    requires from <= adm[first].at && adm[last].at <= from + dur
    ensures adm[first].start < from && Opener(adm[first].start) in adm
  {
    assert adm[first] in adm;
  }

  lemma IntervalBound(adm: seq<Admission>, dur: Time, most: nat, from: Time)
    requires most >= 1 && Windowed(adm, dur) && forall start :: InWindow(adm, start) <= most
    ensures Between(adm, from, from + dur) <= 2 * most - 1
  {
    hide Between, InWindow, Windowed, Opener;
    if i :| 0 <= i < |adm| && from <= adm[i].at <= from + dur {
      var first := FirstIn(adm, from, from + dur, i);
      var last := LastIn(adm, from, from + dur, i);
      TwoInSight(adm, dur, from, first, last);
      if adm[first].start == adm[last].start {
        OneWindowCount(adm, from, from + dur, adm[first].start);
      } else {
        OpenerOutside(adm, dur, from, first, last);
        TwoWindowsCount(adm, from, from + dur, adm[first].start, adm[last].start);
      }
    } else {
      OneWindowCount(adm, from, from + dur, from);
    }
  }

  /**
    For every run with a monotone clock in which `key` is only asked for windows of length `dur` and limits
    up to `most`: no window admits more than `most`, and no closed interval of length `dur` more than
    2 * most - 1.
   */
  lemma AdmissionBounds(rs: seq<Request>, key: string, dur: Time, most: nat, from: Time)
    requires Clocked(rs) && dur >= 0 && most >= 1
    requires forall i :: 0 <= i < |rs| ==> Limits(rs[i], key, dur, most)
    ensures InWindow(Admitted(rs, key), from) <= most
    ensures Between(Admitted(rs, key), from, from + dur) <= 2 * most - 1
  {
    var t := if rs == [] then 0 else Last(rs[|rs| - 1]);
    RunTracks(rs, key, dur, most, t);
    IntervalBound(Admitted(rs, key), dur, most, from);
  }

  // ----- the interval bound is reached -----

  /** Of 2L requests the first comes at the start, the others of the first L a minute later, the rest just after. */
  function BurstTime(limit: nat, i: nat): Time
  {
    if i == 0 then 0 else if i < limit then MINUTE else MINUTE + 1
  }

  /** The first n requests of the burst. */
  function Burst(limit: nat, n: nat): seq<Request>
  {
    if n == 0 then [] else Burst(limit, n - 1) + [One("u", MINUTE, limit, BurstTime(limit, n - 1))]
  }

  lemma {:induction false} BurstIsClocked(limit: nat, n: nat)
    ensures |Burst(limit, n)| == n && Clocked(Burst(limit, n))
    ensures forall i :: 0 <= i < n ==> Burst(limit, n)[i] == One("u", MINUTE, limit, BurstTime(limit, i))
  {
    if n > 0 {
      BurstIsClocked(limit, n - 1);
    }
  }

  /** The limiter after n requests: one window filling up to the limit, then a second one. */
  function BurstHits(limit: nat, n: nat): Hits
  {
    if n == 0 then map[]
    else if n <= limit then map["u" := Window(n, MINUTE)]
    else map["u" := Window(n - limit, MINUTE + 1 + MINUTE)]
  }

  lemma BurstStep(limit: nat, n: nat)
    requires limit > 0 && n < 2 * limit
    ensures var r := One("u", MINUTE, limit, BurstTime(limit, n));
            && Step(BurstHits(limit, n), r, true).0 == BurstHits(limit, n + 1)
            && |AdmittedIn(BurstHits(limit, n), r, "u")| == 1
            && AdmittedIn(BurstHits(limit, n), r, "u")[0].at == BurstTime(limit, n)
  {
  }

  /** One more request of the burst: one more admission, at its time. */
  lemma BurstOneMore(limit: nat, n: nat)
    requires limit > 0 && n < 2 * limit
    requires Clocked(Burst(limit, n)) && Run(Burst(limit, n), true).0 == BurstHits(limit, n)
    ensures Clocked(Burst(limit, n + 1)) && Run(Burst(limit, n + 1), true).0 == BurstHits(limit, n + 1)
    ensures exists a :: Admitted(Burst(limit, n + 1), "u") == Admitted(Burst(limit, n), "u") + [a]
                        && a.at == BurstTime(limit, n)
  {
    hide Step, AdmittedIn, BurstHits, Clocked, BurstTime;
    BurstIsClocked(limit, n + 1);
    BurstStep(limit, n);
    assert Burst(limit, n + 1)[..n] == Burst(limit, n) by {
      BurstIsClocked(limit, n);
    }
    var added := AdmittedIn(BurstHits(limit, n), One("u", MINUTE, limit, BurstTime(limit, n)), "u");
    assert added == [added[0]];
    assert Admitted(Burst(limit, n + 1), "u") == Admitted(Burst(limit, n), "u") + [added[0]];
  }

  lemma {:induction false} BurstAdmits(limit: nat, n: nat)
    requires limit > 0 && n <= 2 * limit
    ensures Clocked(Burst(limit, n)) && Run(Burst(limit, n), true).0 == BurstHits(limit, n)
    ensures Between(Admitted(Burst(limit, n), "u"), MINUTE, MINUTE + MINUTE) == if n == 0 then 0 else n - 1
  {
    hide Run, Burst, BurstHits, Clocked, Admitted, Between;
    if n == 0 {
      NoHitsYet(limit);
    } else {
      BurstAdmits(limit, n - 1);
      BurstOneMore(limit, n - 1);
      var a :| Admitted(Burst(limit, n), "u") == Admitted(Burst(limit, n - 1), "u") + [a]
               && a.at == BurstTime(limit, n - 1);
      BetweenAppended(Admitted(Burst(limit, n - 1), "u"), a, MINUTE, MINUTE + MINUTE);
    }
  }

  lemma NoHitsYet(limit: nat)
    ensures Clocked(Burst(limit, 0)) && Run(Burst(limit, 0), true).0 == BurstHits(limit, 0)
    ensures Between(Admitted(Burst(limit, 0), "u"), MINUTE, MINUTE + MINUTE) == 0
  {
  }

  lemma BetweenAppended(adm: seq<Admission>, a: Admission, from: Time, to: Time)
    ensures Between(adm + [a], from, to) == Between(adm, from, to) + (if from <= a.at <= to then 1 else 0)
  {
    assert (adm + [a])[..|adm|] == adm;
  }

  /** For every limit L some run admits 2L - 1 requests of one key within one minute. */
  lemma BurstReachesBound(limit: nat)
    requires limit > 0
    ensures var rs := Burst(limit, 2 * limit);
            && Clocked(rs) && (forall i :: 0 <= i < |rs| ==> Limits(rs[i], "u", MINUTE, limit))
            && Between(Admitted(rs, "u"), MINUTE, MINUTE + MINUTE) == 2 * limit - 1
  {
    BurstIsClocked(limit, 2 * limit);
    BurstAdmits(limit, 2 * limit);
  }
}
