/** The limiter as it runs: a map of windows changed in place, tied to the functions of Limiter. */
module RateLimiter {
  import opened Prelude
  import opened Limiter

  class RateLimiter {
    var hits: Hits
    var clock: Time

    constructor ()
      ensures hits == map[]
    {
      hits, clock := map[], 0;
    }

    /** A clock reading, never earlier than the last one. */
    method Now() returns (now: Time)
      modifies this`clock
      ensures now == clock >= old(clock)
    {
      now :| now >= clock;
      clock := now;
    }

    /** Deletes one expired key after another, in any order. */
    method SweepExpired(now: Time)
      modifies this`hits
      ensures hits == Swept(old(hits), now)
      ensures forall k :: k in hits <==> k in old(hits) && now <= old(hits)[k].reset
      ensures forall k :: k in hits ==> hits[k] == old(hits)[k]
    {
      var rest := hits.Keys;
      while rest != {}
        invariant rest <= old(hits).Keys
        invariant hits == map k | k in old(hits) && (k in rest || now <= old(hits)[k].reset) :: old(hits)[k]
        decreases |rest|
      {
        var k :| k in rest;
        if now > hits[k].reset {
          hits := hits - {k};
        }
        rest := rest - {k};
      }
    }

    method Sweep()
      modifies this
      ensures hits == Swept(old(hits), clock) && clock >= old(clock)
    {
      var now := Now();
      SweepExpired(now);
    }

    method MaybeSweep(now: Time)
      modifies this`hits
      ensures hits == MaybeSwept(old(hits), now, true)
      ensures forall k :: k in hits <==> k in old(hits) && (|old(hits)| < 512 || now <= old(hits)[k].reset)
      ensures forall k :: k in hits ==> hits[k] == old(hits)[k]
    {
      if |hits| >= SWEEP_THRESHOLD {
        SweepExpired(now);
      }
    }

    /** One fixed window; a limit of zero or less means no limit, no count and no look at the clock. */
    method Allow(key: string, dur: Time, limit: int) returns (ok: bool)
      modifies this
      ensures (hits, ok) == AllowAt(old(hits), key, dur, limit, clock, true)
      ensures clock >= old(clock)
      ensures limit <= 0 ==> ok && hits == old(hits)
      ensures limit > 0 ==>
                var open := key in old(hits) && clock <= old(hits)[key].reset;
                && (ok <==> !(open && old(hits)[key].count >= limit))
                && (!ok ==> key in hits && hits[key] == old(hits)[key])
                && (ok ==> key in hits && hits[key] == if open
                                                       then Window(old(hits)[key].count + 1, old(hits)[key].reset)
                                                       else Window(1, clock + dur))
      ensures forall k :: k != key && k in hits ==> k in old(hits) && hits[k] == old(hits)[k]
      ensures forall k :: k in old(hits) && clock <= old(hits)[k].reset ==> k in hits
    {
      if limit <= 0 {
        return true;
      }
      var now := Now();
      MaybeSweep(now);
      if key !in hits || now > hits[key].reset {
        hits := hits[key := Window(1, now + dur)];
        return true;
      }
      if hits[key].count >= limit {
        return false;
      }
      hits := hits[key := Window(hits[key].count + 1, hits[key].reset)];
      ok := true;
    }

    /** The pre-check: the first enabled tier that is full, without counting. */
    method Check(id: string, tiers: seq<Tier>, now: Time) returns (refusal: Option<Answer>)
      ensures refusal == Refusal(hits, id, tiers, now)
    {
      var k := 0;
      while k < |tiers|
        invariant 0 <= k <= |tiers|
        invariant Refusal(hits, id, tiers, now) == Refusal(hits, id, tiers[k..], now)
      {
        var x := tiers[k];
        var key := Key(id, x.name);
        assert tiers[k..][1..] == tiers[k + 1..];
        if x.limit > 0 && key in hits && now <= hits[key].reset && hits[key].count >= x.limit {
          return Some(Answer(false, x.name, hits[key].reset - now));
        }
        k := k + 1;
      }
      refusal := None;
    }

    /** Counts in every enabled tier; `at` records the reading each of them used. */
    method CountEach(id: string, tiers: seq<Tier>) returns (ghost at: seq<Time>)
      modifies this
      ensures |at| == |tiers| && Ascending(old(clock), at)
      ensures clock >= old(clock) && (at != [] ==> at[|at| - 1] == clock)
      ensures hits == CountAll(old(hits), id, tiers, at, true)
    {
      hide CountAll, AllowAt;
      CountNothing(hits, id);
      at := [];
      var k := 0;
      while k < |tiers|
        invariant 0 <= k == |at| <= |tiers| && Ascending(old(clock), at)
        invariant clock >= old(clock) && (at != [] ==> at[|at| - 1] == clock)
        invariant hits == CountAll(old(hits), id, tiers[..k], at, true)
      {
        var x := tiers[k];
        if x.limit > 0 {
          var _ := Allow(Key(id, x.name), x.dur, x.limit);
        }
        CountAllAppended(old(hits), id, tiers[..k], at, x, clock);
        assert tiers[..k + 1] == tiers[..k] + [x];
        at := at + [clock];
        k := k + 1;
      }
      assert tiers[..k] == tiers;
    }

    /**
      Three tiers at once. A refusal names the first full tier and leaves every visible count as it was;
      otherwise every enabled tier is counted once, at the readings `at`.
     */
    method AllowN(id: string, perMinute: int, perHour: int, perDay: int)
      returns (answer: Answer, ghost now: Time, ghost at: seq<Time>)
      modifies this
      ensures old(clock) <= now && |at| == 3 && Ascending(now, at)
      ensures (hits, answer) == AllowAllAt(old(hits), id, Tiers(perMinute, perHour, perDay), now, at, true)
      ensures var m, h, d := id + "|minute", id + "|hour", id + "|day";
              answer == if Blocks(old(hits), m, perMinute, now) then
                          Answer(false, "minute", old(hits)[m].reset - now)
                        else if Blocks(old(hits), h, perHour, now) then
                          Answer(false, "hour", old(hits)[h].reset - now)
                        else if Blocks(old(hits), d, perDay, now) then
                          Answer(false, "day", old(hits)[d].reset - now)
                        else Answer(true, "", 0)
      ensures !answer.ok ==> forall key, t :: now <= t ==> SameShown(old(hits), hits, key, t)
      ensures answer.ok ==> forall t :: at[2] <= t ==>
                && (perMinute > 0 ==> OneMoreShown(old(hits), hits, id + "|minute", at[0], 60_000_000_000, t))
                && (perHour > 0 ==> OneMoreShown(old(hits), hits, id + "|hour", at[1], 3_600_000_000_000, t))
                && (perDay > 0 ==> OneMoreShown(old(hits), hits, id + "|day", at[2], 86_400_000_000_000, t))
      ensures answer.ok ==> forall key, t :: at[2] <= t && !Enabled(id, perMinute, perHour, perDay, key) ==>
                SameShown(old(hits), hits, key, t)
      ensures forall other, name, t :: other != id && '|' !in name && at[2] <= t ==>
                SameShown(old(hits), hits, other + "|" + name, t)
    {
      hide Blocks;
      var reading := Now();
      now := reading;
      MaybeSweep(reading);
      ghost var checked := hits;
      var tiers := Tiers(perMinute, perHour, perDay);
      ThreeTiersChecked(old(hits), id, perMinute, perHour, perDay, now);
      var refusal := Check(id, tiers, reading);
      if refusal.Some? {
        at := [now, now, now];
        RefusalCountsNothing(old(hits), id, tiers, now, at, true);
        SameLook(old(hits), hits, now);
        assert forall other, name, t :: at[2] <= t ==> SameShown(old(hits), hits, other + "|" + name, t);
        return refusal.value, now, at;
      }
      at := CountEach(id, tiers);
      answer := GRANTED;
      forall key, t | at[2] <= t
        ensures Look(hits, key, t) == Counted(old(hits), id, tiers, at, key, t)
      {
        EachTierCountedOnce(checked, id, tiers, now, at, true, key, t);
        SweptCountsAlike(old(hits), id, tiers, now, at, key, t);
      }
      ThreeTiersCounted(old(hits), hits, id, perMinute, perHour, perDay, at);
      forall other, name, t | other != id && '|' !in name && at[2] <= t
        ensures SameShown(old(hits), hits, other + "|" + name, t)
      {
        OtherIdsUntouched(id, perMinute, perHour, perDay, other, name);
      }
    }
  }

  /** The key of one of the tiers that are switched on. */
  predicate Enabled(id: string, perMinute: int, perHour: int, perDay: int, key: string)
  {
    || (perMinute > 0 && key == id + "|minute")
    || (perHour > 0 && key == id + "|hour")
    || (perDay > 0 && key == id + "|day")
  }

  lemma NotAmong(id: string, tier: string, other: string, name: string)
    requires other != id && '|' !in name && '|' !in tier
    ensures other + "|" + name != id + "|" + tier
  {
    var x, y := other + "|" + name, id + "|" + tier;
    assert x[|other|] == '|' && y[|id|] == '|' && x[..|other|] == other && y[..|id|] == id;
    if |other| < |id| < |x| {
      assert x[|id|] == name[|id| - |other| - 1];
    } else if |id| < |other| < |y| {
      assert y[|other|] == tier[|other| - |id| - 1];
    }
  }

  /** No window of another id is a tier of this one. */
  lemma OtherIdsUntouched(id: string, perMinute: int, perHour: int, perDay: int, other: string, name: string)
    requires other != id && '|' !in name
    ensures !Enabled(id, perMinute, perHour, perDay, other + "|" + name)
  {
    NotAmong(id, "minute", other, name);
    NotAmong(id, "hour", other, name);
    NotAmong(id, "day", other, name);
    assert id + "|" + "minute" == id + "|minute" && id + "|" + "hour" == id + "|hour";
    assert id + "|" + "day" == id + "|day";
  }

  /** The window under the key is open at `now` and holds the limit or more. */
  predicate Blocks(h: Hits, key: string, limit: int, now: Time)
  {
    limit > 0 && key in h && now <= h[key].reset && h[key].count >= limit
  }

  /** What a reader at t finds under a key: a window, or nothing when it has ended or was never there. */
  predicate Shows(h: Hits, key: string, t: Time, w: Window)
  {
    if t <= w.reset then key in h && h[key] == w else key !in h || h[key].reset < t
  }

  /** A reader at t finds the same under the key before and after. */
  predicate SameShown(before: Hits, after: Hits, key: string, t: Time)
  {
    && (key in before && t <= before[key].reset ==> key in after && after[key] == before[key])
    && (key in after && t <= after[key].reset ==> key in before && before[key] == after[key])
  }

  /** The window that was open at `now` counts one more; otherwise a new one lasts for `dur` from `now`. */
  predicate OneMoreShown(before: Hits, after: Hits, key: string, now: Time, dur: Time, t: Time)
  {
    if key in before && now <= before[key].reset
    then Shows(after, key, t, Window(before[key].count + 1, before[key].reset))
    else Shows(after, key, t, Window(1, now + dur))
  }

  lemma SameLook(before: Hits, after: Hits, now: Time)
    requires Alike(after, before, now)
    ensures forall key, t :: now <= t ==> SameShown(before, after, key, t)
  {
    forall key, t | now <= t
      ensures SameShown(before, after, key, t)
    {
      AlikeLater(after, before, now, t);
      assert Look(after, key, t) == Look(before, key, t);
    }
  }

  lemma FullBlocks(h: Hits, key: string, limit: int, now: Time)
    ensures Full(MaybeSwept(h, now, true), key, limit, now) <==> Blocks(h, key, limit, now)
    ensures Blocks(h, key, limit, now) ==>
              key in MaybeSwept(h, now, true) && MaybeSwept(h, now, true)[key] == h[key]
  {
  }

  /** The check of the three tiers, written out. */
  lemma ThreeTiersChecked(h: Hits, id: string, perMinute: int, perHour: int, perDay: int, now: Time)
    ensures var m, o, d := id + "|minute", id + "|hour", id + "|day";
            Refusal(MaybeSwept(h, now, true), id, Tiers(perMinute, perHour, perDay), now)
            == if Blocks(h, m, perMinute, now) then Some(Answer(false, "minute", h[m].reset - now))
               else if Blocks(h, o, perHour, now) then Some(Answer(false, "hour", h[o].reset - now))
               else if Blocks(h, d, perDay, now) then Some(Answer(false, "day", h[d].reset - now))
               else None
  {
    hide MaybeSwept;
    var m, o, d := id + "|minute", id + "|hour", id + "|day";
    FullBlocks(h, m, perMinute, now);
    FullBlocks(h, o, perHour, now);
    FullBlocks(h, d, perDay, now);
    assert Key(id, "minute") == m && Key(id, "hour") == o && Key(id, "day") == d by {
      assert id + "|" + "minute" == id + "|minute" && id + "|" + "hour" == id + "|hour";
      assert id + "|" + "day" == id + "|day";
    }
    var s, tiers := MaybeSwept(h, now, true), Tiers(perMinute, perHour, perDay);
    var two, one := [tiers[1], tiers[2]], [tiers[2]];
    assert tiers[1..] == two && two[1..] == one && one[1..] == [];
    assert Refusal(s, id, tiers, now) == if Full(s, m, perMinute, now)
                                         then Some(Answer(false, "minute", s[m].reset - now))
                                         else Refusal(s, id, two, now);
    assert Refusal(s, id, two, now) == if Full(s, o, perHour, now)
                                       then Some(Answer(false, "hour", s[o].reset - now))
                                       else Refusal(s, id, one, now);
    assert Refusal(s, id, one, now) == if Full(s, d, perDay, now)
                                       then Some(Answer(false, "day", s[d].reset - now)) else None;
  }

  /** A tier of the three shows its own count. */
  lemma TierCounted(before: Hits, after: Hits, id: string, tiers: seq<Tier>, at: seq<Time>, i: nat, t: Time)
    requires |at| == |tiers| && i < |tiers| && DistinctNames(tiers) && tiers[i].limit > 0
    requires Look(after, Key(id, tiers[i].name), t) == Counted(before, id, tiers, at, Key(id, tiers[i].name), t)
    ensures OneMoreShown(before, after, Key(id, tiers[i].name), at[i], tiers[i].dur, t)
  {
    var key := Key(id, tiers[i].name);
    forall j | 0 <= j < |tiers| && Key(id, tiers[j].name) == key
      ensures j == i
    {
      if tiers[j].name != tiers[i].name {
        KeysDistinct(id, tiers[j].name, tiers[i].name);
      }
    }
    assert Counted(before, id, tiers, at, key, t)
           == SeenAt(NextWindow(Look(before, key, at[i]), tiers[i].dur, at[i]), t);
  }

  lemma ThreeTiersCounted(before: Hits, after: Hits, id: string, perMinute: int, perHour: int, perDay: int,
                          at: seq<Time>)
    requires |at| == 3
    requires forall key, t :: at[2] <= t ==>
               Look(after, key, t) == Counted(before, id, Tiers(perMinute, perHour, perDay), at, key, t)
    ensures forall t :: at[2] <= t ==>
              && (perMinute > 0 ==> OneMoreShown(before, after, id + "|minute", at[0], 60_000_000_000, t))
              && (perHour > 0 ==> OneMoreShown(before, after, id + "|hour", at[1], 3_600_000_000_000, t))
              && (perDay > 0 ==> OneMoreShown(before, after, id + "|day", at[2], 86_400_000_000_000, t))
    ensures forall key, t :: at[2] <= t && !Enabled(id, perMinute, perHour, perDay, key) ==>
              SameShown(before, after, key, t)
  {
    hide OneMoreShown, Look, Counted;
    var tiers := Tiers(perMinute, perHour, perDay);
    assert Key(id, "minute") == id + "|minute" && Key(id, "hour") == id + "|hour" && Key(id, "day") == id + "|day" by {
      assert id + "|" + "minute" == id + "|minute" && id + "|" + "hour" == id + "|hour";
      assert id + "|" + "day" == id + "|day";
    }
    forall i, t | 0 <= i < 3 && tiers[i].limit > 0 && at[2] <= t
      ensures OneMoreShown(before, after, Key(id, tiers[i].name), at[i], tiers[i].dur, t)
    {
      TierCounted(before, after, id, tiers, at, i, t);
    }
    assert tiers[0] == Tier("minute", 60_000_000_000, perMinute);
    assert tiers[1] == Tier("hour", 3_600_000_000_000, perHour);
    assert tiers[2] == Tier("day", 86_400_000_000_000, perDay);
    forall key, t | at[2] <= t && !Enabled(id, perMinute, perHour, perDay, key)
      ensures SameShown(before, after, key, t)
    {
      OtherKeyShown(before, after, id, tiers, at, key, t);
    }
  }

  lemma OtherKeyShown(before: Hits, after: Hits, id: string, tiers: seq<Tier>, at: seq<Time>, key: string, t: Time)
    requires |at| == |tiers| && forall i :: 0 <= i < |tiers| && tiers[i].limit > 0 ==> Key(id, tiers[i].name) != key
    requires Look(after, key, t) == Counted(before, id, tiers, at, key, t)
    ensures SameShown(before, after, key, t)
  {
  }

  lemma CountNothing(h: Hits, id: string)
    ensures CountAll(h, id, [], [], true) == h
  {
  }

  lemma CountAllAppended(h: Hits, id: string, tiers: seq<Tier>, at: seq<Time>, x: Tier, t: Time)
    requires |at| == |tiers|
    ensures CountAll(h, id, tiers + [x], at + [t], true)
            == AllowAt(CountAll(h, id, tiers, at, true), Key(id, x.name), x.dur, x.limit, t, true).0
    ensures x.limit <= 0 ==> CountAll(h, id, tiers + [x], at + [t], true) == CountAll(h, id, tiers, at, true)
  {
    assert (tiers + [x])[..|tiers|] == tiers && (at + [t])[..|at|] == at;
  }

  /** Sweeping first makes no difference to what is counted. */
  lemma SweptCountsAlike(h: Hits, id: string, tiers: seq<Tier>, now: Time, at: seq<Time>, key: string, t: Time)
    requires |at| == |tiers| && Ascending(now, at) && now <= t && DistinctNames(tiers)
    ensures Counted(MaybeSwept(h, now, true), id, tiers, at, key, t) == Counted(h, id, tiers, at, key, t)
  {
    SweepUnnoticed(h, now, true);
    AlikeLater(MaybeSwept(h, now, true), h, now, t);
    forall i | 0 <= i < |tiers|
      ensures Look(MaybeSwept(h, now, true), key, at[i]) == Look(h, key, at[i])
    {
      AlikeLater(MaybeSwept(h, now, true), h, now, at[i]);
    }
  }
}
