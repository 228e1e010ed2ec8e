/**
  Group expiry caps: the cap as ApplyLifecycle computes it and as the check on a single update computes it,
  and the clamping of a group's live images to now plus the cap. Times are in nanoseconds.
 */
module Lifecycle {
  import opened Prelude
  import opened Keyset

  type Time = int
  type ImageId = nat

  const SECOND: Time := 1_000_000_000
  const MAX_CAP := 366 * 24 * 60 * 60

  /** The group's own limits, as stored: zero means none. */
  datatype Group = Group(maxExpiresIn: int, forceMaxAgeDays: int)

  /** A 64-bit product wraps. */
  function Wrap(x: int): int
  {
    (x + 0x8000_0000_0000_0000) % 0x1_0000_0000_0000_0000 - 0x8000_0000_0000_0000
  }

  function ForcedSeconds(g: Group): int
  {
    Wrap(g.forceMaxAgeDays * 86400)
  }

  /** The cap in seconds that clamping uses; zero is no cap. */
  function GroupCap(g: Option<Group>): int
  {
    if g.None? then 0
    else
      var max := g.value.maxExpiresIn;
      var forced :=
        if g.value.forceMaxAgeDays > 0 && (max <= 0 || ForcedSeconds(g.value) < max) then ForcedSeconds(g.value)
        else max;
      var bounded := if forced > MAX_CAP then MAX_CAP else forced;
      if bounded < 0 then 0 else bounded
  }

  /** The check on an update that sets an expiry, None being permanent; true when it passes. */
  predicate PassesCheck(g: Option<Group>, expires: Option<Time>, now: Time)
  {
    if g.None? then true
    else
      var forced :=
        if g.value.forceMaxAgeDays > 0
           && (g.value.maxExpiresIn <= 0 || ForcedSeconds(g.value) < g.value.maxExpiresIn)
        then ForcedSeconds(g.value) else g.value.maxExpiresIn;
      if forced <= 0 then true
      else
        var bounded := if forced > MAX_CAP then MAX_CAP else forced;
        expires.Some? && expires.value <= now + bounded * SECOND
  }

  /** Permanent, or expiring after `latest`. */
  predicate TooLate(expires: Option<Time>, latest: Time)
  {
    expires.None? || expires.value > latest
  }

  /** An expiry passes the check at `now` exactly when clamping at `now` would leave it alone. */
  lemma ChecksAgree(g: Option<Group>, expires: Option<Time>, now: Time)
    ensures PassesCheck(g, expires, now) <==> !(GroupCap(g) > 0 && TooLate(expires, now + GroupCap(g) * SECOND))
  {
  }

  /** The cap the settings describe: the smaller of the two limits that are set, and a year at most. */
  function MeantCap(g: Group): int
  {
    var a := if g.maxExpiresIn > 0 then g.maxExpiresIn else MAX_CAP;
    var b := if g.forceMaxAgeDays > 0 then g.forceMaxAgeDays * 86400 else MAX_CAP;
    if g.maxExpiresIn <= 0 && g.forceMaxAgeDays <= 0 then 0
    else if a <= b && a <= MAX_CAP then a else if b <= MAX_CAP then b else MAX_CAP
  }

  /** The computed cap is the one described exactly when the product of days and seconds has not wrapped below it. */
  lemma CapIsMeantIff(g: Group)
    ensures GroupCap(Some(g)) == MeantCap(g) <==> (g.forceMaxAgeDays > 0 ==> ForcedSeconds(g) >= MeantCap(g))
    ensures g.forceMaxAgeDays < 0x8000_0000_0000_0000 / 86400 ==> GroupCap(Some(g)) == MeantCap(g)
  {
    if 0 < g.forceMaxAgeDays < 0x8000_0000_0000_0000 / 86400 {
      assert ForcedSeconds(g) == g.forceMaxAgeDays * 86400;
    }
  }

  /** The settings of a group that a create or update request may store. */
  datatype Settings = Settings(defExpires: int, maxExpires: int, defViews: int, maxViews: int,
                               retentionDays: int, forceAgeDays: int)

  const MAX_AGE_DAYS := 3650
  const MAX_VIEWS := 10000

  /** The validation that every created or updated group passes, check by check. */
  predicate ValidSettings(s: Settings)
  {
    if s.defExpires < 0 || s.maxExpires < 0 || s.defViews < 0 || s.maxViews < 0 || s.retentionDays < 0
       || s.forceAgeDays < 0
    then false
    else if s.maxExpires > MAX_CAP || s.defExpires > MAX_CAP then false
    else if s.maxExpires > 0 && s.defExpires > s.maxExpires then false
    else if s.maxViews > MAX_VIEWS || s.defViews > MAX_VIEWS then false
    else if s.maxViews > 0 && s.defViews > s.maxViews then false
    else s.retentionDays <= MAX_AGE_DAYS && s.forceAgeDays <= MAX_AGE_DAYS
  }

  /** The settings that can be stored: each within its own bound, and no default above a maximum that is set. */
  lemma ValidSettingsIff(s: Settings)
    ensures ValidSettings(s) <==>
              && 0 <= s.maxExpires <= 31_622_400
              && 0 <= s.defExpires <= (if s.maxExpires > 0 then s.maxExpires else 31_622_400)
              && 0 <= s.maxViews <= 10_000
              && 0 <= s.defViews <= (if s.maxViews > 0 then s.maxViews else 10_000)
              && 0 <= s.retentionDays <= 3650
              && 0 <= s.forceAgeDays <= 3650
  {
  }

  function GroupOf(s: Settings): Group
  {
    Group(s.maxExpires, s.forceAgeDays)
  }

  /** For every group that can be stored no product wraps, and both computations use the cap the settings describe. */
  lemma StoredCapIsMeant(s: Settings, expires: Option<Time>, now: Time)
    requires ValidSettings(s)
    ensures ForcedSeconds(GroupOf(s)) == s.forceAgeDays * 86400
    ensures GroupCap(Some(GroupOf(s))) == MeantCap(GroupOf(s))
    ensures PassesCheck(Some(GroupOf(s)), expires, now)
            <==> (MeantCap(GroupOf(s)) > 0 ==> !TooLate(expires, now + MeantCap(GroupOf(s)) * SECOND))
    ensures var cap := GroupCap(Some(GroupOf(s)));
            && (cap == 0 <==> s.maxExpires == 0 && s.forceAgeDays == 0)
            && 0 <= cap <= 31_622_400
            && (s.maxExpires > 0 ==> cap <= s.maxExpires)
            && (s.forceAgeDays > 0 ==> cap <= s.forceAgeDays * 86400)
            && (cap > 0 ==> cap == s.maxExpires || cap == s.forceAgeDays * 86400 || cap == 31_622_400)
            && (PassesCheck(Some(GroupOf(s)), expires, now)
                <==> cap == 0 || (expires.Some? && expires.value <= now + cap * 1_000_000_000))
  {
    CapIsMeantIff(GroupOf(s));
    ChecksAgree(Some(GroupOf(s)), expires, now);
  }

  // ----- clamping a group's images -----

  /** `listed`: live and owned by the group, so that the query sees it. */
  datatype Row = Row(expires: Option<Time>, listed: bool)

  type Rows = map<ImageId, Row>

  predicate Candidate(r: Row, latest: Time)
  {
    r.listed && TooLate(r.expires, latest)
  }

  function Candidates(rows: Rows, latest: Time): set<ImageId>
  {
    set id | id in rows && Candidate(rows[id], latest)
  }

  function Lower(): (ImageId, ImageId) -> bool
  {
    (a, b) => a < b
  }

  /** The rows one call works on: the candidates with the lowest ids. */
  ghost function Chosen(rows: Rows, latest: Time, limit: nat): seq<ImageId>
  {
    LowerIsTotal();
    Take(Sorted(Lower(), Candidates(rows, latest)), limit)
  }

  /** The earlier of an expiry and `latest`, permanent counting as never. */
  function Earlier(expires: Option<Time>, latest: Time): Option<Time>
  {
    if expires.None? || expires.value > latest then Some(latest) else expires
  }

  function Clamped(rows: Rows, chosen: set<ImageId>, latest: Time): Rows
  {
    map id | id in rows :: if id in chosen then rows[id].(expires := Earlier(rows[id].expires, latest)) else rows[id]
  }

  function Limit(limit: int): nat
  {
    if limit <= 0 then 500 else limit
  }

  function AtMost(n: nat, limit: nat): nat
  {
    if n <= limit then n else limit
  }

  ghost function Applied(rows: Rows, cap: int, now: Time, limit: int): Rows
  {
    if cap <= 0 then rows
    else Clamped(rows, Elements(Chosen(rows, now + cap * SECOND, Limit(limit))), now + cap * SECOND)
  }

  lemma LowerIsTotal()
    ensures StrictTotal(Lower())
  {
  }

  lemma ChosenAreCandidates(rows: Rows, latest: Time, limit: nat)
    ensures var chosen := Chosen(rows, latest, limit);
            && Elements(chosen) <= Candidates(rows, latest)
            && |Elements(chosen)| == |chosen| == AtMost(|Candidates(rows, latest)|, limit)
            && NoDuplicates(chosen)
  {
    LowerIsTotal();
    var all := Sorted(Lower(), Candidates(rows, latest));
    assert forall k :: k in all ==> k in Elements(all);
    assert NoDuplicates(all);
    DistinctCount(Chosen(rows, latest, limit));
  }

  lemma {:induction false} DistinctCount(s: seq<ImageId>)
    requires NoDuplicates(s)
    ensures |Elements(s)| == |s|
  {
    if s != [] {
      DropLastElement(s);
      DistinctCount(s[..|s| - 1]);
    }
  }

  /** Clamping never lengthens an expiry, touches only what is chosen, and leaves the chosen at the minimum. */
  lemma NeverLengthens(rows: Rows, cap: int, now: Time, limit: int, id: ImageId)
    requires id in rows
    ensures var after := Applied(rows, cap, now, limit);
            && id in after && after[id].listed == rows[id].listed
            && (rows[id].expires.Some? ==> after[id].expires.Some? && after[id].expires.value <= rows[id].expires.value)
            && (after[id] != rows[id] ==>
                  cap > 0 && rows[id].listed && TooLate(rows[id].expires, now + cap * SECOND)
                  && after[id].expires == Some(now + cap * SECOND))
  {
    hide Elements;
    if cap > 0 {
      ChosenAreCandidates(rows, now + cap * SECOND, Limit(limit));
    }
  }

  lemma CandidatesShrink(rows: Rows, latest: Time, later: Time)
    requires latest <= later
    ensures Candidates(rows, later) <= Candidates(rows, latest)
  {
  }

  lemma ClampedLeave(rows: Rows, chosen: set<ImageId>, latest: Time)
    ensures Candidates(Clamped(rows, chosen, latest), latest) == Candidates(rows, latest) - chosen
  {
  }

  /** One call takes its batch out of the candidates, now and at any later time. */
  lemma CallTakesBatch(rows: Rows, cap: int, now: Time, limit: int, later: Time)
    requires cap > 0 && now <= later
    ensures var before := |Candidates(rows, now + cap * SECOND)|;
            |Candidates(Applied(rows, cap, now, limit), later + cap * SECOND)|
            <= if before <= Limit(limit) then 0 else before - Limit(limit)
  {
    hide Chosen, Clamped, Candidates;
    var latest := now + cap * SECOND;
    var chosen := Chosen(rows, latest, Limit(limit));
    ChosenAreCandidates(rows, latest, Limit(limit));
    var after := Applied(rows, cap, now, limit);
    ClampedLeave(rows, Elements(chosen), latest);
    CandidatesShrink(after, latest, later + cap * SECOND);
    SubsetCount(Candidates(after, later + cap * SECOND), Candidates(after, latest));
    SubsetCount(Elements(chosen), Candidates(rows, latest));
  }

  /**
    One call alone: as many listed images as the limit allows, 500 by default, the lowest ids first, of those that
    never expire or expire after now plus the cap, end there; no other image changes.
   */
  lemma CallEffect(rows: Rows, cap: int, now: Time, limit: int) returns (due: set<ImageId>, done: set<ImageId>)
    requires cap > 0
    ensures var after, latest := Applied(rows, cap, now, limit), now + cap * 1_000_000_000;
            && after.Keys == rows.Keys
            && (forall id :: id in due <==>
                  && id in rows && rows[id].listed
                  && (rows[id].expires.None? || rows[id].expires.value > latest))
            && done <= due
            && (forall id :: id in rows && id !in done ==> after[id] == rows[id])
            && (forall id :: id in done ==> after[id] == rows[id].(expires := Some(latest)))
    ensures |done| == if |due| <= (if limit <= 0 then 500 else limit) then |due|
                      else if limit <= 0 then 500 else limit
    ensures forall a, b :: a in done && b in due && b !in done ==> a < b
  {
    hide Sorted, Chosen, StrictTotal;
    var latest := now + cap * SECOND;
    due, done := Candidates(rows, latest), Elements(Chosen(rows, latest, Limit(limit)));
    ChosenAreCandidates(rows, latest, Limit(limit));
    ChosenAreLowest(rows, latest, Limit(limit));
  }

  lemma ChosenAreLowest(rows: Rows, latest: Time, limit: nat)
    ensures var chosen := Elements(Chosen(rows, latest, limit));
            forall a, b :: a in chosen && b in Candidates(rows, latest) && b !in chosen ==> a < b
  {
    hide StrictTotal;
    LowerIsTotal();
    var all := Sorted(Lower(), Candidates(rows, latest));
    var chosen := Chosen(rows, latest, limit);
    forall a, b | a in Elements(chosen) && b in Candidates(rows, latest) && b !in Elements(chosen)
      ensures a < b
    {
      var i :| 0 <= i < |chosen| && chosen[i] == a;
      assert b in Elements(all);
      var j :| 0 <= j < |all| && all[j] == b;
      assert forall m :: 0 <= m < |chosen| ==> chosen[m] in Elements(chosen) && chosen[m] == all[m];
      assert Lower()(all[i], all[j]);
    }
  }

  lemma SubsetCount(a: set<ImageId>, b: set<ImageId>)
    requires a <= b
    ensures |a| <= |b| && |b - a| == |b| - |a|
  {
    assert b == a + (b - a);
  }

  /** A sequence of calls at the given times. */
  ghost function AppliedAll(rows: Rows, cap: int, times: seq<Time>, limit: int): Rows
  {
    if times == [] then rows
    else Applied(AppliedAll(rows, cap, times[..|times| - 1], limit), cap, times[|times| - 1], limit)
  }

  predicate Advancing(times: seq<Time>)
  {
    forall i, j :: 0 <= i < j < |times| ==> times[i] <= times[j]
  }

  lemma {:induction false} CallsTakeBatches(rows: Rows, cap: int, times: seq<Time>, limit: int, later: Time)
    requires cap > 0 && times != [] && Advancing(times) && times[|times| - 1] <= later
    ensures var n := |Candidates(rows, times[0] + cap * SECOND)|;
            |Candidates(AppliedAll(rows, cap, times, limit), later + cap * SECOND)|
            <= if n <= |times| * Limit(limit) then 0 else n - |times| * Limit(limit)
  {
    hide Applied, Candidates;
    var m := |times| - 1;
    var before := AppliedAll(rows, cap, times[..m], limit);
    CallTakesBatch(before, cap, times[m], limit, later);
    assert |times| * Limit(limit) == m * Limit(limit) + Limit(limit);
    if m > 0 {
      CallsTakeBatches(rows, cap, times[..m], limit, times[m]);
    }
  }

  /** ceil(n / limit) calls, as time goes on, leave no candidate. */
  lemma EnoughCalls(rows: Rows, cap: int, times: seq<Time>, limit: int)
    requires cap > 0 && times != [] && Advancing(times)
    requires |Candidates(rows, times[0] + cap * SECOND)| <= |times| * (if limit <= 0 then 500 else limit)
    ensures Candidates(AppliedAll(rows, cap, times, limit), times[|times| - 1] + cap * SECOND) == {}
  {
    CallsTakeBatches(rows, cap, times, limit, times[|times| - 1]);
  }

  /** Once no candidate is left, every listed image of the group passes the check. */
  lemma DoneMeansChecked(rows: Rows, g: Group, now: Time)
    requires GroupCap(Some(g)) > 0
    ensures Candidates(rows, now + GroupCap(Some(g)) * SECOND) == {}
            <==> forall id :: id in rows && rows[id].listed ==> PassesCheck(Some(g), rows[id].expires, now)
  {
    forall id | id in rows && rows[id].listed
      ensures PassesCheck(Some(g), rows[id].expires, now) <==> id !in Candidates(rows, now + GroupCap(Some(g)) * SECOND)
    {
      ChecksAgree(Some(g), rows[id].expires, now);
    }
  }

  // ----- preview -----

  function Permanent(rows: Rows): set<ImageId>
  {
    set id | id in rows && rows[id].listed && rows[id].expires.None?
  }

  function OverCap(rows: Rows, latest: Time): set<ImageId>
  {
    set id | id in rows && rows[id].listed && rows[id].expires.Some? && rows[id].expires.value > latest
  }

  /** The preview's two counts add up to the candidates, without counting an image twice. */
  lemma PreviewCountsCandidates(rows: Rows, latest: Time)
    ensures |Permanent(rows)| + |OverCap(rows, latest)| == |Candidates(rows, latest)|
  {
    assert Permanent(rows) + OverCap(rows, latest) == Candidates(rows, latest);
    assert Permanent(rows) * OverCap(rows, latest) == {};
  }

  // ----- the service as it runs -----

  class GroupImages {
    var rows: Rows

    constructor (stored: Rows)
      ensures rows == stored
    {
      rows := stored;
    }

    /**
      Clamps the images that the query returned, one guarded UPDATE after another. An image that was trashed or
      re-dated since the query is skipped.
     */
    method ApplyLifecycle(g: Group, now: Time, ids: seq<ImageId>) returns (updated: nat, skipped: nat)
      requires NoDuplicates(ids)
      modifies this
      ensures GroupCap(Some(g)) <= 0 ==> rows == old(rows) && updated == skipped == 0
      ensures GroupCap(Some(g)) > 0 ==>
                var latest := now + GroupCap(Some(g)) * SECOND;
                && rows == Clamped(old(rows), Elements(ids) * Candidates(old(rows), latest), latest)
                && updated == |Elements(ids) * Candidates(old(rows), latest)| && updated + skipped == |ids|
                && rows.Keys == old(rows).Keys
                && (forall id :: id in rows ==>
                      rows[id] == if id in ids && old(rows)[id].listed
                                     && (old(rows)[id].expires.None? || old(rows)[id].expires.value > latest)
                                  then Row(Some(latest), true) else old(rows)[id])
    {
      hide GroupCap, Clamped, Candidate, Candidates, Elements;
      updated, skipped := 0, 0;
      var cap := GroupCap(Some(g));
      if cap <= 0 {
        return;
      }
      var latest := now + cap * SECOND;
      NothingClamped(rows, latest);
      ghost var due := Candidates(rows, latest);
      var k := 0;
      while k < |ids|
        invariant 0 <= k <= |ids| && updated + skipped == k && updated == |Elements(ids[..k]) * due|
        invariant rows == Clamped(old(rows), Elements(ids[..k]) * due, latest)
      {
        OneMoreClamped(old(rows), ids[..k], ids[k], latest);
        assert ids[..k + 1] == ids[..k] + [ids[k]];
        if ids[k] in rows && Candidate(rows[ids[k]], latest) {
          rows := rows[ids[k] := rows[ids[k]].(expires := Some(latest))];
          updated := updated + 1;
        } else {
          skipped := skipped + 1;
        }
        k := k + 1;
      }
      assert ids[..k] == ids;
      ClampedRows(old(rows), ids, latest);
    }
  }

  lemma ClampedRows(rows: Rows, ids: seq<ImageId>, latest: Time)
    ensures var after := Clamped(rows, Elements(ids) * Candidates(rows, latest), latest);
            && after.Keys == rows.Keys
            && (forall id :: id in rows ==>
                  after[id] == if id in ids && rows[id].listed
                                  && (rows[id].expires.None? || rows[id].expires.value > latest)
                               then Row(Some(latest), true) else rows[id])
  {
  }

  lemma NothingClamped(rows: Rows, latest: Time)
    ensures Elements<ImageId>([]) * Candidates(rows, latest) == {} && Clamped(rows, {}, latest) == rows
  {
  }

  /** The next id is clamped exactly when it was a candidate at the start. */
  lemma OneMoreClamped(rows: Rows, done: seq<ImageId>, id: ImageId, latest: Time)
    requires id !in done
    ensures var due := Candidates(rows, latest);
            var before := Clamped(rows, Elements(done) * due, latest);
            var after := Clamped(rows, Elements(done + [id]) * due, latest);
            && (id in due <==> id in before && Candidate(before[id], latest))
            && after == (if id in due then before[id := before[id].(expires := Some(latest))] else before)
            && |Elements(done + [id]) * due| == |Elements(done) * due| + (if id in due then 1 else 0)
  {
    AppendElement(done, id);
    var due := Candidates(rows, latest);
    if id in due {
      assert Elements(done + [id]) * due == Elements(done) * due + {id};
    } else {
      assert Elements(done + [id]) * due == Elements(done) * due;
    }
  }

  /** Run on what its query returned, a call has the effect of Applied and updates as many images as it may. */
  lemma CallAlone(rows: Rows, cap: int, now: Time, limit: int, ids: seq<ImageId>)
    requires cap > 0 && ids == Chosen(rows, now + cap * SECOND, Limit(limit))
    ensures var latest := now + cap * SECOND;
            && Clamped(rows, Elements(ids) * Candidates(rows, latest), latest) == Applied(rows, cap, now, limit)
            && |Elements(ids) * Candidates(rows, latest)| == |ids| == AtMost(|Candidates(rows, latest)|, Limit(limit))
  {
    hide Chosen, Clamped, Candidates, Elements, NoDuplicates;
    var latest := now + cap * SECOND;
    ChosenAreCandidates(rows, latest, Limit(limit));
    assert Elements(ids) * Candidates(rows, latest) == Elements(ids);
  }
}
