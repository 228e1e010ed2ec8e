/**
  Requests for one owner's images, running at the same time: each reads the owner's row, compares it with
  the quota in the month it then reads from the clock, and once served adds its bytes in a month read later.
 */
module BandwidthGate {
  import opened Prelude
  import opened Bandwidth

  type RequestId = nat

  /** Where an authorised-or-not request stands between its steps. */
  datatype Phase =
    | Looked(snapshot: Meter)        // the row was read
    | Admitted(month: Month)         // let through, by the month read at that moment
    | Metering(month: Month)         // served; the month to add to was read

  /** Quota of the owner's group, at most `most` requests in flight, each of at most `size` bytes. */
  datatype Limits = Limits(quota: nat, most: nat, size: nat)

  datatype System = System(row: Meter, now: Month, requests: map<RequestId, Phase>)

  datatype Event =
    | Look(request: RequestId)
    | Decide(request: RequestId)
    | ReadMonth(request: RequestId)
    | Add(request: RequestId, bytes: int)
    | Leave(request: RequestId)      // an error, or nothing to meter
    | Turn(months: nat)              // time passes

  function Drop(s: System, r: RequestId): System
  {
    s.(requests := s.requests - {r})
  }

  function Apply(s: System, e: Event, l: Limits): System
  {
    match e
    case Look(r) =>
      if r in s.requests || |s.requests| >= l.most then s else s.(requests := s.requests[r := Looked(s.row)])
    case Decide(r) =>
      if r in s.requests && s.requests[r].Looked? then
        if l.quota > 0 && EffectiveUsed(s.requests[r].snapshot, s.now) >= l.quota then Drop(s, r)
        else s.(requests := s.requests[r := Admitted(s.now)])
      else s
    case ReadMonth(r) =>
      if r in s.requests && s.requests[r].Admitted? then s.(requests := s.requests[r := Metering(s.now)]) else s
    case Add(r, bytes) =>
      if r in s.requests && s.requests[r].Metering? && bytes <= l.size then
        Drop(s, r).(row := Added(s.row, Entry(s.requests[r].month, bytes)))
      else s
    case Leave(r) => Drop(s, r)
    case Turn(months) => s.(now := s.now + months)
  }

  function Run(s: System, events: seq<Event>, l: Limits): System
  {
    if events == [] then s else Apply(Run(s, events[..|events| - 1], l), events[|events| - 1], l)
  }

  // ----- what the steps do -----

  /** A request is let through exactly when there is no quota or the snapshot's use of the present month is below it. */
  lemma DecideEffect(s: System, r: RequestId, l: Limits)
    requires r in s.requests && s.requests[r].Looked?
    ensures var t, snap := Apply(s, Decide(r), l), s.requests[r].snapshot;
            && (r in t.requests <==>
                  l.quota == 0 || (if snap.month == Some(s.now) && snap.used > 0 then snap.used else 0) < l.quota)
            && (r in t.requests ==> t.requests[r] == Admitted(s.now))
            && t.row == s.row && t.now == s.now
            && (forall q :: q != r ==> (q in t.requests <==> q in s.requests))
            && (forall q :: q != r && q in s.requests ==> t.requests[q] == s.requests[q])
  {
  }

  /** A served request adds its bytes to the month it read, starting over when the row is of another one, and ends. */
  lemma AddEffect(s: System, r: RequestId, bytes: int, l: Limits)
    requires r in s.requests && s.requests[r].Metering? && bytes <= l.size
    ensures var t, month := Apply(s, Add(r, bytes), l), s.requests[r].month;
            && t.row == (if bytes <= 0 then s.row
                         else if s.row.month == Some(month) then Meter(s.row.used + bytes, Some(month))
                         else Meter(bytes, Some(month)))
            && t.requests == s.requests - {r} && t.now == s.now
  {
  }

  /** Time passes, and the month a request reads is the one it is then. */
  lemma ClockEffect(s: System, r: RequestId, months: nat, l: Limits)
    requires r in s.requests && s.requests[r].Admitted?
    ensures Apply(s, Turn(months), l) == s.(now := s.now + months)
    ensures Apply(s, ReadMonth(r), l) == s.(requests := s.requests[r := Metering(s.now)])
  {
  }

  // ----- the bound -----

  /** The request may still add to the month of the row. */
  predicate Threatens(p: Phase, row: Meter, quota: nat)
  {
    match p
    case Looked(snapshot) => row.month.Some? && EffectiveUsed(snapshot, row.month.value) < quota
    case Admitted(month) => row.month.Some? && month <= row.month.value
    case Metering(month) => row.month == Some(month)
  }

  function Threats(s: System, quota: nat): set<RequestId>
  {
    set r | r in s.requests && Threatens(s.requests[r], s.row, quota)
  }

  /** Months already read are not in the future, and what is used plus what may come stays below the bound. */
  ghost predicate Bounded(s: System, l: Limits)
  {
    && s.row.used >= 0
    && |s.requests| <= l.most
    && (s.row.month.Some? ==> s.row.month.value <= s.now)
    && (forall r :: r in s.requests ==>
          match s.requests[r]
          case Looked(_) => true
          case Admitted(month) => month <= s.now
          case Metering(month) => month <= s.now)
    && (s.row.month.Some? ==> s.row.used + l.size * |Threats(s, l.quota)| <= l.quota - 1 + l.most * l.size)
  }

  /** No more threats than requests. */
  lemma ThreatsAreRequests(s: System, quota: nat)
    ensures |Threats(s, quota)| <= |s.requests|
  {
    assert Threats(s, quota) <= s.requests.Keys;
    SubsetSize(Threats(s, quota), s.requests.Keys);
    assert |s.requests.Keys| == |s.requests|;
  }

  lemma {:induction false} SubsetSize<T>(a: set<T>, b: set<T>)
    requires a <= b
    ensures |a| <= |b|
  {
    assert b == a + (b - a);
  }

  lemma Product(a: nat, b: nat, c: nat)
    requires a <= b
    ensures c * a <= b * c && a * c <= b * c
  {
  }

  /** Steps that leave the row alone and create no new threat keep the bound. */
  lemma NoNewThreat(s: System, t: System, l: Limits)
    requires Bounded(s, l) && t.row == s.row && Threats(t, l.quota) <= Threats(s, l.quota)
    ensures s.row.month.Some? ==> t.row.used + l.size * |Threats(t, l.quota)| <= l.quota - 1 + l.most * l.size
  {
    SubsetSize(Threats(t, l.quota), Threats(s, l.quota));
    Product(|Threats(t, l.quota)|, |Threats(s, l.quota)|, l.size);
  }

  lemma LookKeepsBound(s: System, r: RequestId, l: Limits)
    requires Bounded(s, l) && l.quota > 0
    ensures Bounded(Apply(s, Look(r), l), l)
  {
    var t := Apply(s, Look(r), l);
    if t != s {
      assert |t.requests| == |s.requests| + 1;
      if s.row.used < l.quota {
        ThreatsAreRequests(t, l.quota);
        Product(|Threats(t, l.quota)|, l.most, l.size);
      } else {
        NoNewThreat(s, t, l);
      }
    }
  }

  lemma AdvanceKeepsBound(s: System, e: Event, l: Limits)
    requires Bounded(s, l) && l.quota > 0 && (e.Decide? || e.ReadMonth? || e.Leave? || e.Turn?)
    ensures Bounded(Apply(s, e, l), l)
  {
    var t := Apply(s, e, l);
    ThreatsAreRequests(t, l.quota);
    assert |t.requests| <= |s.requests| by {
      SubsetSize(t.requests.Keys, s.requests.Keys);
      assert |t.requests.Keys| == |t.requests| && |s.requests.Keys| == |s.requests|;
    }
    assert Threats(t, l.quota) <= Threats(s, l.quota);
    NoNewThreat(s, t, l);
  }

  lemma AddKeepsBound(s: System, r: RequestId, bytes: int, l: Limits)
    requires Bounded(s, l) && l.quota > 0
    ensures Bounded(Apply(s, Add(r, bytes), l), l)
  {
    var t := Apply(s, Add(r, bytes), l);
    if t != s {
      assert |t.requests| == |s.requests| - 1;
      var month := s.requests[r].month;
      if bytes <= 0 {
        assert Threats(t, l.quota) <= Threats(s, l.quota);
        NoNewThreat(s, t, l);
      } else if s.row.month == Some(month) {
        assert r in Threats(s, l.quota);
        assert Threats(t, l.quota) <= Threats(s, l.quota) - {r};
        SubsetSize(Threats(t, l.quota), Threats(s, l.quota) - {r});
        AddPaysForItself(|Threats(t, l.quota)|, |Threats(s, l.quota)|, l.size, bytes);
      } else {
        ThreatsAreRequests(t, l.quota);
        AddPaysForItself(|Threats(t, l.quota)|, l.most, l.size, bytes);
      }
    }
  }

  /** One request fewer makes room for its own bytes. */
  lemma AddPaysForItself(less: nat, more: nat, size: nat, bytes: int)
    requires less + 1 <= more && bytes <= size
    ensures bytes + size * less <= size * more == more * size
  {
    Product(less + 1, more, size);
    assert size * (less + 1) == size * less + size;
  }

  lemma EventKeepsBound(s: System, e: Event, l: Limits)
    requires Bounded(s, l) && l.quota > 0
    ensures Bounded(Apply(s, e, l), l)
  {
    hide Bounded, Apply;
    match e
    case Look(r) => LookKeepsBound(s, r, l);
    case Add(r, bytes) => AddKeepsBound(s, r, bytes, l);
    case _ => AdvanceKeepsBound(s, e, l);
  }

  lemma {:induction false} RunKeepsBound(s: System, events: seq<Event>, l: Limits)
    requires Bounded(s, l) && l.quota > 0
    ensures Bounded(Run(s, events, l), l)
  {
    if events != [] {
      RunKeepsBound(s, events[..|events| - 1], l);
      EventKeepsBound(Run(s, events[..|events| - 1], l), events[|events| - 1], l);
    }
  }

  /**
    Under every interleaving of looks, decisions, month readings and adds, across any turns of the month, the
    effective use of every month stays at or below quota - 1 + most * size, if it starts there.
   */
  lemma OvershootBound(row: Meter, now: Month, events: seq<Event>, l: Limits, month: Month)
    requires l.quota > 0 && 0 <= row.used <= l.quota - 1 + l.most * l.size
    requires row.month.Some? ==> row.month.value <= now
    ensures EffectiveUsed(Run(System(row, now, map[]), events, l).row, month) <= l.quota - 1 + l.most * l.size
  {
    var s := System(row, now, map[]);
    assert Threats(s, l.quota) == {};
    assert Bounded(s, l);
    RunKeepsBound(s, events, l);
    Product(0, |Threats(Run(s, events, l), l.quota)|, l.size);
    Product(0, l.most, l.size);
  }

  // ----- the bound is reached -----

  function Looks(k: nat): seq<Event>
  {
    if k == 0 then [] else Looks(k - 1) + [Look(k - 1)]
  }

  /** The last k of n requests go on to the end, each adding `size` bytes. */
  function Finishes(n: nat, k: nat, size: nat): seq<Event>
    requires k <= n
  {
    if k == 0 then [] else Finishes(n, k - 1, size) + [Decide(n - k), ReadMonth(n - k), Add(n - k, size)]
  }

  /** The first n requests have looked. */
  function Waiting(row: Meter, n: nat): map<RequestId, Phase>
  {
    if n == 0 then map[] else Waiting(row, n - 1)[n - 1 := Looked(row)]
  }

  lemma {:induction false} WaitingSize(row: Meter, n: nat)
    ensures |Waiting(row, n)| == n && forall r :: r in Waiting(row, n) ==> r < n
  {
    if n > 0 {
      WaitingSize(row, n - 1);
    }
  }

  lemma OneMore(s: System, events: seq<Event>, e: Event, l: Limits)
    ensures Run(s, events + [e], l) == Apply(Run(s, events, l), e, l)
  {
    assert (events + [e])[..|events|] == events;
  }

  lemma ThreeMore(s: System, events: seq<Event>, a: Event, b: Event, c: Event, l: Limits)
    ensures Run(s, events + [a, b, c], l) == Apply(Apply(Apply(Run(s, events, l), a, l), b, l), c, l)
  {
    hide Run, Apply;
    OneMore(s, events, a, l);
    OneMore(s, events + [a], b, l);
    OneMore(s, events + [a] + [b], c, l);
    assert events + [a] + [b] + [c] == events + [a, b, c];
  }

  lemma {:induction false} AllLook(row: Meter, now: Month, k: nat, l: Limits)
    requires k <= l.most
    ensures Run(System(row, now, map[]), Looks(k), l) == System(row, now, Waiting(row, k))
  {
    hide EffectiveUsed;
    if k > 0 {
      AllLook(row, now, k - 1, l);
      OneMore(System(row, now, map[]), Looks(k - 1), Look(k - 1), l);
      WaitingSize(row, k - 1);
    }
  }

  lemma {:induction false} AllFinish(now: Month, k: nat, l: Limits)
    requires l.quota > 0 && k <= l.most && l.size > 0
    ensures var row := Meter(l.quota - 1, Some(now));
            Run(System(row, now, Waiting(row, l.most)), Finishes(l.most, k, l.size), l)
            == System(Meter(l.quota - 1 + k * l.size, Some(now)), now, Waiting(row, l.most - k))
  {
    hide Apply, Waiting;
    var row := Meter(l.quota - 1, Some(now));
    if k > 0 {
      var n := l.most - k;
      AllFinish(now, k - 1, l);
      ThreeMore(System(row, now, Waiting(row, l.most)), Finishes(l.most, k - 1, l.size),
                Decide(n), ReadMonth(n), Add(n, l.size), l);
      OneFinishes(now, n, l, l.quota - 1 + (k - 1) * l.size);
      assert k * l.size == (k - 1) * l.size + l.size;
    }
  }

  lemma OneFinishes(now: Month, n: nat, l: Limits, used: nat)
    requires l.quota > 0 && n < l.most && l.size > 0
    ensures var row := Meter(l.quota - 1, Some(now));
            Apply(Apply(Apply(System(Meter(used, Some(now)), now, Waiting(row, n + 1)),
                              Decide(n), l), ReadMonth(n), l), Add(n, l.size), l)
            == System(Meter(used + l.size, Some(now)), now, Waiting(row, n))
  {
    var row := Meter(l.quota - 1, Some(now));
    WaitingSize(row, n);
    assert Waiting(row, n + 1)[n := Admitted(now)][n := Metering(now)] - {n} == Waiting(row, n);
  }

  lemma RunAppended(s: System, one: seq<Event>, two: seq<Event>, l: Limits)
    ensures Run(s, one + two, l) == Run(Run(s, one, l), two, l)
    decreases |two|
  {
    hide Apply;
    if two == [] {
      assert one + two == one;
    } else {
      var n := |two| - 1;
      RunAppended(s, one, two[..n], l);
      assert (one + two)[..|one + two| - 1] == one + two[..n];
    }
  }

  /** For every quota, every number of requests and every size some run reaches the bound exactly. */
  lemma OvershootIsReached(now: Month, l: Limits)
    requires l.quota > 0 && l.size > 0
    ensures var row := Meter(l.quota - 1, Some(now));
            EffectiveUsed(Run(System(row, now, map[]), Looks(l.most) + Finishes(l.most, l.most, l.size), l).row, now)
            == l.quota - 1 + l.most * l.size
  {
    var row := Meter(l.quota - 1, Some(now));
    RunAppended(System(row, now, map[]), Looks(l.most), Finishes(l.most, l.most, l.size), l);
    AllLook(row, now, l.most, l);
    AllFinish(now, l.most, l);
    Product(0, l.most, l.size);
  }
}
