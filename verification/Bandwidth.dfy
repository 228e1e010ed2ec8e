/**
  The monthly bandwidth meter: a counter with the month it belongs to, reset lazily. Months are numbered in
  calendar order. First the counter as a map from months to bytes, then requests that check it and add to it
  at different times.
 */
module Bandwidth {
  import opened Prelude

  type Month = int

  /** The two columns of a user row; a user who was never metered has no month. */
  datatype Meter = Meter(used: int, month: Option<Month>)

  datatype Entry = Entry(month: Month, bytes: int)

  /** The use that counts in a month: nothing when the row is of another month, never less than zero. */
  function EffectiveUsed(row: Meter, month: Month): nat
  {
    if row.month != Some(month) || row.used < 0 then 0 else row.used
  }

  /** The UPDATE: add within the row's month, start over in another one. */
  function Added(row: Meter, e: Entry): Meter
  {
    if e.bytes <= 0 then row
    else Meter(if row.month == Some(e.month) then row.used + e.bytes else e.bytes, Some(e.month))
  }

  function AddAll(row: Meter, entries: seq<Entry>): Meter
  {
    if entries == [] then row else Added(AddAll(row, entries[..|entries| - 1]), entries[|entries| - 1])
  }

  // ----- against a map from months to bytes -----

  /** Bytes of one entry that count in a month. */
  function Counts(e: Entry, month: Month): nat
  {
    if e.month == month && e.bytes > 0 then e.bytes else 0
  }

  /** What a meter with a counter for every month would show. */
  function MonthTotal(entries: seq<Entry>, month: Month): nat
  {
    if entries == [] then 0
    else MonthTotal(entries[..|entries| - 1], month) + Counts(entries[|entries| - 1], month)
  }

  /** No metered byte of the month is followed by one of another month. */
  predicate Undisturbed(entries: seq<Entry>, month: Month)
  {
    forall i, j :: 0 <= i < j < |entries| && Counts(entries[i], month) > 0 && entries[j].bytes > 0 ==>
      entries[j].month == month
  }

  const UNMETERED := Meter(0, None)

  /** The counter never goes negative, and never shows more than the month's bytes. */
  lemma {:induction false} NeverOverstates(entries: seq<Entry>, month: Month)
    ensures AddAll(UNMETERED, entries).used >= 0
    ensures EffectiveUsed(AddAll(UNMETERED, entries), month) <= MonthTotal(entries, month)
  {
    if entries != [] {
      NeverOverstates(entries[..|entries| - 1], month);
    }
  }

  lemma UndisturbedPrefix(entries: seq<Entry>, month: Month, n: nat)
    requires Undisturbed(entries, month) && n <= |entries|
    ensures Undisturbed(entries[..n], month)
  {
  }

  lemma {:induction false} TotalPositive(entries: seq<Entry>, month: Month)
    ensures MonthTotal(entries, month) > 0 <==> exists i :: 0 <= i < |entries| && Counts(entries[i], month) > 0
  {
    if entries != [] {
      var n := |entries| - 1;
      TotalPositive(entries[..n], month);
      if i :| 0 <= i < n && Counts(entries[..n][i], month) > 0 {
        assert Counts(entries[i], month) > 0;
      }
      if i :| 0 <= i < |entries| && Counts(entries[i], month) > 0 {
        assert i < n ==> Counts(entries[..n][i], month) > 0;
      }
    }
  }

  /** The row shows exactly the month's bytes if and only if they were not disturbed by another month's. */
  lemma {:induction false} ShowsMonthIff(entries: seq<Entry>, month: Month)
    ensures EffectiveUsed(AddAll(UNMETERED, entries), month) == MonthTotal(entries, month)
            <==> Undisturbed(entries, month)
    ensures Undisturbed(entries, month) && MonthTotal(entries, month) > 0 ==>
              AddAll(UNMETERED, entries).month == Some(month)
  {
    if entries != [] {
      var n := |entries| - 1;
      ShowsMonthIff(entries[..n], month);
      NeverOverstates(entries[..n], month);
      TotalPositive(entries[..n], month);
      LastDisturbs(entries, month);
    }
  }

  lemma LastDisturbs(entries: seq<Entry>, month: Month)
    requires entries != []
    ensures var n := |entries| - 1;
            Undisturbed(entries, month) <==>
              && Undisturbed(entries[..n], month)
              && (entries[n].bytes > 0 && entries[n].month != month ==>
                    forall i :: 0 <= i < n ==> Counts(entries[..n][i], month) == 0)
  {
    var n := |entries| - 1;
    assert forall i :: 0 <= i < n ==> entries[..n][i] == entries[i];
    if Undisturbed(entries, month) {
      UndisturbedPrefix(entries, month, n);
    } else {
      var i, j :| 0 <= i < j < |entries| && Counts(entries[i], month) > 0
                  && entries[j].bytes > 0 && entries[j].month != month;
      assert entries[..n][i] == entries[i];
      assert j < n ==> entries[..n][j] == entries[j];
    }
  }

  predicate InOrder(entries: seq<Entry>)
  {
    forall i, j :: 0 <= i < j < |entries| ==> entries[i].month <= entries[j].month
  }

  /** With months in order the pair refines the map: the current month always shows the sum of its bytes. */
  lemma CurrentMonthExact(entries: seq<Entry>, month: Month)
    requires InOrder(entries) && forall i :: 0 <= i < |entries| ==> entries[i].month <= month
    ensures EffectiveUsed(AddAll(UNMETERED, entries), month) == MonthTotal(entries, month)
  {
    ShowsMonthIff(entries, month);
  }

  /** An entry computed before the turn of the month and written after it wipes out the new month. */
  lemma LateEntryForgetsMonth(last: Month, bytes: int)
    requires bytes > 0
    ensures var entries := [Entry(last + 1, bytes), Entry(last, 1)];
            EffectiveUsed(AddAll(UNMETERED, entries), last + 1) == 0 < MonthTotal(entries, last + 1) == bytes
  {
    var entries := [Entry(last + 1, bytes), Entry(last, 1)];
    assert entries[..1] == [Entry(last + 1, bytes)] && entries[..1][..0] == [];
    assert MonthTotal(entries[..1], last + 1) == MonthTotal([], last + 1) + bytes;
  }

  // ----- the meter as it runs -----

  class UserRow {
    var bandwidthUsed: int
    var bandwidthMonth: Option<Month>

    function Row(): Meter
      reads this
    {
      Meter(bandwidthUsed, bandwidthMonth)
    }

    constructor ()
      ensures Row() == UNMETERED
    {
      bandwidthUsed, bandwidthMonth := 0, None;
    }

    /** Nothing for zero or fewer bytes; otherwise one UPDATE with the month read just before. */
    method Add(month: Month, bytes: int)
      modifies this
      ensures Row() == Added(old(Row()), Entry(month, bytes))
      ensures bytes > 0 && old(bandwidthUsed) >= 0 ==>
                EffectiveUsed(Row(), month) == EffectiveUsed(old(Row()), month) + bytes
    {
      if bytes <= 0 {
        return;
      }
      if bandwidthMonth == Some(month) {
        bandwidthUsed := bandwidthUsed + bytes;
      } else {
        bandwidthUsed := bytes;
      }
      bandwidthMonth := Some(month);
    }

    /** True when the request may go on; a quota of zero or less is no quota. */
    method Check(quota: int, month: Month) returns (ok: bool)
      ensures ok <==> quota <= 0 || EffectiveUsed(Row(), month) < quota
    {
      if quota <= 0 {
        return true;
      }
      var used := if bandwidthMonth != Some(month) || bandwidthUsed < 0 then 0 else bandwidthUsed;
      ok := used < quota;
    }
  }
}
