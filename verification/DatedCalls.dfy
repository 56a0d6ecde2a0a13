/** When a period that tools/reconcile_usage.py reports can be a false alarm: sessions are booked on
    the day they were created, calls are billed on their own day. */
module DatedCalls {
  import opened Wrappers
  import opened Grouping
  import opened Reconcile

  datatype Call = Call(day: string, usage: Usage)

  /** What really happened in a session. */
  datatype Log = Log(created: string, calls: seq<Call>)

  function UsagesOf(calls: seq<Call>): seq<Usage> {
    if calls == [] then [] else UsagesOf(calls[..|calls| - 1]) + [calls[|calls| - 1].usage]
  }

  /** The usages of the calls of one day. */
  function OnDay(calls: seq<Call>, day: string): seq<Usage> {
    if calls == [] then []
    else
      var rest, last := OnDay(calls[..|calls| - 1], day), calls[|calls| - 1];
      if last.day == day then rest + [last.usage] else rest
  }

  /** The misses the provider saw on a day. */
  function MissesOn(logs: seq<Log>, day: string): nat {
    if logs == [] then 0 else MissesOn(logs[..|logs| - 1], day) + CallMisses(OnDay(logs[|logs| - 1].calls, day))
  }

  /** The bill leaves nothing out: on every day it has at least the misses of that day's calls. */
  ghost predicate Full(rows: seq<Row>, logs: seq<Log>) {
    forall day :: MissesOn(logs, day) <= BilledMiss(rows, day)
  }

  /** What the daemon lists of a session: its day, and services that add up to its calls; nothing
      when the session has left the listing or its usage cannot be read. */
  predicate Lists(session: Session, log: Log) {
    session.created == log.created
    && (session.services.Some? ==> Accumulates(session.services.value, UsagesOf(log.calls)))
  }

  predicate AllListed(sessions: seq<Session>, logs: seq<Log>) {
    |sessions| == |logs| && forall i | 0 <= i < |logs| :: Lists(sessions[i], logs[i])
  }

  /** The days of a session and its calls, without any counts. */
  datatype Days = Days(created: string, calls: seq<string>)

  function DaysOf(log: Log): Days {
    Days(log.created, seq(|log.calls|, k requires 0 <= k < |log.calls| => log.calls[k].day))
  }

  predicate HasDays(logs: seq<Log>, days: seq<Days>) {
    |logs| == |days| && forall i | 0 <= i < |logs| :: DaysOf(logs[i]) == days[i]
  }

  /** Every call of a session created in the period is of the period too. */
  predicate StaysWithin(days: seq<Days>, period: string) {
    forall i, k | 0 <= i < |days| && days[i].created == period && 0 <= k < |days[i].calls| ::
      days[i].calls[k] == period
  }

  // ----- no false alarm when calls stay within the period -----

  lemma {:induction false} OneDayOnly(calls: seq<Call>, day: string)
    requires forall k | 0 <= k < |calls| :: calls[k].day == day
    ensures OnDay(calls, day) == UsagesOf(calls)
  {
    if calls != [] {
      OneDayOnly(calls[..|calls| - 1], day);
    }
  }

  lemma {:induction false} SumsConcat(a: seq<Usage>, b: seq<Usage>)
    ensures Prompts(a + b) == Prompts(a) + Prompts(b) && Reads(a + b) == Reads(a) + Reads(b)
  {
    if b == [] {
      assert a + b == a;
    } else {
      assert (a + b)[..|a + b| - 1] == a + b[..|b| - 1];
      SumsConcat(a, b[..|b| - 1]);
    }
  }

  /** What is listed for the period adds up to calls whose misses are among those of that day. */
  lemma {:induction false} ListedCalls(sessions: seq<Session>, logs: seq<Log>, period: string)
    returns (calls: seq<Usage>)
    requires AllListed(sessions, logs)
    requires forall i, k | 0 <= i < |logs| && logs[i].created == period && 0 <= k < |logs[i].calls| ::
               logs[i].calls[k].day == period
    ensures Accumulates(Listed(sessions, period), calls) && CallMisses(calls) <= MissesOn(logs, period)
    decreases |logs|
  {
    calls := [];
    if logs != [] {
      var n := |logs| - 1;
      calls := ListedCalls(sessions[..n], logs[..n], period);
      if logs[n].created == period && sessions[n].services.Some? {
        OneDayOnly(logs[n].calls, period);
        SumsConcat(Listed(sessions[..n], period), sessions[n].services.value);
        SumsConcat(calls, UsagesOf(logs[n].calls));
        CallMissesConcat(calls, UsagesOf(logs[n].calls));
        calls := calls + UsagesOf(logs[n].calls);
      } else {
        assert Listed(sessions[..n], period) + [] == Listed(sessions[..n], period);
      }
    }
  }

  lemma WithinNotReported(days: seq<Days>, period: string, logs: seq<Log>, sessions: seq<Session>, rows: seq<Row>)
    requires StaysWithin(days, period) && HasDays(logs, days) && AllListed(sessions, logs) && Full(rows, logs)
    ensures !Reported(rows, sessions, period)
  {
    forall i, k | 0 <= i < |logs| && logs[i].created == period && 0 <= k < |logs[i].calls|
      ensures logs[i].calls[k].day == period
    {
      assert DaysOf(logs[i]) == days[i];
      assert days[i].calls[k] == period;
    }
    var calls := ListedCalls(sessions, logs, period);
    NoFalseContradiction(rows, sessions, period, calls, calls);
  }

  // ----- a false alarm when a call does not -----

  function StrayCalls(days: seq<string>, k: int): seq<Call> {
    seq(|days|, b requires 0 <= b < |days| => Call(days[b], Usage(if b == k then 1 else 0, 0)))
  }

  function StrayLog(days: Days, k: int): Log { Log(days.created, StrayCalls(days.calls, k)) }

  function StrayUsage(days: Days, k: int): Usage { Usage(if 0 <= k < |days.calls| then 1 else 0, 0) }

  function StraySession(days: Days, k: int): Session { Session(days.created, Some([StrayUsage(days, k)])) }

  /** The counts that go wrong: one prompt token on call k of session i, and nothing else. */
  function Stray(days: seq<Days>, i: nat, k: nat): seq<Log> {
    seq(|days|, a requires 0 <= a < |days| => StrayLog(days[a], if a == i then k else -1))
  }

  function StrayListing(days: seq<Days>, i: nat, k: nat): seq<Session> {
    seq(|days|, a requires 0 <= a < |days| => StraySession(days[a], if a == i then k else -1))
  }

  lemma {:induction false} StrayCallsSum(days: seq<string>, k: int, day: string)
    ensures var calls := StrayCalls(days, k);
            && Prompts(UsagesOf(calls)) == (if 0 <= k < |days| then 1 else 0) && Reads(UsagesOf(calls)) == 0
            && CallMisses(OnDay(calls, day)) == if 0 <= k < |days| && days[k] == day then 1 else 0
    decreases |days|
  {
    if days != [] {
      var n := |days| - 1;
      StrayCallsSum(days[..n], k, day);
      assert StrayCalls(days, k)[..n] == StrayCalls(days[..n], k);
    }
  }

  lemma {:induction false} StrayMisses(days: seq<Days>, i: nat, k: nat, day: string)
    ensures MissesOn(Stray(days, i, k), day)
         == if i < |days| && k < |days[i].calls| && days[i].calls[k] == day then 1 else 0
    decreases |days|
  {
    if days != [] {
      var n := |days| - 1;
      StrayMisses(days[..n], i, k, day);
      assert Stray(days, i, k)[..n] == Stray(days[..n], i, k);
      StrayCallsSum(days[n].calls, if n == i then k else -1, day);
    }
  }

  lemma OneUsage(usage: Usage)
    ensures Prompts([usage]) == usage.prompt && Reads([usage]) == usage.read
  {
    assert [usage][..0] == [];
  }

  lemma ListedOne(before: seq<Session>, days: Days, k: int, period: string)
    ensures var listed, all := Listed(before, period), Listed(before + [StraySession(days, k)], period);
            && Reads(all) == Reads(listed)
            && Prompts(all) == Prompts(listed) + (if days.created == period then StrayUsage(days, k).prompt else 0)
            && |all| == |listed| + if days.created == period then 1 else 0
  {
    ListedSnoc(before, StraySession(days, k), period);
    if days.created == period {
      OneUsage(StrayUsage(days, k));
      SumsConcat(Listed(before, period), [StrayUsage(days, k)]);
    } else {
      assert Listed(before, period) + [] == Listed(before, period);
    }
  }

  lemma {:induction false} StrayListed(days: seq<Days>, i: nat, k: nat, period: string)
    ensures var listed := Listed(StrayListing(days, i, k), period);
            && Reads(listed) == 0
            && Prompts(listed) == (if i < |days| && k < |days[i].calls| && days[i].created == period then 1 else 0)
            && (i < |days| && days[i].created == period ==> listed != [])
    decreases |days|
  {
    if days != [] {
      var n := |days| - 1;
      StrayListed(days[..n], i, k, period);
      var before := StrayListing(days[..n], i, k);
      ListedOne(before, days[n], if n == i then k else -1, period);
      assert StrayListing(days, i, k) == before + [StraySession(days[n], if n == i then k else -1)];
    }
  }

  lemma StrayListsLog(days: Days, k: int)
    ensures DaysOf(StrayLog(days, k)) == days && Lists(StraySession(days, k), StrayLog(days, k))
  {
    StrayCallsSum(days.calls, k, "");
    OneUsage(StrayUsage(days, k));
    assert DaysOf(StrayLog(days, k)).calls == days.calls;
  }

  lemma StrayIsListed(days: seq<Days>, i: nat, k: nat)
    ensures HasDays(Stray(days, i, k), days) && AllListed(StrayListing(days, i, k), Stray(days, i, k))
  {
    forall a | 0 <= a < |days|
      ensures DaysOf(Stray(days, i, k)[a]) == days[a]
      ensures Lists(StrayListing(days, i, k)[a], Stray(days, i, k)[a])
    {
      StrayListsLog(days[a], if a == i then k else -1);
    }
  }

  /** A bill of one request in the period and one missed token on another day. */
  function StrayBill(period: string, day: string): seq<Row> {
    [Row(period, "", "", REQUEST_COUNT, 1, false), Row(day, "", "", MISS, 1, true)]
  }

  lemma StrayBilled(period: string, day: string)
    ensures period in BilledPeriods(StrayBill(period, day))
    ensures forall d :: BilledMiss(StrayBill(period, day), d) == if d == day then 1 else 0
  {
    var rows := StrayBill(period, day);
    assert KeyOf(rows[0]) in BilledKeys(rows);
    assert rows[..1] == [rows[0]] && [rows[0]][..0] == [];
    assert MissOf(rows[0]) == 0 && MissOf(rows[1]) == 1 by {
      assert MISS[0] != REQUEST_COUNT[0] && MISS[0] != "requests"[0];
    }
    forall d
      ensures BilledMiss(rows, d) == if d == day then 1 else 0
    {
      assert BilledMiss([rows[0]], d) == 0;
    }
  }

  lemma StrayReported(days: seq<Days>, period: string, i: nat, k: nat)
    requires i < |days| && days[i].created == period && k < |days[i].calls| && days[i].calls[k] != period
    ensures Full(StrayBill(period, days[i].calls[k]), Stray(days, i, k))
    ensures Reported(StrayBill(period, days[i].calls[k]), StrayListing(days, i, k), period)
  {
    var day := days[i].calls[k];
    StrayBilled(period, day);
    StrayListed(days, i, k, period);
    forall d
      ensures MissesOn(Stray(days, i, k), d) <= BilledMiss(StrayBill(period, day), d)
    {
      StrayMisses(days, i, k, d);
    }
  }

  /** With these days no report on the period can be a false alarm: whatever the calls count, a full
      bill is not contradicted. */
  ghost predicate NeverFalse(days: seq<Days>, period: string) {
    forall logs, sessions, rows | HasDays(logs, days) && AllListed(sessions, logs) && Full(rows, logs) ::
      !Reported(rows, sessions, period)
  }

  /** A reported contradiction is real, for all counts and all full bills, if and only if every call
      of every session created in the period was made in it. */
  lemma ContradictionIsReal(days: seq<Days>, period: string)
    ensures NeverFalse(days, period) <==> StaysWithin(days, period)
  {
    if StaysWithin(days, period) {
      forall logs, sessions, rows | HasDays(logs, days) && AllListed(sessions, logs) && Full(rows, logs)
        ensures !Reported(rows, sessions, period)
      {
        WithinNotReported(days, period, logs, sessions, rows);
      }
    } else {
      var i: nat, k: nat :|
        i < |days| && days[i].created == period && k < |days[i].calls| && days[i].calls[k] != period;
      StrayIsListed(days, i, k);
      StrayReported(days, period, i, k);
    }
  }
}
