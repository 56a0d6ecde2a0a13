/** tools/reconcile_usage.py: the daemon's recorded cache misses against a billing export,
    and when a reported contradiction cannot be a false alarm. */
module Reconcile {
  import opened Wrappers
  import opened Grouping

  const MISS := "input_cache_miss_tokens"
  const REQUEST_COUNT := "request_count"

  /** One row of an amount export; `period` is the day of its start time. */
  datatype Row = Row(period: string, apiKey: string, model: string, metric: string, amount: int, priced: bool)

  datatype BillKey = BillKey(period: string, apiKey: string, model: string)

  function KeyOf(row: Row): BillKey { BillKey(row.period, row.apiKey, row.model) }

  type Buckets = map<string, int>

  /** `totals[key][metric] += amount` on nested default dicts. */
  function Bump(buckets: Buckets, metric: string, amount: int): Buckets {
    buckets[metric := AmountIn(buckets, metric) + amount]
  }

  function AmountIn(buckets: Buckets, metric: string): int {
    if metric in buckets then buckets[metric] else 0
  }

  /** A row without a price leaves no trace, unless it counts requests. */
  predicate LeavesTrace(row: Row) { row.metric == REQUEST_COUNT || row.priced }

  /** The bucket a row is added to. */
  function BookedAs(row: Row): string { if row.metric == REQUEST_COUNT then "requests" else row.metric }

  /** What a row adds to a bucket of its key. */
  function AmountOf(row: Row, metric: string): int {
    if LeavesTrace(row) && BookedAs(row) == metric then row.amount else 0
  }

  /** Where a row goes: requests count whether priced or not, the misses and any other metric only if
      the row has a price. */
  lemma RowMeans(row: Row)
    ensures row.metric == "request_count" ==> LeavesTrace(row) && AmountOf(row, "requests") == row.amount
    ensures row.metric != "request_count" ==>
              (LeavesTrace(row) <==> row.priced) && (row.priced ==> AmountOf(row, row.metric) == row.amount)
    ensures MissOf(row) == if row.metric == "input_cache_miss_tokens" && row.priced then row.amount else 0
  {
    assert |"requests"| == 8 && |"request_count"| == 13 && |"input_cache_miss_tokens"| == 23;
  }

  function MissOf(row: Row): int { AmountOf(row, MISS) }

  /** The entries of an export for one bucket, keyed by (period, key, model). */
  function EntriesOf(rows: seq<Row>, metric: string): seq<(BillKey, int)> {
    seq(|rows|, i requires 0 <= i < |rows| => (KeyOf(rows[i]), AmountOf(rows[i], metric)))
  }

  function MissEntries(rows: seq<Row>): seq<(BillKey, int)> { EntriesOf(rows, MISS) }

  function BilledKeys(rows: seq<Row>): set<BillKey> {
    set i | 0 <= i < |rows| && LeavesTrace(rows[i]) :: KeyOf(rows[i])
  }

  /** A nested dict of totals, with its insertion order: every bucket of every key holds what the
      rows of that key book under it. */
  ghost predicate IsBill(totals: map<BillKey, Buckets>, order: seq<BillKey>, rows: seq<Row>) {
    && Distinct(order)
    && (forall key :: key in totals <==> key in order)
    && totals.Keys == BilledKeys(rows)
    && (forall key, metric | key in totals :: AmountIn(totals[key], metric) == SumFor(EntriesOf(rows, metric), key))
  }

  lemma EntriesSnoc(rows: seq<Row>, row: Row, metric: string)
    ensures EntriesOf(rows + [row], metric) == EntriesOf(rows, metric) + [(KeyOf(row), AmountOf(row, metric))]
    ensures forall key ::
              SumFor(EntriesOf(rows + [row], metric), key)
              == SumFor(EntriesOf(rows, metric), key) + (if KeyOf(row) == key then AmountOf(row, metric) else 0)
  {
    var entries := EntriesOf(rows + [row], metric);
    assert entries == EntriesOf(rows, metric) + [(KeyOf(row), AmountOf(row, metric))];
    assert entries[..|entries| - 1] == EntriesOf(rows, metric);
  }

  lemma KeysSnoc(rows: seq<Row>, row: Row)
    ensures BilledKeys(rows + [row]) == BilledKeys(rows) + if LeavesTrace(row) then {KeyOf(row)} else {}
  {
    var longer := rows + [row];
    assert forall i | 0 <= i < |rows| :: longer[i] == rows[i];
    assert longer[|rows|] == row;
  }

  lemma {:induction false} NoTraceNoAmount(rows: seq<Row>, metric: string, key: BillKey)
    requires key !in BilledKeys(rows)
    ensures SumFor(EntriesOf(rows, metric), key) == 0
  {
    if rows != [] {
      var n := |rows| - 1;
      assert rows == rows[..n] + [rows[n]];
      EntriesSnoc(rows[..n], rows[n], metric);
      KeysSnoc(rows[..n], rows[n]);
      NoTraceNoAmount(rows[..n], metric, key);
    }
  }

  function BucketsOf(totals: map<BillKey, Buckets>, key: BillKey): Buckets {
    if key in totals then totals[key] else map[]
  }

  /** What one row makes of the totals. */
  function WithRow(totals: map<BillKey, Buckets>, row: Row): map<BillKey, Buckets> {
    if LeavesTrace(row)
    then totals[KeyOf(row) := Bump(BucketsOf(totals, KeyOf(row)), BookedAs(row), row.amount)]
    else totals
  }

  lemma AmountWithRow(totals: map<BillKey, Buckets>, row: Row, key: BillKey, metric: string)
    ensures AmountIn(BucketsOf(WithRow(totals, row), key), metric)
         == AmountIn(BucketsOf(totals, key), metric) + if KeyOf(row) == key then AmountOf(row, metric) else 0
  {}

  lemma BilledAmount(totals: map<BillKey, Buckets>, order: seq<BillKey>, rows: seq<Row>, key: BillKey, metric: string)
    requires IsBill(totals, order, rows)
    ensures AmountIn(BucketsOf(totals, key), metric) == SumFor(EntriesOf(rows, metric), key)
  {
    if key !in totals {
      NoTraceNoAmount(rows, metric, key);
    }
  }

  /** One row of `_billed`. */
  method BillRow(totals: map<BillKey, Buckets>, order: seq<BillKey>, row: Row, ghost rows: seq<Row>)
    returns (totals': map<BillKey, Buckets>, order': seq<BillKey>)
    requires IsBill(totals, order, rows)
    ensures IsBill(totals', order', rows + [row])
  {
    totals', order' := WithRow(totals, row), order;
    if LeavesTrace(row) && KeyOf(row) !in totals {
      order' := order + [KeyOf(row)];
    }
    KeysSnoc(rows, row);
    forall key, metric | key in totals'
      ensures AmountIn(totals'[key], metric) == SumFor(EntriesOf(rows + [row], metric), key)
    {
      EntriesSnoc(rows, row, metric);
      AmountWithRow(totals, row, key, metric);
      BilledAmount(totals, order, rows, key, metric);
    }
  }

  /** `_billed`, the totals. */
  method Billed(rows: seq<Row>) returns (totals: map<BillKey, Buckets>, order: seq<BillKey>)
    ensures IsBill(totals, order, rows)
  {
    totals, order := map[], [];
    for i := 0 to |rows|
      invariant IsBill(totals, order, rows[..i])
    {
      totals, order := BillRow(totals, order, rows[i], rows[..i]);
      assert rows[..i] + [rows[i]] == rows[..i + 1];
    }
    assert rows[..|rows|] == rows;
  }

  // ----- misses per period -----

  /** The misses an export bills for one period. */
  function BilledMiss(rows: seq<Row>, period: string): int {
    if rows == [] then 0
    else BilledMiss(rows[..|rows| - 1], period)
         + if rows[|rows| - 1].period == period then MissOf(rows[|rows| - 1]) else 0
  }

  function OrderMiss(order: seq<BillKey>, entries: seq<(BillKey, int)>, period: string): int {
    if order == [] then 0
    else OrderMiss(order[..|order| - 1], entries, period)
         + if order[|order| - 1].period == period then SumFor(entries, order[|order| - 1]) else 0
  }

  lemma {:induction false} OrderMissSnoc(order: seq<BillKey>, entries: seq<(BillKey, int)>, last: (BillKey, int),
                                         period: string)
    requires Distinct(order)
    ensures OrderMiss(order, entries + [last], period) == OrderMiss(order, entries, period)
            + if last.0 in order && last.0.period == period then last.1 else 0
    decreases |order|
  {
    if order != [] {
      var rest, key := order[..|order| - 1], order[|order| - 1];
      OrderMissSnoc(rest, entries, last, period);
      var longer := entries + [last];
      assert longer[..|longer| - 1] == entries;
      assert key !in rest;
      assert last.0 in order <==> last.0 in rest || last.0 == key;
    }
  }

  lemma {:induction false} OrderMissNothing(order: seq<BillKey>, period: string)
    ensures OrderMiss(order, [], period) == 0
  {
    if order != [] {
      OrderMissNothing(order[..|order| - 1], period);
    }
  }

  /** Grouping the rows by key and adding the keys of a period loses no billed miss. */
  lemma {:induction false} GroupedMiss(order: seq<BillKey>, rows: seq<Row>, period: string)
    requires Distinct(order)
    requires forall key | key in BilledKeys(rows) :: key in order
    ensures OrderMiss(order, MissEntries(rows), period) == BilledMiss(rows, period)
    decreases |rows|
  {
    if rows == [] {
      assert MissEntries(rows) == [];
      OrderMissNothing(order, period);
    } else {
      var n := |rows| - 1;
      assert rows == rows[..n] + [rows[n]];
      GroupedMiss(order, rows[..n], period);
      EntriesSnoc(rows[..n], rows[n], MISS);
      KeysSnoc(rows[..n], rows[n]);
      OrderMissSnoc(order, MissEntries(rows[..n]), (KeyOf(rows[n]), MissOf(rows[n])), period);
    }
  }

  /** The `billed_miss` loop of `main`. */
  method BilledMisses(rows: seq<Row>) returns (billedMiss: map<string, int>)
    ensures forall period | period in billedMiss :: billedMiss[period] == BilledMiss(rows, period)
    ensures forall period | period !in billedMiss :: BilledMiss(rows, period) == 0
  {
    var totals, order := Billed(rows);
    ghost var entries := MissEntries(rows);
    billedMiss := map[];
    for i := 0 to |order|
      invariant forall period | period in billedMiss :: billedMiss[period] == OrderMiss(order[..i], entries, period)
      invariant forall period | period !in billedMiss :: OrderMiss(order[..i], entries, period) == 0
    {
      var key := order[i];
      assert order[..i + 1][..i] == order[..i];
      billedMiss := Bump(billedMiss, key.period, AmountIn(totals[key], MISS));
    }
    assert order[..|order|] == order;
    forall period
      ensures OrderMiss(order, entries, period) == BilledMiss(rows, period)
    {
      GroupedMiss(order, rows, period);
    }
  }

  // ----- the daemon's side -----

  /** A listed session: the day it was created and, unless the request failed, the
      accumulated prompt and cache-read counts of each of its services. */
  datatype Usage = Usage(prompt: int, read: int)
  datatype Session = Session(created: string, services: Option<seq<Usage>>)

  function ServicesOf(session: Session): seq<Usage> {
    if session.services.Some? then session.services.value else []
  }

  /** Everything the listing shows for sessions created in a period. */
  function Listed(sessions: seq<Session>, period: string): seq<Usage> {
    if sessions == [] then []
    else
      var last := sessions[|sessions| - 1];
      Listed(sessions[..|sessions| - 1], period) + if last.created == period then ServicesOf(last) else []
  }

  function Prompts(usages: seq<Usage>): int {
    if usages == [] then 0 else Prompts(usages[..|usages| - 1]) + usages[|usages| - 1].prompt
  }

  function Reads(usages: seq<Usage>): int {
    if usages == [] then 0 else Reads(usages[..|usages| - 1]) + usages[|usages| - 1].read
  }

  function DaemonMiss(sessions: seq<Session>, period: string): int {
    Clamp(Prompts(Listed(sessions, period)) - Reads(Listed(sessions, period)))
  }

  lemma ListedSnoc(before: seq<Session>, session: Session, period: string)
    ensures Listed(before + [session], period)
         == Listed(before, period) + if session.created == period then ServicesOf(session) else []
  {
    assert (before + [session])[..|before|] == before;
  }

  predicate DaemonEntry(out: map<string, Usage>, sessions: seq<Session>, periods: set<string>, period: string) {
    var listed := Listed(sessions, period);
    (period in out <==> period in periods && listed != []) &&
    (period in out ==> out[period] == Usage(Prompts(listed), Reads(listed)))
  }

  ghost predicate IsDaemon(out: map<string, Usage>, sessions: seq<Session>, periods: set<string>) {
    forall period :: DaemonEntry(out, sessions, periods, period)
  }

  method AddSession(out: map<string, Usage>, created: string, services: seq<Usage>, ghost before: seq<Usage>)
    returns (out': map<string, Usage>)
    requires created in out <==> before != []
    requires created in out ==> out[created] == Usage(Prompts(before), Reads(before))
    ensures forall other | other != created ::
              (other in out' <==> other in out) && (other in out ==> out'[other] == out[other])
    ensures created in out' <==> before + services != []
    ensures created in out' ==> out'[created] == Usage(Prompts(before + services), Reads(before + services))
  {
    out' := out;
    assert before + services[..0] == before;
    for i := 0 to |services|
      invariant forall other | other != created ::
        (other in out' <==> other in out) && (other in out ==> out'[other] == out[other])
      invariant created in out' <==> before + services[..i] != []
      invariant created in out' ==>
        out'[created] == Usage(Prompts(before + services[..i]), Reads(before + services[..i]))
    {
      var u := services[i];
      ghost var longer := before + services[..i + 1];
      assert longer[..|longer| - 1] == before + services[..i] && longer[|longer| - 1] == u;
      var old_ := if created in out' then out'[created] else Usage(0, 0);
      out' := out'[created := Usage(old_.prompt + u.prompt, old_.read + u.read)];
    }
    assert services[..|services|] == services;
  }

  /** `_daemon_totals`, before the misses are derived. */
  method DaemonTotals(sessions: seq<Session>, periods: set<string>) returns (out: map<string, Usage>)
    ensures IsDaemon(out, sessions, periods)
  {
    out := map[];
    for i := 0 to |sessions|
      invariant IsDaemon(out, sessions[..i], periods)
    {
      var session := sessions[i];
      ghost var before, out0 := sessions[..i], out;
      assert sessions[..i + 1] == before + [session];
      assert DaemonEntry(out, before, periods, session.created);
      if session.created in periods && session.services.Some? {
        out := AddSession(out, session.created, session.services.value, Listed(before, session.created));
      }
      forall period
        ensures DaemonEntry(out, before + [session], periods, period)
      {
        ListedSnoc(before, session, period);
        assert Listed(before, period) + [] == Listed(before, period);
        assert DaemonEntry(out0, before, periods, period);
      }
    }
    assert sessions[..|sessions|] == sessions;
  }

  function BilledPeriods(rows: seq<Row>): set<string> {
    set key | key in BilledKeys(rows) :: key.period
  }

  /** The bill has the period, and the daemon recorded more misses for it than were billed. */
  predicate Reported(rows: seq<Row>, sessions: seq<Session>, period: string) {
    && period in BilledPeriods(rows) && Listed(sessions, period) != []
    && DaemonMiss(sessions, period) > BilledMiss(rows, period)
  }

  /** `main`: the reported periods. */
  method Contradictions(rows: seq<Row>, sessions: seq<Session>) returns (contradictions: set<string>)
    ensures forall period :: period in contradictions <==> Reported(rows, sessions, period)
  {
    var totals, order := Billed(rows);
    var periods := set key | key in totals :: key.period;
    var billedMiss := BilledMisses(rows);
    var daemon := DaemonTotals(sessions, periods);
    contradictions := set period | period in daemon
      && Clamp(daemon[period].prompt - daemon[period].read) > (if period in billedMiss then billedMiss[period] else 0);
    assert periods == BilledPeriods(rows);
    forall period
      ensures period in contradictions <==> Reported(rows, sessions, period)
    {
      assert DaemonEntry(daemon, sessions, periods, period);
    }
  }

  // ----- no false alarm -----

  /** The misses of one call at the provider: what its prompt did not read from the cache. */
  function CallMisses(calls: seq<Usage>): nat {
    if calls == [] then 0
    else CallMisses(calls[..|calls| - 1]) + Clamp(calls[|calls| - 1].prompt - calls[|calls| - 1].read)
  }

  function Differences(calls: seq<Usage>): seq<int> {
    seq(|calls|, i requires 0 <= i < |calls| => calls[i].prompt - calls[i].read)
  }

  lemma {:induction false} DifferencesAddUp(calls: seq<Usage>)
    ensures SumInts(Differences(calls)) == Prompts(calls) - Reads(calls)
    ensures SumClamped(Differences(calls)) == CallMisses(calls)
  {
    if calls != [] {
      DifferencesAddUp(calls[..|calls| - 1]);
      assert Differences(calls)[..|calls| - 1] == Differences(calls[..|calls| - 1]);
    }
  }

  lemma {:induction false} CallMissesConcat(a: seq<Usage>, b: seq<Usage>)
    ensures CallMisses(a + b) == CallMisses(a) + CallMisses(b)
  {
    if b == [] {
      assert a + b == a;
    } else {
      assert (a + b)[..|a + b| - 1] == a + b[..|b| - 1];
      CallMissesConcat(a, b[..|b| - 1]);
    }
  }

  lemma TakeOutMisses(left: seq<Usage>, call: Usage, right: seq<Usage>)
    ensures CallMisses(left + [call] + right) == CallMisses(left + right) + Clamp(call.prompt - call.read)
    ensures multiset(left + [call] + right) == multiset(left + right) + multiset{call}
  {
    CallMissesConcat(left, right);
    CallMissesConcat(left + [call], right);
    CallMissesConcat(left, [call]);
    assert [call][..0] == [];
  }

  lemma TakeOut(calls: seq<Usage>, k: nat)
    requires k < |calls|
    ensures CallMisses(calls) == CallMisses(calls[..k] + calls[k + 1..]) + Clamp(calls[k].prompt - calls[k].read)
    ensures multiset(calls) == multiset(calls[..k] + calls[k + 1..]) + multiset{calls[k]}
  {
    TakeOutMisses(calls[..k], calls[k], calls[k + 1..]);
    Reassemble(calls, k);
  }

  lemma Reassemble(calls: seq<Usage>, k: nat)
    requires k < |calls|
    ensures calls[..k] + [calls[k]] + calls[k + 1..] == calls
  {}

  lemma CancelOne(a: multiset<Usage>, b: multiset<Usage>, call: Usage)
    requires a + multiset{call} <= b + multiset{call}
    ensures a <= b
  {
    forall x
      ensures a[x] <= b[x]
    {
      assert (a + multiset{call})[x] <= (b + multiset{call})[x];
    }
  }

  /** More calls, more misses: a sub-multiset of calls misses at most as much. */
  lemma {:induction false} SubmultisetMisses(some_: seq<Usage>, all: seq<Usage>)
    requires multiset(some_) <= multiset(all)
    ensures CallMisses(some_) <= CallMisses(all)
    decreases |some_|
  {
    if some_ != [] {
      var n := |some_| - 1;
      var call := some_[n];
      assert some_ == some_[..n] + [call];
      assert call in multiset(some_);
      var k :| 0 <= k < |all| && all[k] == call;
      TakeOut(all, k);
      var rest := all[..k] + all[k + 1..];
      assert multiset(some_) == multiset(some_[..n]) + multiset{call};
      CancelOne(multiset(some_[..n]), multiset(rest), call);
      SubmultisetMisses(some_[..n], rest);
    }
  }

  /** The daemon's accumulated counts add up to the calls it made in a period. */
  predicate Accumulates(usages: seq<Usage>, calls: seq<Usage>) {
    Prompts(usages) == Prompts(calls) && Reads(usages) == Reads(calls)
  }

  /** No false alarm. Suppose the listed usage of a period is what some calls add up to, the
      key's billed calls of the same period include those calls, and the priced rows of
      the period bill at least the misses of the key's calls. Then the period is not
      reported: the clamped aggregate is at most the sum of the calls' own misses.
      Sessions the listing no longer reaches only make the daemon's side smaller. */
  lemma NoFalseContradiction(rows: seq<Row>, sessions: seq<Session>, period: string,
                             daemonCalls: seq<Usage>, keyCalls: seq<Usage>)
    requires Accumulates(Listed(sessions, period), daemonCalls)
    requires multiset(daemonCalls) <= multiset(keyCalls)
    requires CallMisses(keyCalls) <= BilledMiss(rows, period)
    ensures DaemonMiss(sessions, period) <= BilledMiss(rows, period)
  {
    DifferencesAddUp(daemonCalls);
    ClampOfSum(Differences(daemonCalls));
    SubmultisetMisses(daemonCalls, keyCalls);
  }

  /** The bound is as good as the export allows: when every call's prompt covers its reads
      and the daemon's calls are all the key billed, the two sides are equal. */
  lemma ReconcilesExactly(rows: seq<Row>, sessions: seq<Session>, period: string, calls: seq<Usage>)
    requires Accumulates(Listed(sessions, period), calls) && CallMisses(calls) == BilledMiss(rows, period)
    requires forall i | 0 <= i < |calls| :: calls[i].prompt >= calls[i].read
    ensures DaemonMiss(sessions, period) == BilledMiss(rows, period)
  {
    DifferencesAddUp(calls);
    assert forall i | 0 <= i < |calls| :: Differences(calls)[i] >= 0;
    ClampOfSum(Differences(calls));
  }

  /** The same-period hypothesis is needed. A session is booked on the day it was created, a call on
      its own day: with calls on two days the first day is reported although every call was billed. */
  lemma MidnightFalseAlarm(first: string, next: string, apiKey: string, model: string, early: nat, late: nat)
    returns (rows: seq<Row>, sessions: seq<Session>, calls: seq<Usage>)
    requires first != next && late > 0
    ensures Accumulates(Listed(sessions, first), calls)
    ensures CallMisses(calls) == BilledMiss(rows, first) + BilledMiss(rows, next)
    ensures Reported(rows, sessions, first)
  {
    var a := Row(first, apiKey, model, MISS, early, true);
    var b := Row(next, apiKey, model, MISS, late, true);
    rows := [a, b];
    calls := [Usage(early, 0), Usage(late, 0)];
    var usage := Usage(early + late, 0);
    sessions := [Session(first, Some([usage]))];
    assert rows[..1] == [a] && [a][..0] == [];
    assert calls[..1] == [Usage(early, 0)] && [Usage(early, 0)][..0] == [];
    assert sessions[..0] == [] && [usage][..0] == [];
    assert MissOf(a) == early && MissOf(b) == late by {
      assert MISS[0] != REQUEST_COUNT[0];
    }
    assert BilledMiss([a], first) == early && BilledMiss([a], next) == 0;
    assert Listed(sessions, first) == [usage];
    assert Prompts([usage]) == early + late && Reads([usage]) == 0;
    assert Prompts([Usage(early, 0)]) == early && CallMisses([Usage(early, 0)]) == early;
    assert KeyOf(rows[0]) in BilledKeys(rows);
  }
}
