/** `DecisionLogger`: the append-only record of the bot's decisions, kept in
    one JSON file. The file is modelled as a field holding its parsed
    contents; a missing or unreadable file reads as an empty log. Record ids
    come from a counter, so every new id is fresh. */
module DecisionLog {
  import opened Wrappers
  import opened Seqs

  const MsPerHour: nat := 3600000
  /** `getRecentDecisions` looks back this many hours by default. */
  const DefaultRecentHours: nat := 24
  /** `getAnalytics` lists this many of the latest records. */
  const RecentCount: nat := 5

  /** One logged decision; `profitability` is `None` for `null`. */
  datatype Decision = Decision(
    id: nat,
    timestamp: int,
    category: string,
    decision: string,
    reasoning: string,
    data: string,
    outcome: Option<string>,
    profitability: Option<real>,
    updatedAt: Option<int>)

  /** The log file as `readLogFile` finds it. */
  datatype LogFile = Missing | Unreadable | Entries(records: seq<Decision>)

  /** `readLogFile`: the records, or `[]` when reading or parsing fails. */
  function Records(f: LogFile): seq<Decision> {
    if f.Entries? then f.records else []
  }

  function CategoryOf(d: Decision): string { d.category }

  /** The filter `new Date(log.timestamp) > cutoffTime`. */
  function StampedAfter(cutoff: int): Decision -> bool {
    (d: Decision) => d.timestamp > cutoff
  }

  /** The queries follow the log: appending a record extends the records
      of its category by exactly that record at the end, and leaves those of
      every other category as they were. */
  lemma {:induction false} CategoryAfterAppend(logs: seq<Decision>, d: Decision, category: string)
    ensures Filter(logs + [d], HasKey(CategoryOf, category)) ==
            Filter(logs, HasKey(CategoryOf, category)) + (if d.category == category then [d] else [])
  {
    var p := HasKey(CategoryOf, category);
    FilterAppend(logs, [d], p);
    FilterSingleton(d, p);
    assert p(d) == (CategoryOf(d) == category);
  }

  /** Likewise for the recency query: a new record is added at the end
      exactly when it passes the cutoff. */
  lemma {:induction false} RecentAfterAppend(logs: seq<Decision>, d: Decision, cutoff: int)
    ensures Filter(logs + [d], StampedAfter(cutoff)) ==
            Filter(logs, StampedAfter(cutoff)) + (if d.timestamp > cutoff then [d] else [])
  {
    FilterAppend(logs, [d], StampedAfter(cutoff));
    FilterSingleton(d, StampedAfter(cutoff));
  }

  /** The record `logDecision` appends: no outcome and no profitability yet. */
  function NewRecord(id: nat, now: int, category: string, decision: string, reasoning: string, data: string): Decision {
    Decision(id, now, category, decision, reasoning, data, None, None, None)
  }

  /** The largest id in `logs`, 0 for an empty log. */
  function MaxId(logs: seq<Decision>): (m: nat)
    ensures forall d :: d in logs ==> d.id <= m
    decreases |logs|
  {
    if logs == [] then 0
    else
      var m := MaxId(logs[..|logs| - 1]);
      assert logs == logs[..|logs| - 1] + [logs[|logs| - 1]];
      if logs[|logs| - 1].id > m then logs[|logs| - 1].id else m
  }

  /** The log after `updateDecisionOutcome`, or `None` when no record has
      the id and nothing is written. */
  function WithOutcome(logs: seq<Decision>, id: nat, outcome: string, profitability: Option<real>, now: int): (r: Option<seq<Decision>>)
    ensures r.None? <==> forall j :: 0 <= j < |logs| ==> logs[j].id != id
    ensures r.Some? ==> |r.value| == |logs| && forall j :: 0 <= j < |logs| ==> r.value[j].id == logs[j].id
  {
    match FindFirst(logs, (d: Decision) => d.id == id)
    case None => None
    case Some(i) =>
      Some(logs[i := logs[i].(outcome := Some(outcome), profitability := profitability, updatedAt := Some(now))])
  }

  /** Only the first record with the id changes, and only in its outcome,
      profitability and update time. */
  lemma WithOutcomeFirst(logs: seq<Decision>, id: nat, outcome: string, profitability: Option<real>, now: int, i: nat)
    requires i < |logs| && logs[i].id == id
    requires forall j :: 0 <= j < i ==> logs[j].id != id
    ensures var r := WithOutcome(logs, id, outcome, profitability, now);
      r.Some? && |r.value| == |logs|
      && r.value[i] == logs[i].(outcome := Some(outcome), profitability := profitability, updatedAt := Some(now))
      && forall j :: 0 <= j < |logs| && j != i ==> r.value[j] == logs[j]
  {
    var f := FindFirst(logs, (d: Decision) => d.id == id);
    assert f == Some(i);
  }

  /** A log with the same ids position by position keeps an id bound. */
  lemma IdsBelow(logs: seq<Decision>, r: seq<Decision>, bound: nat)
    requires |r| == |logs| && forall j :: 0 <= j < |logs| ==> r[j].id == logs[j].id
    requires forall d :: d in logs ==> d.id < bound
    ensures forall d :: d in r ==> d.id < bound
  {
    forall d | d in r ensures d.id < bound {
      var j :| 0 <= j < |r| && r[j] == d;
      assert logs[j] in logs;
    }
  }

  /** The number of records whose outcome is `o`. */
  function CountOutcome(logs: seq<Decision>, o: string): (n: nat)
    ensures n <= |logs|
    decreases |logs|
  {
    if logs == [] then 0
    else CountOutcome(logs[..|logs| - 1], o) + (if logs[|logs| - 1].outcome == Some(o) then 1 else 0)
  }

  /** Successes and failures are disjoint: together at most the total. */
  lemma {:induction false} OutcomesBounded(logs: seq<Decision>)
    ensures CountOutcome(logs, "success") + CountOutcome(logs, "failure") <= |logs|
    decreases |logs|
  {
    if logs != [] {
      OutcomesBounded(logs[..|logs| - 1]);
    }
  }

  /** The sum and the number of the profitabilities that are set. */
  function ProfitSum(logs: seq<Decision>): real
    decreases |logs|
  {
    if logs == [] then 0.0
    else
      var d := logs[|logs| - 1];
      ProfitSum(logs[..|logs| - 1]) + (if d.profitability.Some? then d.profitability.value else 0.0)
  }

  function ProfitCount(logs: seq<Decision>): (n: nat)
    ensures n <= |logs|
    decreases |logs|
  {
    if logs == [] then 0
    else ProfitCount(logs[..|logs| - 1]) + (if logs[|logs| - 1].profitability.Some? then 1 else 0)
  }

  /** `categoryCounts[c] = (categoryCounts[c] || 0) + 1` over the records. */
  function CategoryCounts(logs: seq<Decision>): (m: map<string, nat>)
    decreases |logs|
  {
    if logs == [] then map[]
    else
      var m := CategoryCounts(logs[..|logs| - 1]);
      var k := logs[|logs| - 1].category;
      m[k := (if k in m then m[k] else 0) + 1]
  }

  /** The counts are those of grouping by category: a key per category
      that occurs, holding the number of its records. */
  lemma {:induction false} CategoryCountsAreMembers(logs: seq<Decision>)
    ensures forall k :: k in CategoryCounts(logs) <==> k in Keys(logs, CategoryOf)
    ensures forall k :: k in CategoryCounts(logs) ==> CategoryCounts(logs)[k] == |Members(logs, CategoryOf, k)|
    decreases |logs|
  {
    if logs != [] {
      var p := logs[..|logs| - 1];
      var d := logs[|logs| - 1];
      assert logs == p + [d];
      CategoryCountsAreMembers(p);
      KeysSnoc(p, CategoryOf, d);
      forall k | k in CategoryCounts(logs)
        ensures CategoryCounts(logs)[k] == |Members(logs, CategoryOf, k)|
      {
        MembersSnoc(p, CategoryOf, d, k);
        if k == d.category && k !in CategoryCounts(p) {
          NoMembers(p, CategoryOf, k);
        }
      }
    }
  }

  /** The counts of a category order, added up. */
  function SumCounts(m: map<string, nat>, ks: seq<string>): nat
    requires forall k :: k in ks ==> k in m
  {
    if ks == [] then 0 else m[ks[0]] + SumCounts(m, ks[1..])
  }

  lemma {:induction false} SumCountsIsSumSizes(logs: seq<Decision>, ks: seq<string>)
    requires forall k :: k in ks ==> k in Keys(logs, CategoryOf)
    ensures forall k :: k in ks ==> k in CategoryCounts(logs)
    ensures SumCounts(CategoryCounts(logs), ks) == SumSizes(logs, CategoryOf, ks)
    decreases |ks|
  {
    CategoryCountsAreMembers(logs);
    if ks != [] {
      SumCountsIsSumSizes(logs, ks[1..]);
    }
  }

  /** The category counts add up to the number of records. */
  lemma CategoryCountsTotal(logs: seq<Decision>)
    ensures forall k :: k in Keys(logs, CategoryOf) ==> k in CategoryCounts(logs)
    ensures SumCounts(CategoryCounts(logs), Keys(logs, CategoryOf)) == |logs|
  {
    SumCountsIsSumSizes(logs, Keys(logs, CategoryOf));
    SumOverKeys(logs, CategoryOf);
  }

  /** The result of `getDecisionAnalytics`. */
  datatype Analytics = Analytics(
    totalDecisions: nat,
    categoryCounts: map<string, nat>,
    successfulDecisions: nat,
    failedDecisions: nat,
    avgProfitability: real)

  /** What `getDecisionAnalytics` computes for `logs`. */
  function AnalyticsOf(logs: seq<Decision>): Analytics {
    var n := ProfitCount(logs);
    Analytics(|logs|, CategoryCounts(logs), CountOutcome(logs, "success"), CountOutcome(logs, "failure"),
              if n > 0 then ProfitSum(logs) / (n as real) else 0.0)
  }

  /** The analytics invariants: the total is the length, the category counts
      cover exactly the categories that occur and add up to the total, and
      successes plus failures never exceed it. */
  lemma AnalyticsConsistent(logs: seq<Decision>)
    ensures var a := AnalyticsOf(logs);
      a.totalDecisions == |logs|
      && (forall k :: k in a.categoryCounts <==> exists d :: d in logs && d.category == k)
      && SumCounts(a.categoryCounts, Keys(logs, CategoryOf)) == a.totalDecisions
      && a.successfulDecisions + a.failedDecisions <= a.totalDecisions
  {
    var m := CategoryCounts(logs);
    assert AnalyticsOf(logs).categoryCounts == m;
    CategoryCountsAreMembers(logs);
    forall k ensures k in m <==> exists d :: d in logs && d.category == k {
      assert k in Keys(logs, CategoryOf) <==> exists d :: d in logs && CategoryOf(d) == k;
    }
    CategoryCountsTotal(logs);
    OutcomesBounded(logs);
  }

  /** The result of `getAnalytics`. */
  datatype Summary = Summary(
    totalDecisions: nat,
    successRate: real,
    categories: seq<string>,
    recentDecisions: seq<Decision>)

  /** `getAnalytics` on `logs`. */
  function SummaryOf(logs: seq<Decision>): (s: Summary)
    ensures s.totalDecisions == |logs|
    ensures logs == [] ==> s.successRate == 0.0
    ensures 0.0 <= s.successRate <= 1.0
    ensures forall c :: c in s.categories <==> exists d :: d in logs && d.category == c
    ensures forall i, j :: 0 <= i < j < |s.categories| ==> s.categories[i] != s.categories[j]
    ensures |s.recentDecisions| == (if |logs| < RecentCount then |logs| else RecentCount)
    ensures s.recentDecisions == logs[|logs| - |s.recentDecisions|..]
  {
    var n := |logs|;
    var wins := CountOutcome(logs, "success");
    Summary(n, if n > 0 then Fraction(wins, n) else 0.0,
            Keys(logs, CategoryOf), Last(logs, RecentCount))
  }

  /** `k / n` for a part `k` of a nonzero whole `n`. */
  function Fraction(k: nat, n: nat): (q: real)
    requires 0 < n && k <= n
    ensures 0.0 <= q <= 1.0
  {
    var q := (k as real) / (n as real);
    assert q * (n as real) == k as real;
    q
  }

  class DecisionLogger {
    var file: LogFile
    var nextId: nat

    /** Every stored id is below the next one handed out. */
    ghost predicate Valid()
      reads this
    {
      forall d :: d in Records(file) ==> d.id < nextId
    }

    /** The log as `readLogFile` returns it. */
    function Logs(): seq<Decision>
      reads this
    {
      Records(file)
    }

    /** `initializeLogFile`: a missing file is created empty. */
    constructor(existing: LogFile)
      ensures file == (if existing == Missing then Entries([]) else existing)
      ensures Valid()
    {
      file := if existing == Missing then Entries([]) else existing;
      nextId := MaxId(Records(if existing == Missing then Entries([]) else existing)) + 1;
    }

    /** `logDecision`: appends one record without outcome and returns its
        fresh id. A file that could not be read is replaced by the new
        record alone. */
    method LogDecision(category: string, decision: string, reasoning: string, data: string, now: int)
      returns (id: nat)
      requires Valid()
      modifies this
      ensures Valid()
      ensures file == Entries(old(Logs()) + [NewRecord(id, now, category, decision, reasoning, data)])
      ensures forall d :: d in old(Logs()) ==> d.id != id
    {
      id := nextId;
      nextId := nextId + 1;
      file := Entries(Logs() + [NewRecord(id, now, category, decision, reasoning, data)]);
    }

    /** `updateDecisionOutcome`: records the outcome on the first record
        with the id; an unknown id changes nothing. */
    method UpdateDecisionOutcome(id: nat, outcome: string, profitability: Option<real>, now: int)
      requires Valid()
      modifies this
      ensures Valid()
      ensures nextId == old(nextId)
      ensures var r := WithOutcome(old(Logs()), id, outcome, profitability, now);
        if r.None? then file == old(file) else file == Entries(r.value)
    {
      var r := WithOutcome(Logs(), id, outcome, profitability, now);
      if r.Some? {
        IdsBelow(Logs(), r.value, nextId);
        file := Entries(r.value);
      }
    }

    /** `getDecisionsByCategory`: the records of one category, in log
        order and with their multiplicity (a `Filter`; see `FilterAppend`,
        `FilterSingleton` and `FilterCount`). */
    function DecisionsByCategory(category: string): (r: seq<Decision>)
      reads this
      ensures r == Filter(Logs(), HasKey(CategoryOf, category))
      ensures forall d :: d in r <==> d in Logs() && d.category == category
    {
      MembersAreFiltered(Logs(), CategoryOf, category);
      Members(Logs(), CategoryOf, category)
    }

    /** `getRecentDecisions(hours = 24)`: the records stamped strictly after
        `hours` hours before `now`, in log order and with their
        multiplicity. */
    function RecentDecisions(hours: Option<int>, now: int): (r: seq<Decision>)
      reads this
      ensures r == Filter(Logs(), StampedAfter(now - hours.GetOr(DefaultRecentHours) * MsPerHour))
      ensures forall d :: d in r <==> d in Logs() && d.timestamp > now - hours.GetOr(DefaultRecentHours) * MsPerHour
    {
      var cutoff := now - hours.GetOr(DefaultRecentHours) * MsPerHour;
      Filter(Logs(), StampedAfter(cutoff))
    }

    /** `getDecisionAnalytics`: one pass over the log counting categories,
        outcomes and profitabilities. */
    method GetDecisionAnalytics() returns (a: Analytics)
      ensures a == AnalyticsOf(Logs())
    {
      var logs := Logs();
      var counts: map<string, nat> := map[];
      var successes: nat, failures: nat := 0, 0;
      var profitTotal: real, profitCount: nat := 0.0, 0;
      var i := 0;
      while i < |logs|
        invariant 0 <= i <= |logs|
        invariant counts == CategoryCounts(logs[..i])
        invariant successes == CountOutcome(logs[..i], "success")
        invariant failures == CountOutcome(logs[..i], "failure")
        invariant profitTotal == ProfitSum(logs[..i]) && profitCount == ProfitCount(logs[..i])
      {
        var d := logs[i];
        assert logs[..i + 1] == logs[..i] + [d];
        assert (logs[..i] + [d])[..i] == logs[..i];
        counts := counts[d.category := (if d.category in counts then counts[d.category] else 0) + 1];
        if d.outcome == Some("success") {
          successes := successes + 1;
        } else if d.outcome == Some("failure") {
          failures := failures + 1;
        }
        if d.profitability.Some? {
          profitTotal := profitTotal + d.profitability.value;
          profitCount := profitCount + 1;
        }
        i := i + 1;
      }
      assert logs[..|logs|] == logs;
      a := Analytics(|logs|, counts, successes, failures,
                     if profitCount > 0 then profitTotal / (profitCount as real) else 0.0);
    }

    /** `getAnalytics` */
    function GetAnalytics(): (s: Summary)
      reads this
      ensures s.totalDecisions == |Logs()|
      ensures s.recentDecisions == Last(Logs(), RecentCount)
      ensures s == SummaryOf(Logs())
    {
      SummaryOf(Logs())
    }
  }
}
