/** `BalanceService`: reads the account balance from the balance link of the
    portal page and keeps a history of the balances read, capped at the
    latest 1000 entries, from which statistics are drawn. The page, the
    clock and the history file are inputs; the file is a field of
    `BalanceHistory` that its methods reassign. */
module BalanceService {
  import opened Wrappers
  import opened JsText
  import opened Seqs

  /** The history keeps at most this many entries. */
  const MaxHistory: nat := 1000
  /** `getBalanceHistory`'s default limit. */
  const DefaultHistoryLimit: int := 100
  /** The limit `getBalanceStatistics` reads the history with. */
  const StatisticsLimit: int := 1000
  const NoHistoryMessage: string := "No balance history available"
  const MsPerHour: int := 3600000

  /** The first `span.good, span.bad` inside the balance link: whether it has
      the class `good`, and its text. */
  datatype AmountSpan = AmountSpan(good: bool, text: string)

  /** The `a.balance` link of the portal page: its amount span, if any, and
      its whole text. */
  datatype BalanceLink = BalanceLink(amountSpan: Option<AmountSpan>, text: string)

  /** The balance `getCurrentBalance` returns; the timestamp is in
      milliseconds. */
  datatype BalanceInfo = BalanceInfo(
    amount: int,
    currency: string,
    rawAmount: string,
    isPositive: bool,
    timestamp: int,
    url: string)

  /** Why no balance could be read: the link, the span or its text is
      missing, or the amount text holds no number. */
  datatype BalanceError = NotFound | NotNumeric(rawAmount: string)

  /** One entry of the history: the balance and the millisecond clock value
      it was saved at, which serves as its id. */
  datatype HistoryEntry = HistoryEntry(info: BalanceInfo, id: int)

  /** The history file: missing, unreadable (not JSON), or a list. */
  datatype HistoryFile = Missing | Unreadable | Entries(entries: seq<HistoryEntry>)

  /** The history as it is read back: a file that is missing or unreadable
      reads as the empty history. */
  function Stored(f: HistoryFile): seq<HistoryEntry> {
    if f.Entries? then f.entries else []
  }

  /** `p` occurs in `s` at index `j`. */
  predicate OccursAt(s: string, p: string, j: nat) {
    j + |p| <= |s| && s[j..j + |p|] == p
  }

  /** `s.indexOf(p, k)`: the first index from `k` on where `p` occurs. */
  function IndexOf(s: string, p: string, k: nat): (r: Option<nat>)
    ensures r.Some? ==> k <= r.value && OccursAt(s, p, r.value)
    ensures r.Some? ==> forall j :: k <= j < r.value ==> !OccursAt(s, p, j)
    ensures r.None? ==> forall j :: k <= j ==> !OccursAt(s, p, j)
    decreases |s| - k
  {
    if k + |p| > |s| then None
    else if OccursAt(s, p, k) then Some(k)
    else IndexOf(s, p, k + 1)
  }

  /** `s.replace(p, r)` with a string pattern: only the first occurrence of
      `p` is replaced. */
  function ReplaceFirst(s: string, p: string, r: string): (t: string)
    ensures (forall j :: !OccursAt(s, p, j)) ==> t == s
    ensures OccursAt(s, p, 0) ==> t == r + s[|p|..]
  {
    match IndexOf(s, p, 0)
    case Some(i) => s[..i] + r + s[i + |p|..]
    case None => s
  }

  /** When `p` first occurs at `i`, that occurrence, and nothing else, is
      replaced. */
  lemma ReplaceFirstAt(s: string, p: string, r: string, i: nat)
    requires OccursAt(s, p, i)
    requires forall j :: 0 <= j < i ==> !OccursAt(s, p, j)
    ensures ReplaceFirst(s, p, r) == s[..i] + r + s[i + |p|..]
  {
    var f := IndexOf(s, p, 0);
    assert f.Some? && f.value == i;
  }

  /** The amount text of the link, `amountSpan.textContent.trim()`, when
      the span is there. */
  function RawAmount(link: BalanceLink): Option<string> {
    match link.amountSpan
    case Some(span) => Some(Trim(span.text))
    case None => None
  }

  /** The pure part of `getCurrentBalance`: the link's amount text without
      its commas is read as a number and negated when the span has the
      class `bad`; the currency is the rest of the link's text. */
  function GetCurrentBalance(link: Option<BalanceLink>, now: int, url: string): (r: Result<BalanceInfo, BalanceError>)
    ensures r.Err? && r.error == NotFound <==>
      link.None? || RawAmount(link.value).None? || RawAmount(link.value).value == []
    ensures r.Ok? ==>
      var span := link.value.amountSpan.value;
      var raw := Trim(span.text);
      var n := ParseInt(StripCommas(raw));
      && n.Some?
      && r.value.rawAmount == raw && raw != []
      && r.value.isPositive == span.good
      && r.value.amount == (if span.good then n.value else -n.value)
      && r.value.currency == Trim(ReplaceFirst(link.value.text, raw, ""))
      && r.value.timestamp == now && r.value.url == url
    ensures r.Err? && r.error.NotNumeric? ==> ParseInt(StripCommas(r.error.rawAmount)).None?
    ensures link.Some? && RawAmount(link.value).Some? && RawAmount(link.value).value != [] ==>
      var raw := RawAmount(link.value).value;
      && r == ReadAmount(raw, link.value.amountSpan.value.good, link.value.text, now, url)
      && (r.Ok? <==> ParseInt(StripCommas(raw)).Some?)
      && (r.Err? ==> r.error == NotNumeric(raw))
  {
    if link.None? then Err(NotFound)
    else
      match link.value.amountSpan
      case None => Err(NotFound)
      case Some(span) =>
        var raw := Trim(span.text);
        if raw == [] then Err(NotFound)
        else ReadAmount(raw, span.good, link.value.text, now, url)
  }

  /** The amount text `raw` of a link whose text is `text`, read as a
      number; the currency is what is left of the link's text. */
  function ReadAmount(raw: string, good: bool, text: string, now: int, url: string): (r: Result<BalanceInfo, BalanceError>)
    ensures var n := ParseInt(StripCommas(raw));
      if n.None? then r == Err(NotNumeric(raw))
      else
        && r.Ok? && r.value.rawAmount == raw && r.value.isPositive == good
        && r.value.amount == (if good then n.value else -n.value)
        && r.value.currency == Trim(ReplaceFirst(text, raw, ""))
        && r.value.timestamp == now && r.value.url == url
  {
    var n := ParseInt(StripCommas(raw));
    if n.None? then Err(NotNumeric(raw))
    else Ok(BalanceInfo(if good then n.value else -n.value, Trim(ReplaceFirst(text, raw, "")), raw, good, now, url))
  }

  /** A text of digits and comma separators with a leading digit trims to
      itself. */
  lemma GroupedDigitsTrim(ds: string)
    requires ds != [] && IsDigit(ds[0])
    requires forall i :: 0 <= i < |ds| ==> IsDigitOrComma(ds[i])
    ensures Trim(ds) == ds
  {
    assert !IsSpace(ds[0]);
    assert TrimStart(ds) == ds;
    assert !IsSpace(ds[|ds| - 1]);
    assert TrimEnd(ds) == ds;
  }

  /** An amount written with comma separators, such as `1,250,000`, is read
      as the number its digits spell, negative in a `bad` span. */
  lemma GroupedAmount(link: BalanceLink, good: bool, ds: string, now: int, url: string)
    requires link.amountSpan == Some(AmountSpan(good, ds))
    requires ds != [] && IsDigit(ds[0])
    requires forall i :: 0 <= i < |ds| ==> IsDigitOrComma(ds[i])
    ensures var r := GetCurrentBalance(Some(link), now, url);
      var v := DigitsValue(StripCommas(ds)) as int;
      r.Ok? && r.value.amount == (if good then v else -v)
      && r.value.isPositive == good && r.value.rawAmount == ds
  {
    GroupedDigitsTrim(ds);
    var t := StripCommas(ds);
    assert ds[0] in t;
    assert forall i :: 0 <= i < |t| ==> IsDigit(t[i]);
    ParseIntDigits(t);
    assert RawAmount(link) == Some(ds);
  }

  /** `history.slice(begin)`: a negative `begin` counts from the end. */
  function SliceFrom<T>(s: seq<T>, begin: int): (r: seq<T>)
    ensures |r| <= |s| && r == s[|s| - |r|..]
    ensures begin >= 0 ==> |r| == if begin < |s| then |s| - begin else 0
    ensures begin < 0 ==> |r| == if -begin < |s| then -begin else |s|
  {
    if begin < 0 then (if |s| + begin < 0 then s else s[|s| + begin..])
    else if begin < |s| then s[begin..]
    else []
  }

  /** `getBalanceHistory(limit)` as written: `history.slice(-limit)`. */
  function HistorySliceAsWritten(h: seq<HistoryEntry>, limit: int): (r: seq<HistoryEntry>)
    ensures |r| <= |h| && r == h[|h| - |r|..]
    ensures limit > 0 ==> |r| == if limit < |h| then limit else |h|
  {
    SliceFrom(h, -limit)
  }

  /** As written, a limit of 0 returns the whole history: `slice(-0)` is
      `slice(0)`. */
  lemma ZeroLimitReturnsAll(h: seq<HistoryEntry>)
    ensures HistorySliceAsWritten(h, 0) == h
  {
  }

  /** As written, a negative limit drops entries from the front instead of
      returning none. */
  lemma NegativeLimitDropsOldest(h: seq<HistoryEntry>, limit: int)
    requires limit < 0 && -limit < |h|
    ensures HistorySliceAsWritten(h, limit) == h[-limit..]
    ensures |HistorySliceAsWritten(h, limit)| > 0
  {
  }

  /** The latest entries, at most `limit` of them: what `getBalanceHistory`
      promises for its limit. */
  function LatestEntries(h: seq<HistoryEntry>, limit: int): (r: seq<HistoryEntry>)
    ensures |r| <= |h| && r == h[|h| - |r|..]
    ensures |r| == if limit <= 0 then 0 else if limit < |h| then limit else |h|
  {
    if limit <= 0 then [] else Last(h, limit)
  }

  /** The corrected reading agrees with the source for every positive limit,
      so the default limit and the statistics are unaffected. */
  lemma LatestEntriesAgree(h: seq<HistoryEntry>, limit: int)
    requires limit > 0
    ensures LatestEntries(h, limit) == HistorySliceAsWritten(h, limit)
  {
    var a := LatestEntries(h, limit);
    var b := HistorySliceAsWritten(h, limit);
    assert |a| == |b|;
  }

  /** Appending to a capped history and capping again keeps the new entry
      last, behind the latest `MaxHistory - 1` of the old entries. */
  lemma CappedAppend(h: seq<HistoryEntry>, e: HistoryEntry)
    ensures var r := Last(h + [e], MaxHistory);
      1 <= |r| <= MaxHistory && r[|r| - 1] == e
      && r[..|r| - 1] == Last(h, MaxHistory - 1)
  {
    var r := Last(h + [e], MaxHistory);
    var o := Last(h, MaxHistory - 1);
    assert |r| == |o| + 1;
    assert r[..|r| - 1] == o;
  }

  /** The amounts of a history, oldest first. */
  function Amounts(h: seq<HistoryEntry>): (xs: seq<int>)
    ensures |xs| == |h|
    ensures forall i :: 0 <= i < |h| ==> xs[i] == h[i].info.amount
  {
    seq(|h|, i requires 0 <= i < |h| => h[i].info.amount)
  }

  /** `Math.max(...xs)` */
  function MaxOf(xs: seq<int>): (m: int)
    requires xs != []
    ensures m in xs
    ensures forall x :: x in xs ==> x <= m
  {
    if |xs| == 1 then xs[0]
    else
      var t := MaxOf(xs[1..]);
      assert forall x :: x in xs ==> x == xs[0] || x in xs[1..];
      if xs[0] > t then xs[0] else t
  }

  /** `Math.min(...xs)` */
  function MinOf(xs: seq<int>): (m: int)
    requires xs != []
    ensures m in xs
    ensures forall x :: x in xs ==> m <= x
  {
    if |xs| == 1 then xs[0]
    else
      var t := MinOf(xs[1..]);
      assert forall x :: x in xs ==> x == xs[0] || x in xs[1..];
      if xs[0] < t then xs[0] else t
  }

  /** `xs.reduce((sum, x) => sum + x, 0)` */
  function Sum(xs: seq<int>): int {
    if xs == [] then 0 else xs[0] + Sum(xs[1..])
  }

  /** Every value lies between the least and the greatest, so their sum lies
      between `|xs|` times each. */
  lemma {:induction false} SumBounds(xs: seq<int>, lo: int, hi: int)
    requires forall x :: x in xs ==> lo <= x <= hi
    ensures |xs| * lo <= Sum(xs) <= |xs| * hi
  {
    if xs != [] {
      var t := xs[1..];
      assert forall x :: x in t ==> x in xs;
      SumBounds(t, lo, hi);
      assert xs[0] in xs;
      AddBounds(|t|, lo, hi, Sum(t), xs[0]);
    }
  }

  /** One more value between `lo` and `hi` keeps a sum of `n` such values
      between `n * lo` and `n * hi`. */
  lemma AddBounds(n: int, lo: int, hi: int, total: int, x: int)
    requires n * lo <= total <= n * hi && lo <= x <= hi
    ensures (n + 1) * lo <= total + x <= (n + 1) * hi
  {
    assert (n + 1) * lo == n * lo + lo;
    assert (n + 1) * hi == n * hi + hi;
  }

  /** A quotient of a total bounded by `n * lo` and `n * hi` is bounded by
      `lo` and `hi`. */
  lemma MeanBounds(total: int, n: int, lo: int, hi: int)
    requires n > 0 && n * lo <= total <= n * hi
    ensures lo as real <= total as real / n as real <= hi as real
  {
    var q := total as real / n as real;
    assert q * n as real == total as real;
    assert (n * lo) as real == n as real * lo as real;
    assert (n * hi) as real == n as real * hi as real;
  }

  /** What `getBalanceStatistics` returns. Timestamps are milliseconds. */
  datatype Statistics =
    | NoHistory(totalEntries: nat, message: string)
    | Stats(
        totalEntries: nat,
        latestBalance: int,
        latestCurrency: string,
        latestTimestamp: int,
        oldestBalance: int,
        oldestTimestamp: int,
        maxBalance: int,
        minBalance: int,
        averageBalance: real,
        balanceChange: int,
        balanceChangePercent: real,
        durationHours: real)

  /** `Math.abs` */
  function Abs(x: int): nat {
    if x < 0 then -x else x
  }

  /** The change relative to the oldest balance, in percent; 0 when the
      oldest balance is 0. */
  function ChangePercent(oldest: int, latest: int): (p: real)
    ensures oldest == 0 ==> p == 0.0
    ensures oldest != 0 ==> (p > 0.0 <==> latest > oldest) && (p < 0.0 <==> latest < oldest)
  {
    if oldest == 0 then 0.0
    else
      var q := (latest - oldest) as real / Abs(oldest) as real;
      assert q * Abs(oldest) as real == (latest - oldest) as real;
      q * 100.0
  }

  /** The statistics of a history. */
  function StatisticsOf(h: seq<HistoryEntry>): (s: Statistics)
    ensures s.NoHistory? <==> h == []
    ensures s.NoHistory? ==> s.totalEntries == 0 && s.message == NoHistoryMessage
    ensures s.Stats? ==>
      && s.totalEntries == |h|
      && s.latestBalance == h[|h| - 1].info.amount && s.latestCurrency == h[|h| - 1].info.currency
      && s.oldestBalance == h[0].info.amount
      && s.latestTimestamp == h[|h| - 1].info.timestamp && s.oldestTimestamp == h[0].info.timestamp
      && (forall e :: e in h ==> s.minBalance <= e.info.amount <= s.maxBalance)
      && (exists e :: e in h && e.info.amount == s.maxBalance)
      && (exists e :: e in h && e.info.amount == s.minBalance)
      && s.minBalance as real <= s.averageBalance <= s.maxBalance as real
      && s.balanceChange == s.latestBalance - s.oldestBalance
      && (s.balanceChangePercent > 0.0 ==> s.balanceChange > 0)
      && (s.balanceChangePercent < 0.0 ==> s.balanceChange < 0)
  {
    if h == [] then NoHistory(0, NoHistoryMessage)
    else
      var xs := Amounts(h);
      var latest := h[|h| - 1];
      var oldest := h[0];
      var hi := MaxOf(xs);
      var lo := MinOf(xs);
      assert forall e :: e in h ==> e.info.amount in xs by {
        forall e | e in h ensures e.info.amount in xs {
          var i :| 0 <= i < |h| && h[i] == e;
          assert xs[i] == e.info.amount;
        }
      }
      assert forall x :: x in xs ==> exists e :: e in h && e.info.amount == x by {
        forall x | x in xs ensures exists e :: e in h && e.info.amount == x {
          var i :| 0 <= i < |xs| && xs[i] == x;
          assert h[i] in h;
        }
      }
      SumBounds(xs, lo, hi);
      MeanBounds(Sum(xs), |xs|, lo, hi);
      Stats(
        |h|,
        latest.info.amount, latest.info.currency, latest.info.timestamp,
        oldest.info.amount, oldest.info.timestamp,
        hi, lo,
        Sum(xs) as real / |xs| as real,
        latest.info.amount - oldest.info.amount,
        ChangePercent(oldest.info.amount, latest.info.amount),
        (latest.info.timestamp - oldest.info.timestamp) as real / MsPerHour as real)
  }

  /** The balance history file and the operations on it. */
  class BalanceHistory {
    var file: HistoryFile

    constructor(existing: HistoryFile)
      ensures file == existing
    {
      file := existing;
    }

    /** The history as the file reads. */
    function History(): seq<HistoryEntry>
      reads this
    {
      Stored(file)
    }

    /** `saveBalanceHistory`: appends the balance with the clock value `now`
        as its id, keeps the latest `MaxHistory` entries and writes the file.
        An unreadable file is replaced. */
    method SaveBalanceHistory(info: BalanceInfo, now: int)
      returns (entriesTotal: nat, latestEntry: HistoryEntry)
      modifies this
      ensures latestEntry == HistoryEntry(info, now)
      ensures file == Entries(Last(old(History()) + [latestEntry], MaxHistory))
      ensures entriesTotal == |History()| && 1 <= entriesTotal <= MaxHistory
      ensures History()[entriesTotal - 1] == latestEntry
    {
      latestEntry := HistoryEntry(info, now);
      var history := History() + [latestEntry];
      if |history| > MaxHistory {
        history := history[|history| - MaxHistory..];
      }
      assert history == Last(History() + [latestEntry], MaxHistory);
      CappedAppend(History(), latestEntry);
      file := Entries(history);
      entriesTotal := |history|;
    }

    /** `getBalanceHistory(limit = 100)`: `history.slice(-limit)` as
        written, which for every positive limit is the latest entries, at
        most `limit` of them; nothing when the file is missing or
        unreadable. */
    method GetBalanceHistory(limit: Option<int>) returns (h: seq<HistoryEntry>)
      ensures h == HistorySliceAsWritten(History(), limit.GetOr(DefaultHistoryLimit))
      ensures limit.GetOr(DefaultHistoryLimit) > 0 ==> h == LatestEntries(History(), limit.GetOr(DefaultHistoryLimit))
      ensures limit.None? ==> h == Last(History(), 100)
      ensures |h| <= |History()|
    {
      var n := limit.GetOr(DefaultHistoryLimit);
      var all := History();
      var begin := -n;
      if begin < 0 {
        h := if |all| + begin < 0 then all else all[|all| + begin..];
      } else if begin < |all| {
        h := all[begin..];
      } else {
        h := [];
      }
      if n > 0 {
        LatestEntriesAgree(all, n);
      }
    }

    /** `getBalanceStatistics`: the statistics of the latest
        `StatisticsLimit` entries. */
    method GetBalanceStatistics() returns (s: Statistics)
      ensures s == StatisticsOf(LatestEntries(History(), StatisticsLimit))
      ensures s.NoHistory? <==> History() == []
    {
      var h := GetBalanceHistory(Some(StatisticsLimit));
      s := StatisticsOf(h);
    }
  }
}
