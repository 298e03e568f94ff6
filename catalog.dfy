/** The aircraft catalog of `AircraftDataService`: leasing figures derived
    from the purchase price, the filter that turns table rows into catalog
    entries, the time-to-live rule of the two cache files, the cache-or-fetch
    rule, the merged catalog and the grouping of aircraft by family. */
module Catalog {
  import opened Wrappers
  import opened JsText
  import opened Seqs
  import opened ReplyScan

  /** One catalog entry, as pushed by the row scan. */
  datatype Aircraft = Aircraft(
    model: string,
    family: string,
    passengers: int,
    cargo: string,
    range: string,
    speed: string,
    priceText: string,
    purchasePrice: int,
    securityDeposit: int,
    weeklyRate: int,
    initialCost: int,
    onAuction: int)

  /** A link found on the manufacturers page. */
  datatype Family = Family(name: string, id: string, url: string)

  function FamilyOf(a: Aircraft): string { a.family }
  function InitialCost(a: Aircraft): int { a.initialCost }
  function DepositOf(a: Aircraft): int { a.securityDeposit }
  function PassengersOf(a: Aircraft): int { a.passengers }

  // ---------------------------------------------------------------------
  // Leasing figures

  /** `Math.floor(purchasePrice / 20)`: one twentieth of the price. */
  function SecurityDeposit(price: int): (d: int)
    requires price > 0
    ensures 0 <= d && 20 * d <= price < 20 * (d + 1)
  {
    price / 20
  }

  /** `Math.floor(purchasePrice / 200)`: one two-hundredth of the price. */
  function WeeklyRate(price: int): (w: int)
    requires price > 0
    ensures 0 <= w && 200 * w <= price < 200 * (w + 1)
  {
    price / 200
  }

  /** The weekly rate never exceeds a tenth of the deposit. */
  lemma WeeklyRateAtMostDeposit(price: int)
    requires price > 0
    ensures 10 * WeeklyRate(price) <= SecurityDeposit(price)
    ensures WeeklyRate(price) <= SecurityDeposit(price)
  {
  }

  // ---------------------------------------------------------------------
  // Row filter

  /** A table row: the text of the link in the first cell, when there is a
      link, and the text of every cell. */
  datatype Row = Row(modelLink: Option<string>, cells: seq<string>)

  /** The greedy `[\d,]+` tried at position `j` alone: the maximal run of
      digits and commas starting there. */
  function RunAt(s: string, j: nat): (r: Option<string>)
    ensures r.Some? <==> j < |s| && IsDigitOrComma(s[j])
    ensures r.Some? ==>
      var e := RunEnd(s, j, IsDigitOrComma);
      r.value == s[j..e] && j < e && (e == |s| || !IsDigitOrComma(s[e]))
  {
    if j < |s| && IsDigitOrComma(s[j]) then Some(s[j..RunEnd(s, j, IsDigitOrComma)]) else None
  }

  /** `s.match(/[\d,]+/)`: the leftmost run of digits and commas, taken as
      long as it goes. */
  function DigitCommaRun(s: string): (r: Option<string>)
    ensures r.None? <==> forall i :: 0 <= i < |s| ==> !IsDigitOrComma(s[i])
    ensures forall i :: 0 <= i <= |s| && RunAt(s, i).Some? && (forall k :: 0 <= k < i ==> RunAt(s, k).None?) ==>
                        r == RunAt(s, i)
    ensures r.Some? ==> r.value != [] && forall k :: 0 <= k < |r.value| ==> IsDigitOrComma(r.value[k])
  {
    var m := (j: nat) => RunAt(s, j);
    assert forall k :: m(k) == RunAt(s, k);
    FirstMatchLeftmost(|s|, m);
    match FirstMatch(|s|, 0, m)
    case Some(p) => RunAt(s, p)
    case None =>
      assert forall i :: 0 <= i < |s| ==> !IsDigitOrComma(s[i]) by {
        forall i | 0 <= i < |s| ensures !IsDigitOrComma(s[i]) {
          assert m(i).None?;
        }
      }
      None
  }

  /** `priceMatch ? parseInt(priceMatch[0].replace(/,/g, '')) : 0`, where
      `None` is `NaN` (a run made of commas only): the digits of the first
      run, in order, read as one number. */
  function PurchasePrice(priceText: string): (r: Option<int>)
    ensures (forall i :: 0 <= i < |priceText| ==> !IsDigitOrComma(priceText[i])) ==> r == Some(0)
    ensures r.Some? ==> r.value >= 0
    ensures DigitCommaRun(priceText).Some? ==>
      var t := StripCommas(DigitCommaRun(priceText).value);
      (t == [] ==> r.None?) && (t != [] ==> r == Some(DigitsValue(t)))
  {
    match DigitCommaRun(priceText)
    case None => Some(0)
    case Some(run) =>
      var t := StripCommas(run);
      assert t != [] ==> ParseInt(t) == Some(DigitsValue(t)) by {
        if t != [] { ParseIntDigits(t); }
      }
      ParseInt(t)
  }

  /** Thousands separators are ignored: a run of digit groups joined by
      commas, between text without digits or commas, is priced as its
      digits alone. */
  lemma PurchasePriceGroups(lead: string, run: string, tail: string)
    requires forall k :: 0 <= k < |lead| ==> !IsDigitOrComma(lead[k])
    requires run != [] && IsDigit(run[0]) && forall k :: 0 <= k < |run| ==> IsDigitOrComma(run[k])
    requires tail == [] || !IsDigitOrComma(tail[0])
    ensures PurchasePrice(lead + run + tail) == Some(DigitsValue(StripCommas(run)))
  {
    LeftmostRun(lead, run, tail);
    assert StripCommas(run) != [] by {
      assert run == [run[0]] + run[1..];
      FilterAppend([run[0]], run[1..], NotComma);
      FilterSingleton(run[0], NotComma);
    }
  }

  /** The run after a prefix without digits or commas is the leftmost one. */
  lemma LeftmostRun(lead: string, run: string, tail: string)
    requires forall k :: 0 <= k < |lead| ==> !IsDigitOrComma(lead[k])
    requires run != [] && forall k :: 0 <= k < |run| ==> IsDigitOrComma(run[k])
    requires tail == [] || !IsDigitOrComma(tail[0])
    ensures DigitCommaRun(lead + run + tail) == Some(run)
  {
    var s := lead + run + tail;
    var i := |lead|;
    assert forall k :: 0 <= k < i ==> RunAt(s, k).None? by {
      forall k | 0 <= k < i ensures RunAt(s, k).None? {
        assert s[k] == lead[k];
      }
    }
    assert RunAt(s, i) == Some(run) by {
      assert s[i] == run[0];
      var e := RunEnd(s, i, IsDigitOrComma);
      assert forall k :: i <= k < i + |run| ==> s[k] == run[k - i];
      assert i + |run| == |s| || s[i + |run|] == tail[0];
      assert e == i + |run|;
      assert s[i..e] == run;
    }
  }

  /** The acceptance test of a row: a non-empty model, an availability text
      containing `yes` in any case, and a positive price. */
  predicate Accepted(model: string, available: string, price: Option<int>) {
    model != [] && Contains(LowerStr(available), "yes") && price.Some? && price.value > 0
  }

  /** The model name: the trimmed link text of the first cell, or `''`. */
  function ModelText(row: Row): string {
    match row.modelLink case Some(t) => Trim(t) case None => ""
  }

  /** The availability text: the ninth cell trimmed, or `''` without one. */
  function AvailableText(row: Row): string {
    if |row.cells| > 8 then Trim(row.cells[8]) else ""
  }

  /** The catalog entry for a positive price `p`: deposit and weekly rate
      are the floors of a twentieth and a two-hundredth of `p`, and the first
      payment is the deposit alone. */
  function Leased(model: string, family: string, cells: seq<string>, priceText: string, p: int): (a: Aircraft)
    requires p > 0 && |cells| >= 8
    ensures a.model == model && a.family == family && a.priceText == priceText && a.purchasePrice == p
    ensures 20 * a.securityDeposit <= p < 20 * (a.securityDeposit + 1)
    ensures 200 * a.weeklyRate <= p < 200 * (a.weeklyRate + 1)
    ensures a.initialCost == a.securityDeposit
    ensures 0 <= a.weeklyRate <= a.securityDeposit
  {
    WeeklyRateAtMostDeposit(p);
    var deposit := SecurityDeposit(p);
    var onAuction := if |cells| > 9 then Trim(cells[9]) else "0";
    Aircraft(model, family, ParseIntOrZero(Trim(cells[1])),
             Trim(cells[2]), Trim(cells[3]), Trim(cells[4]), priceText,
             p, deposit, WeeklyRate(p), deposit, ParseIntOrZero(onAuction))
  }

  /** The entry a row of family `familyName` yields: a row with at least
      eight cells that passes the acceptance test. */
  function ScanRow(row: Row, familyName: string): (r: Option<Aircraft>)
    ensures r.Some? <==> |row.cells| >= 8 && Accepted(ModelText(row), AvailableText(row), PurchasePrice(Trim(row.cells[7])))
    ensures r.Some? ==> r.value == Leased(ModelText(row), familyName, row.cells, Trim(row.cells[7]),
                                          PurchasePrice(Trim(row.cells[7])).value)
  {
    if |row.cells| < 8 then None
    else
      var priceText := Trim(row.cells[7]);
      var price := PurchasePrice(priceText);
      if Accepted(ModelText(row), AvailableText(row), price) then
        Some(Leased(ModelText(row), familyName, row.cells, priceText, price.value))
      else None
  }

  /** Every accepted row carries its family, a non-empty model and a
      positive price from which its leasing figures derive. */
  lemma ScanRowAccepted(row: Row, familyName: string)
    requires ScanRow(row, familyName).Some?
    ensures var a := ScanRow(row, familyName).value;
      a.family == familyName && a.model != [] && a.purchasePrice > 0
      && a.purchasePrice == PurchasePrice(a.priceText).value
      && 0 <= a.weeklyRate <= a.securityDeposit == a.initialCost
  {
  }

  /** The scan of one row of family `familyName`, as a function value. */
  function RowScanner(familyName: string): Row -> Option<Aircraft> {
    row => ScanRow(row, familyName)
  }

  /** The entries of one family page: the accepted rows, in table order. */
  function ScanRows(rows: seq<Row>, familyName: string): (r: seq<Aircraft>)
    ensures |r| <= |rows|
    ensures forall i :: 0 <= i < |r| ==> exists j :: 0 <= j < |rows| && ScanRow(rows[j], familyName) == Some(r[i])
    ensures forall j :: 0 <= j < |rows| && ScanRow(rows[j], familyName).Some? ==> ScanRow(rows[j], familyName).value in r
  {
    FilterMap(rows, RowScanner(familyName))
  }

  /** The scan distributes over the table: the entries of two blocks of
      rows are those of the first block followed by those of the second. */
  lemma ScanRowsAppend(a: seq<Row>, b: seq<Row>, familyName: string)
    ensures ScanRows(a + b, familyName) == ScanRows(a, familyName) + ScanRows(b, familyName)
  {
    FilterMapAppend(a, b, RowScanner(familyName));
  }

  /** One row contributes its entry once when accepted, nothing otherwise;
      with `ScanRowsAppend` this fixes the order and multiplicity of the
      result. */
  lemma ScanRowsSingle(row: Row, familyName: string)
    ensures ScanRows([row], familyName) == match ScanRow(row, familyName) case Some(a) => [a] case None => []
  {
    FilterMapSingleton(row, RowScanner(familyName));
  }

  // ---------------------------------------------------------------------
  // Cache files

  const AircraftCacheHours: nat := 72
  const FamilyCacheHours: nat := 168
  const MsPerHour: nat := 3600000

  /** A cache file: absent, unreadable or not JSON, or a stored object whose
      `timestamp` and data list may each be missing. */
  datatype CacheFile<T> = Missing | Corrupt | Stored(timestamp: Option<int>, data: Option<seq<T>>)

  /** The outcome of a cache check; `ageMs` is `None` when the stored
      timestamp is missing (an invalid date, whose age is `NaN`). */
  datatype CacheStatus<T> = CacheStatus(isValid: bool, ageMs: Option<int>, data: seq<T>)

  /** `isCacheValid` / `isFamilyCacheValid` at time `now` (milliseconds):
      valid while fewer than `ttlHours` hours have passed since the stored
      timestamp; a file that cannot be read or parsed is an invalid, empty
      cache of age 0. */
  function CheckCache<T>(file: CacheFile<T>, now: int, ttlHours: nat): (st: CacheStatus<T>)
    ensures !file.Stored? ==> st == CacheStatus(false, Some(0), [])
    ensures st.isValid <==> file.Stored? && file.timestamp.Some? && now - file.timestamp.value < ttlHours * MsPerHour
    ensures file.Stored? ==> st.data == file.data.GetOr([])
    ensures file.Stored? && file.timestamp.Some? ==> st.ageMs == Some(now - file.timestamp.value)
  {
    match file
    case Stored(ts, data) =>
      var age := match ts case Some(t) => Some(now - t) case None => None;
      CacheStatus(age.Some? && age.value < ttlHours * MsPerHour, age, data.GetOr([]))
    case _ => CacheStatus(false, Some(0), [])
  }

  /** The boundary is exclusive, and a cache that is valid at some time was
      valid at every earlier time after it was written. */
  lemma CacheAgeBoundary<T>(data: seq<T>, written: int, ttlHours: nat, now: int, earlier: int)
    requires written <= earlier <= now
    ensures !CheckCache(Stored(Some(written), Some(data)), written + ttlHours * MsPerHour, ttlHours).isValid
    ensures CheckCache(Stored(Some(written), Some(data)), now, ttlHours).isValid ==>
            CheckCache(Stored(Some(written), Some(data)), earlier, ttlHours).isValid
  {
  }

  /** The cache-or-fetch rule: cached data is used only when no refresh is
      forced and the cache is valid and not empty. */
  predicate ServesFromCache<T>(file: CacheFile<T>, now: int, ttlHours: nat, forceRefresh: bool) {
    !forceRefresh && CheckCache(file, now, ttlHours).isValid && CheckCache(file, now, ttlHours).data != []
  }

  /** After a fetch the written cache serves the fetched data, unforced, for
      `ttlHours` hours, provided the fetch found something. */
  lemma FetchThenServe<T>(fetched: seq<T>, written: int, now: int, ttlHours: nat)
    requires fetched != [] && written <= now < written + ttlHours * MsPerHour
    ensures ServesFromCache(Stored(Some(written), Some(fetched)), now, ttlHours, false)
    ensures CheckCache(Stored(Some(written), Some(fetched)), now, ttlHours).data == fetched
  {
  }

  /** A missing or broken cache never serves. */
  lemma BrokenCacheRefetches<T>(file: CacheFile<T>, now: int, ttlHours: nat, forceRefresh: bool)
    requires file.Missing? || file.Corrupt?
    ensures !ServesFromCache(file, now, ttlHours, forceRefresh)
  {
  }

  // ---------------------------------------------------------------------
  // Merged catalog

  /** The per-family results concatenated in family order; a family whose
      scan fails (`None`) contributes nothing. */
  function Merge(families: seq<Family>, scan: Family -> Option<seq<Aircraft>>): (r: seq<Aircraft>)
    ensures forall a :: a in r ==> exists f :: f in families && scan(f).Some? && a in scan(f).value
    ensures forall f :: f in families && scan(f).Some? ==> forall a :: a in scan(f).value ==> a in r
    decreases |families|
  {
    if families == [] then []
    else
      var f := families[|families| - 1];
      assert families == families[..|families| - 1] + [f];
      Merge(families[..|families| - 1], scan) + scan(f).GetOr([])
  }

  /** The `for` loop of `getAvailableAircraft`: each family's scan result is
      appended to the list; a scan that throws is skipped. */
  method ScanFamilies(families: seq<Family>, scan: Family -> Option<seq<Aircraft>>) returns (all: seq<Aircraft>)
    ensures all == Merge(families, scan)
  {
    all := [];
    var i := 0;
    while i < |families|
      invariant 0 <= i <= |families|
      invariant all == Merge(families[..i], scan)
    {
      assert families[..i + 1][..i] == families[..i];
      match scan(families[i]) {
        case Some(found) => all := all + found;
        case None =>
      }
      i := i + 1;
    }
    assert families[..i] == families;
  }

  /** `getAircraftFromFamily` for every family: the scan of the rows of its
      page (`pages`), `None` when loading or reading the page throws. */
  function FamilyScan(pages: Family -> Option<seq<Row>>): Family -> Option<seq<Aircraft>> {
    f => match pages(f) case Some(rows) => Some(ScanRows(rows, f.name)) case None => None
  }

  /** Every merged entry comes from a family of the list, carries that
      family's name and has a positive price. */
  lemma MergedScans(families: seq<Family>, pages: Family -> Option<seq<Row>>, a: Aircraft)
    requires a in Merge(families, FamilyScan(pages))
    ensures exists f :: f in families && a.family == f.name
    ensures a.purchasePrice > 0 && a.model != []
  {
    var f :| f in families && FamilyScan(pages)(f).Some? && a in FamilyScan(pages)(f).value;
    ScannedEntry(pages(f).value, f.name, a);
  }

  /** An entry of one family page carries that family's name, a model and a
      positive price. */
  lemma ScannedEntry(rows: seq<Row>, familyName: string, a: Aircraft)
    requires a in ScanRows(rows, familyName)
    ensures a.family == familyName && a.purchasePrice > 0 && a.model != []
  {
    var r := ScanRows(rows, familyName);
    var i :| 0 <= i < |r| && r[i] == a;
    var j :| 0 <= j < |rows| && ScanRow(rows[j], familyName) == Some(a);
    ScanRowAccepted(rows[j], familyName);
  }

  /** `AircraftDataService` with the two cache files as its state. */
  class CatalogStore {
    var aircraftCache: CacheFile<Aircraft>
    var familyCache: CacheFile<Family>

    constructor(aircraftCache: CacheFile<Aircraft>, familyCache: CacheFile<Family>)
      ensures this.aircraftCache == aircraftCache && this.familyCache == familyCache
    {
      this.aircraftCache := aircraftCache;
      this.familyCache := familyCache;
    }

    /** `getAllAircraftFamilies`: the cached families, or the families listed
        on the manufacturers page (`page`), which are then written to the
        family cache at time `now`. */
    method GetAllAircraftFamilies(forceRefresh: bool, now: int, page: seq<Family>) returns (r: seq<Family>)
      modifies this
      ensures ServesFromCache(old(familyCache), now, FamilyCacheHours, forceRefresh) ==>
        r == CheckCache(old(familyCache), now, FamilyCacheHours).data && familyCache == old(familyCache)
      ensures !ServesFromCache(old(familyCache), now, FamilyCacheHours, forceRefresh) ==>
        r == page && familyCache == Stored(Some(now), Some(page))
      ensures aircraftCache == old(aircraftCache)
    {
      if !forceRefresh {
        var st := CheckCache(familyCache, now, FamilyCacheHours);
        if st.isValid && |st.data| > 0 {
          return st.data;
        }
      }
      r := page;
      familyCache := Stored(Some(now), Some(r));
    }

    /** `getAvailableAircraft`: the cached catalog, or the scans of every
        family's page (`pages`) concatenated and sorted by initial cost, which
        is then written to the aircraft cache. The family list itself is read
        through the family cache without forcing a refresh, and a fetched
        list (`page`) is written to the family cache. */
    method GetAvailableAircraft(forceRefresh: bool, now: int, page: seq<Family>,
                                pages: Family -> Option<seq<Row>>) returns (r: seq<Aircraft>)
      modifies this
      ensures ServesFromCache(old(aircraftCache), now, AircraftCacheHours, forceRefresh) ==>
        r == CheckCache(old(aircraftCache), now, AircraftCacheHours).data
        && aircraftCache == old(aircraftCache) && familyCache == old(familyCache)
      ensures !ServesFromCache(old(aircraftCache), now, AircraftCacheHours, forceRefresh) ==>
        var cachedFamilies := ServesFromCache(old(familyCache), now, FamilyCacheHours, false);
        var families := if cachedFamilies then CheckCache(old(familyCache), now, FamilyCacheHours).data else page;
        r == SortBy(Merge(families, FamilyScan(pages)), InitialCost)
        && aircraftCache == Stored(Some(now), Some(r))
        && familyCache == if cachedFamilies then old(familyCache) else Stored(Some(now), Some(page))
      ensures SortedBy(r, InitialCost) || ServesFromCache(old(aircraftCache), now, AircraftCacheHours, forceRefresh)
    {
      if !forceRefresh {
        var st := CheckCache(aircraftCache, now, AircraftCacheHours);
        if st.isValid && |st.data| > 0 {
          return st.data;
        }
      }
      var families := GetAllAircraftFamilies(false, now, page);
      var all := ScanFamilies(families, FamilyScan(pages));
      r := SortBy(all, InitialCost);
      aircraftCache := Stored(Some(now), Some(r));
    }
  }

  // ---------------------------------------------------------------------
  // Grouping by family

  /** One entry of `groupAircraftByFamily`'s result. */
  datatype Group = Group(
    name: string,
    aircraft: seq<Aircraft>,
    minSecurityDeposit: int,
    maxSecurityDeposit: int,
    minPassengers: int,
    maxPassengers: int,
    totalModels: nat)

  function Min(a: int, b: int): int { if a <= b then a else b }
  function Max(a: int, b: int): int { if a >= b then a else b }

  /** A fresh group (minimum `Infinity`, maximum 0, no models) after its
      first aircraft: `Math.min(Infinity, x)` is `x`, `Math.max(0, x)` is
      `max(0, x)`. */
  function NewGroup(a: Aircraft): Group {
    Group(a.family, [a], a.securityDeposit, Max(0, a.securityDeposit),
          a.passengers, Max(0, a.passengers), 1)
  }

  /** One `forEach` step on an existing group. */
  function AddToGroup(g: Group, a: Aircraft): Group {
    Group(g.name, g.aircraft + [a],
          Min(g.minSecurityDeposit, a.securityDeposit), Max(g.maxSecurityDeposit, a.securityDeposit),
          Min(g.minPassengers, a.passengers), Max(g.maxPassengers, a.passengers),
          g.totalModels + 1)
  }

  /** The group of the members `ms`, built in input order: it is named by
      the first member's family, holds exactly `ms` and counts them. */
  function Accumulate(ms: seq<Aircraft>): (g: Group)
    requires ms != []
    ensures g.name == ms[0].family && g.aircraft == ms && g.totalModels == |ms|
    decreases |ms|
  {
    if |ms| == 1 then NewGroup(ms[0])
    else
      var init := ms[..|ms| - 1];
      var a := ms[|ms| - 1];
      assert ms == init + [a];
      assert init[0] == ms[0];
      AddToGroup(Accumulate(init), a)
  }

  /** The deposit aggregates bound the members: the minimum is an attained
      lower bound, the maximum an upper bound that is attained unless the
      seed 0 exceeds every member. */
  lemma {:induction false} AccumulateDepositBounds(ms: seq<Aircraft>)
    requires ms != []
    ensures var g := Accumulate(ms);
      (forall a :: a in ms ==> g.minSecurityDeposit <= a.securityDeposit <= g.maxSecurityDeposit)
      && (exists a :: a in ms && a.securityDeposit == g.minSecurityDeposit)
      && g.maxSecurityDeposit >= 0
      && (g.maxSecurityDeposit == 0 || exists a :: a in ms && a.securityDeposit == g.maxSecurityDeposit)
    decreases |ms|
  {
    if |ms| > 1 {
      var init := ms[..|ms| - 1];
      assert ms == init + [ms[|ms| - 1]];
      AccumulateDepositBounds(init);
    }
  }

  /** The passenger aggregates bound the members in the same way. */
  lemma {:induction false} AccumulatePassengerBounds(ms: seq<Aircraft>)
    requires ms != []
    ensures var g := Accumulate(ms);
      (forall a :: a in ms ==> g.minPassengers <= a.passengers <= g.maxPassengers)
      && (exists a :: a in ms && a.passengers == g.minPassengers)
      && g.maxPassengers >= 0
      && (g.maxPassengers == 0 || exists a :: a in ms && a.passengers == g.maxPassengers)
    decreases |ms|
  {
    if |ms| > 1 {
      var init := ms[..|ms| - 1];
      assert ms == init + [ms[|ms| - 1]];
      AccumulatePassengerBounds(init);
    }
  }

  /** One more member extends the group by one `forEach` step. */
  lemma AccumulateSnoc(ms: seq<Aircraft>, a: Aircraft)
    requires ms != []
    ensures Accumulate(ms + [a]) == AddToGroup(Accumulate(ms), a)
  {
    assert (ms + [a])[..|ms|] == ms;
  }

  /** Every key of the key order has at least one member. */
  lemma KeyHasMembers(xs: seq<Aircraft>, k: string)
    requires k in Keys(xs, FamilyOf)
    ensures Members(xs, FamilyOf, k) != []
  {
    var a :| a in xs && FamilyOf(a) == k;
    assert a in Members(xs, FamilyOf, k);
  }

  /** The groups of the keys `ks`, in that order. */
  function GroupsOf(xs: seq<Aircraft>, ks: seq<string>): (gs: seq<Group>)
    requires forall k :: k in ks ==> Members(xs, FamilyOf, k) != []
    ensures |gs| == |ks|
    ensures forall i :: 0 <= i < |ks| ==> gs[i] == Accumulate(Members(xs, FamilyOf, ks[i]))
    decreases |ks|
  {
    if ks == [] then []
    else GroupsOf(xs, ks[..|ks| - 1]) + [Accumulate(Members(xs, FamilyOf, ks[|ks| - 1]))]
  }

  /** Every key of the key order has members. */
  lemma AllKeysHaveMembers(xs: seq<Aircraft>)
    ensures forall k :: k in Keys(xs, FamilyOf) ==> Members(xs, FamilyOf, k) != []
  {
    forall k | k in Keys(xs, FamilyOf) ensures Members(xs, FamilyOf, k) != [] {
      KeyHasMembers(xs, k);
    }
  }

  /** One more key adds its group at the end. */
  lemma GroupsOfSnoc(xs: seq<Aircraft>, ks: seq<string>, k: string)
    requires forall j :: j in ks ==> Members(xs, FamilyOf, j) != []
    requires Members(xs, FamilyOf, k) != []
    ensures GroupsOf(xs, ks + [k]) == GroupsOf(xs, ks) + [Accumulate(Members(xs, FamilyOf, k))]
  {
    assert (ks + [k])[..|ks|] == ks;
    assert GroupsOf(xs, [k])[0] == Accumulate(Members(xs, FamilyOf, k));
  }

  /** The specification of `groupAircraftByFamily`: one group per family, in
      order of the family's first appearance. */
  function Groups(xs: seq<Aircraft>): (gs: seq<Group>)
    ensures |gs| == |Keys(xs, FamilyOf)|
  {
    AllKeysHaveMembers(xs);
    GroupsOf(xs, Keys(xs, FamilyOf))
  }

  /** Each group is named by its family key, its members are exactly the
      aircraft of that family in input order, and `totalModels` counts them. */
  lemma GroupsMembers(xs: seq<Aircraft>, i: nat)
    requires i < |Groups(xs)|
    ensures var g := Groups(xs)[i];
      g.name == Keys(xs, FamilyOf)[i] && g.aircraft == Members(xs, FamilyOf, g.name)
      && g.totalModels == |g.aircraft|
  {
    var ks := Keys(xs, FamilyOf);
    assert Members(xs, FamilyOf, ks[i])[0] in Members(xs, FamilyOf, ks[i]);
  }

  /** Every group is non-empty and holds aircraft of its own family only. */
  lemma GroupOfFamily(xs: seq<Aircraft>, g: Group)
    requires g in Groups(xs)
    ensures g.aircraft != [] && forall a :: a in g.aircraft ==> a in xs && a.family == g.name
  {
    var i :| 0 <= i < |Groups(xs)| && Groups(xs)[i] == g;
    GroupsMembers(xs, i);
    KeyHasMembers(xs, Keys(xs, FamilyOf)[i]);
  }

  /** The group names are distinct. */
  lemma GroupsDistinct(xs: seq<Aircraft>, i: nat, j: nat)
    requires i < j < |Groups(xs)|
    ensures Groups(xs)[i].name != Groups(xs)[j].name
  {
    GroupsMembers(xs, i);
    GroupsMembers(xs, j);
  }

  /** Grouping is total: every aircraft is in the group named by its family. */
  lemma GroupsTotal(xs: seq<Aircraft>, a: Aircraft)
    requires a in xs
    ensures exists i :: 0 <= i < |Groups(xs)| && Groups(xs)[i].name == a.family && a in Groups(xs)[i].aircraft
  {
    var ks := Keys(xs, FamilyOf);
    assert FamilyOf(a) == a.family;
    assert a.family in ks;
    var i :| 0 <= i < |ks| && ks[i] == a.family;
    GroupsMembers(xs, i);
  }

  function SumModels(gs: seq<Group>): nat
    decreases |gs|
  {
    if gs == [] then 0 else SumModels(gs[..|gs| - 1]) + gs[|gs| - 1].totalModels
  }

  lemma {:induction false} SumModelsOf(xs: seq<Aircraft>, ks: seq<string>)
    requires forall k :: k in ks ==> Members(xs, FamilyOf, k) != []
    ensures SumModels(GroupsOf(xs, ks)) == SumSizes(xs, FamilyOf, ks)
    decreases |ks|
  {
    if ks != [] {
      var init := ks[..|ks| - 1];
      var k := ks[|ks| - 1];
      assert ks == init + [k];
      SumModelsOf(xs, init);
      SumSizesAppend(xs, FamilyOf, init, k);
      var gs := GroupsOf(xs, ks);
      assert gs[..|gs| - 1] == GroupsOf(xs, init);
    }
  }

  /** Grouping is a partition: the model counts add up to the input length. */
  lemma GroupsPartition(xs: seq<Aircraft>)
    ensures SumModels(Groups(xs)) == |xs|
  {
    AllKeysHaveMembers(xs);
    SumModelsOf(xs, Keys(xs, FamilyOf));
    SumOverKeys(xs, FamilyOf);
  }

  /** The dictionary's keys are those of the key order. */
  ghost predicate SameDomain(groups: map<string, Group>, order: seq<string>) {
    forall k :: k in groups <==> k in order
  }

  /** The dictionary holds, for every key listed, the group of its members. */
  ghost predicate GroupsMatch(p: seq<Aircraft>, groups: map<string, Group>, order: seq<string>) {
    forall k :: k in order ==>
      k in groups && Members(p, FamilyOf, k) != [] && groups[k] == Accumulate(Members(p, FamilyOf, k))
  }

  /** The loop state of `groupAircraftByFamily` after the prefix `p`: the
      dictionary holds one group per family seen, in the key order `order`. */
  ghost predicate Grouped(p: seq<Aircraft>, groups: map<string, Group>, order: seq<string>) {
    order == Keys(p, FamilyOf) && SameDomain(groups, order) && GroupsMatch(p, groups, order)
  }

  /** A `forEach` step on a family not seen before adds its group at the end
      of the key order. */
  lemma GroupedNew(p: seq<Aircraft>, a: Aircraft, groups: map<string, Group>, order: seq<string>)
    requires Grouped(p, groups, order) && a.family !in groups
    ensures Grouped(p + [a], groups[a.family := NewGroup(a)], order + [a.family])
  {
    var p' := p + [a];
    var groups' := groups[a.family := NewGroup(a)];
    var order' := order + [a.family];
    KeysSnoc(p, FamilyOf, a);
    assert order' == Keys(p', FamilyOf);
    forall k | k in order'
      ensures k in groups' && Members(p', FamilyOf, k) != [] && groups'[k] == Accumulate(Members(p', FamilyOf, k))
    {
      MembersSnoc(p, FamilyOf, a, k);
      if k == a.family {
        assert forall i :: 0 <= i < |p| ==> FamilyOf(p[i]) != a.family by {
          forall i | 0 <= i < |p| ensures FamilyOf(p[i]) != a.family {
            assert p[i] in p;
          }
        }
        NoMembers(p, FamilyOf, a.family);
        assert Members(p', FamilyOf, k) == [a];
      } else {
        assert k in order;
      }
    }
    assert SameDomain(groups', order');
  }

  /** The group of key `k` after a step on `a`, whose family already has a
      group. */
  lemma GroupedOldAt(p: seq<Aircraft>, a: Aircraft, groups: map<string, Group>, k: string)
    requires a.family in groups && k in groups
    requires Members(p, FamilyOf, a.family) != [] && groups[a.family] == Accumulate(Members(p, FamilyOf, a.family))
    requires Members(p, FamilyOf, k) != [] && groups[k] == Accumulate(Members(p, FamilyOf, k))
    ensures var groups' := groups[a.family := AddToGroup(groups[a.family], a)];
      k in groups' && Members(p + [a], FamilyOf, k) != [] && groups'[k] == Accumulate(Members(p + [a], FamilyOf, k))
  {
    MembersSnoc(p, FamilyOf, a, k);
    if k == a.family {
      AccumulateSnoc(Members(p, FamilyOf, k), a);
    }
  }

  lemma GroupedOldKeys(p: seq<Aircraft>, a: Aircraft, order: seq<string>)
    requires order == Keys(p, FamilyOf) && a.family in order
    ensures order == Keys(p + [a], FamilyOf)
  {
    KeysSnoc(p, FamilyOf, a);
  }

  lemma GroupedOldGroups(p: seq<Aircraft>, a: Aircraft, groups: map<string, Group>, order: seq<string>)
    requires SameDomain(groups, order) && GroupsMatch(p, groups, order) && a.family in groups
    ensures GroupsMatch(p + [a], groups[a.family := AddToGroup(groups[a.family], a)], order)
  {
    var groups' := groups[a.family := AddToGroup(groups[a.family], a)];
    forall k | k in order
      ensures k in groups' && Members(p + [a], FamilyOf, k) != [] && groups'[k] == Accumulate(Members(p + [a], FamilyOf, k))
    {
      GroupedOldAt(p, a, groups, k);
    }
  }

  lemma GroupedOldDomain(groups: map<string, Group>, order: seq<string>, k: string, g: Group)
    requires SameDomain(groups, order) && k in groups
    ensures SameDomain(groups[k := g], order)
  {
  }

  /** A `forEach` step on a family already seen updates its group only. */
  lemma GroupedOld(p: seq<Aircraft>, a: Aircraft, groups: map<string, Group>, order: seq<string>)
    requires Grouped(p, groups, order) && a.family in groups
    ensures Grouped(p + [a], groups[a.family := AddToGroup(groups[a.family], a)], order)
  {
    GroupedOldKeys(p, a, order);
    GroupedOldDomain(groups, order, a.family, AddToGroup(groups[a.family], a));
    GroupedOldGroups(p, a, groups, order);
  }

  /** The `forEach` of `groupAircraftByFamily`: the dictionary of groups
      updated in place while the list is walked, with its key order. */
  method BuildGroups(xs: seq<Aircraft>) returns (groups: map<string, Group>, order: seq<string>)
    ensures Grouped(xs, groups, order)
  {
    groups := map[];
    order := [];
    var i := 0;
    while i < |xs|
      invariant 0 <= i <= |xs|
      invariant Grouped(xs[..i], groups, order)
    {
      var a := xs[i];
      assert xs[..i + 1] == xs[..i] + [a];
      if a.family !in groups {
        GroupedNew(xs[..i], a, groups, order);
        groups := groups[a.family := NewGroup(a)];
        order := order + [a.family];
      } else {
        GroupedOld(xs[..i], a, groups, order);
        groups := groups[a.family := AddToGroup(groups[a.family], a)];
      }
      i := i + 1;
    }
    assert xs[..i] == xs;
  }

  /** `Object.values(familyGroups)`: the groups in key insertion order. */
  method GroupValues(xs: seq<Aircraft>, groups: map<string, Group>, order: seq<string>) returns (r: seq<Group>)
    requires Grouped(xs, groups, order)
    ensures r == Groups(xs)
  {
    r := [];
    var j := 0;
    while j < |order|
      invariant 0 <= j <= |order|
      invariant r == GroupsOf(xs, order[..j])
    {
      assert order[..j + 1] == order[..j] + [order[j]];
      GroupsOfSnoc(xs, order[..j], order[j]);
      r := r + [groups[order[j]]];
      j := j + 1;
    }
    assert order[..j] == order;
  }

  /** `groupAircraftByFamily` */
  method GroupAircraftByFamily(xs: seq<Aircraft>) returns (r: seq<Group>)
    ensures r == Groups(xs)
  {
    var groups, order := BuildGroups(xs);
    r := GroupValues(xs, groups, order);
  }
}
