/** `StationAIAnalyzer`: reads the AI's station recommendations. The reply
    names up to five stations, each on a `STATION_i: name (CODE) - country`
    line with optional `GRUND_i:` and `ROUTE_i:` fields, and a `PRIORITÄT:`
    field naming the station to open first. Stations cost nothing to open,
    so every recommended station is affordable. The AI reply, the hub and the
    balance are inputs. */
module StationAnalyzer {
  import opened Wrappers
  import opened JsText
  import opened Seqs
  import opened ReplyScan
  import AircraftAnalyzer
  import Catalog

  /** The number of numbered stations the reply is searched for. */
  const MaxStations: nat := 5
  /** `topPriority` when the reply names none. */
  const DefaultPriority: nat := 1
  /** `expectedPassengers` when the route field or its count is missing. */
  const DefaultPassengers: nat := 100
  const PriorityKey: string := "PRIORITÄT:"
  /** The arrow between the hub and the station in a default route. */
  const RouteArrow: string := " ↔ "

  /** The decimal digit of `i`. */
  function DigitChar(i: nat): (c: char)
    requires i <= 9
    ensures IsDigit(c)
  {
    ('0' as int + i) as char
  }

  /** `STATION_i:`, `GRUND_i:`, `ROUTE_i:` */
  function Key(prefix: string, i: nat): string
    requires i <= 9
  {
    prefix + [DigitChar(i), ':']
  }

  /** `Station i Empfehlung`, the reasoning of a station without `GRUND_i:`. */
  function DefaultReason(i: nat): string
    requires i <= 9
  {
    "Station " + [DigitChar(i)] + " Empfehlung"
  }

  /** The code and country captures of `\s*\(([A-Z]{3})\)\s*-\s*(.+)` tried
      at `k`; with the `i` flag the code letters may be of either case. */
  datatype CodeTail = CodeTail(code: string, country: string)

  function CodeTailAt(s: string, k: nat): (r: Option<CodeTail>)
    ensures r.Some? ==> |r.value.code| == 3 && forall c :: c in r.value.code ==> IsLetter(c)
    ensures r.Some? ==> r.value.country != []
  {
    if k > |s| then None
    else
      var j := SpaceEnd(s, k);
      if j + 5 <= |s| && s[j] == '(' && IsLetter(s[j + 1]) && IsLetter(s[j + 2]) && IsLetter(s[j + 3]) && s[j + 4] == ')' then
        var d := SpaceEnd(s, j + 5);
        if d < |s| && s[d] == '-' then
          match LineFrom(s, d + 1)
          case Some(country) =>
            var code := s[j + 1..j + 4];
            assert forall c :: c in code ==> c == s[j + 1] || c == s[j + 2] || c == s[j + 3];
            Some(CodeTail(code, country))
          case None => None
        else None
      else None
  }

  /** The trimmed captures of a `STATION_i:` line. */
  datatype StationLine = StationLine(name: string, code: string, country: string)

  /** `/KEY\s*(.+?)\s*\(([A-Z]{3})\)\s*-\s*(.+)/i` tried at `p`. The lazy name
      stays on its line and ends at the first position where the code part
      matches. When none does, the greedy `\s*` gives back its last character
      that is not a line break, which then forms the whole (blank) name. */
  function StationAt(s: string, key: string, p: nat): (r: Option<StationLine>)
    ensures r.Some? ==> LabelAt(s, p, key)
    ensures r.Some? ==>
      |r.value.code| == 3 && (forall c :: c in r.value.code ==> IsLetter(c))
    ensures r.Some? ==> Trimmed(r.value.name) && Trimmed(r.value.country)
  {
    if !LabelAt(s, p, key) then None
    else
      var a := p + |key|;
      var w := SpaceEnd(s, a);
      var tail := k => CodeTailAt(s, k);
      match FirstMatch(LineEnd(s, w), w + 1, tail)
      case Some(k) =>
        var t := tail(k).value;
        Some(StationLine(Trim(s[w..k]), t.code, Trim(t.country)))
      case None =>
        if LastNonTerminator(s, a, w).Some? && tail(w).Some? then
          Some(StationLine("", tail(w).value.code, Trim(tail(w).value.country)))
        else None
  }

  /** A label followed, on the same line and after at least one name
      character, by a code part matches at that label. */
  lemma StationLineMatches(s: string, key: string, p: nat, k: nat)
    requires LabelAt(s, p, key)
    requires var w := SpaceEnd(s, p + |key|); w + 1 <= k <= LineEnd(s, w) && CodeTailAt(s, k).Some?
    ensures StationAt(s, key, p).Some?
  {
    var w := SpaceEnd(s, p + |key|);
    var tail := j => CodeTailAt(s, j);
    assert tail(k).Some?;
    assert FirstMatch(LineEnd(s, w), w + 1, tail).Some?;
  }

  /** `aiResponse.match(/STATION_i:.../i)`, trimmed: the captures at the
      leftmost position where the pattern matches, `None` when it matches
      nowhere (in particular when the label is missing). */
  function StationMatch(s: string, i: nat): (r: Option<StationLine>)
    requires i <= 9
    ensures r.Some? ==> |r.value.code| == 3 && forall c :: c in r.value.code ==> IsLetter(c)
    ensures r.Some? ==> Trimmed(r.value.name) && Trimmed(r.value.country)
    ensures r.None? <==> forall p :: 0 <= p <= |s| ==> StationAt(s, Key("STATION_", i), p).None?
    ensures forall p :: 0 <= p <= |s| && StationAt(s, Key("STATION_", i), p).Some? &&
                        (forall k :: 0 <= k < p ==> StationAt(s, Key("STATION_", i), k).None?) ==>
                        r == StationAt(s, Key("STATION_", i), p)
    ensures (forall p :: 0 <= p <= |s| ==> !LabelAt(s, p, Key("STATION_", i))) ==> r.None?
  {
    var m := p => StationAt(s, Key("STATION_", i), p);
    assert forall k :: m(k) == StationAt(s, Key("STATION_", i), k);
    FirstMatchLeftmost(|s|, m);
    match FirstMatch(|s|, 0, m)
    case Some(p) => m(p)
    case None => None
  }

  /** The terminator keys of `GRUND_i:`. */
  function ReasonStops(i: nat): seq<string>
    requires i <= 8
  {
    [Key("ROUTE_", i), Key("STATION_", i + 1), PriorityKey]
  }

  /** The terminator keys of `ROUTE_i:`. */
  function RouteStops(i: nat): seq<string>
    requires i <= 8
  {
    [Key("STATION_", i + 1), Key("GRUND_", i + 1), PriorityKey]
  }

  /** The captures of a `ROUTE_i:` field: the route, trimmed, and the
      untrimmed text after the dash. */
  datatype RouteLine = RouteLine(route: string, passengersText: string)

  /** `\s*-\s*(.+?)(?=T1|...|$)` tried at `k` with the `s` flag: the text
      after the dash, up to the first terminator key. */
  function DashTailAt(s: string, stops: seq<string>, k: nat): (r: Option<string>)
    ensures r.Some? ==> r.value != []
  {
    if k > |s| then None
    else
      var m := SpaceEnd(s, k);
      if m < |s| && s[m] == '-' then LazyFrom(s, stops, m + 1) else None
  }

  /** `/KEY\s*(.+?)\s*-\s*(.+?)(?=T1|...|$)/is` tried at `p`. The lazy route
      may span lines and ends at the first position followed by a dash with
      text after it; when none follows, the greedy `\s*` gives back one
      character, which forms the whole (blank) route. */
  function RouteAt(s: string, key: string, stops: seq<string>, p: nat): (r: Option<RouteLine>)
    ensures r.Some? ==> LabelAt(s, p, key) && r.value.passengersText != []
  {
    if !LabelAt(s, p, key) then None
    else
      var a := p + |key|;
      var w := SpaceEnd(s, a);
      var tail := k => DashTailAt(s, stops, k);
      match FirstMatch(|s|, w + 1, tail)
      case Some(k) => Some(RouteLine(Trim(s[w..k]), tail(k).value))
      case None =>
        if w > a && tail(w).Some? then Some(RouteLine("", tail(w).value)) else None
  }

  /** `aiResponse.match(/ROUTE_i:.../is)`: the captures at the leftmost
      position where the pattern matches, `None` when it matches nowhere
      (a missing label, or no dash with text after it). */
  function RouteMatch(s: string, i: nat): (r: Option<RouteLine>)
    requires i <= 8
    ensures r.None? <==> forall p :: 0 <= p <= |s| ==> RouteAt(s, Key("ROUTE_", i), RouteStops(i), p).None?
    ensures forall p :: 0 <= p <= |s| && RouteAt(s, Key("ROUTE_", i), RouteStops(i), p).Some? &&
                        (forall k :: 0 <= k < p ==> RouteAt(s, Key("ROUTE_", i), RouteStops(i), k).None?) ==>
                        r == RouteAt(s, Key("ROUTE_", i), RouteStops(i), p)
    ensures (forall p :: 0 <= p <= |s| ==> !LabelAt(s, p, Key("ROUTE_", i))) ==> r.None?
  {
    var m := p => RouteAt(s, Key("ROUTE_", i), RouteStops(i), p);
    assert forall k :: m(k) == RouteAt(s, Key("ROUTE_", i), RouteStops(i), k);
    FirstMatchLeftmost(|s|, m);
    match FirstMatch(|s|, 0, m)
    case Some(p) => m(p)
    case None => None
  }

  /** A reply without any dash has no route match, whatever its `ROUTE_i:`
      lines say (`ROUTE_1: irgendwo` gives the default route). */
  lemma RouteWithoutDash(s: string, i: nat)
    requires i <= 8
    requires forall k :: 0 <= k < |s| ==> s[k] != '-'
    ensures RouteMatch(s, i).None?
  {
    forall p | 0 <= p <= |s| ensures RouteAt(s, Key("ROUTE_", i), RouteStops(i), p).None? {
      assert forall k :: DashTailAt(s, RouteStops(i), k).None?;
    }
  }

  /** `(\d+)\s*(passagiere|passengers|pax)` tried at `q` (case-insensitive):
      the value of the digit run starting at `q`. */
  function CountAt(t: string, q: nat): (r: Option<nat>)
    ensures r.Some? ==> q < |t| && IsDigit(t[q])
  {
    if q >= |t| || !IsDigit(t[q]) then None
    else
      var e := DigitEnd(t, q);
      var w := SpaceEnd(t, e);
      if LabelAt(t, w, "passagiere") || LabelAt(t, w, "passengers") || LabelAt(t, w, "pax") then
        var ds := t[q..e];
        assert forall k :: 0 <= k < |ds| ==> IsDigit(ds[k]) by {
          forall k | 0 <= k < |ds| ensures IsDigit(ds[k]) {
            assert ds[k] == t[q + k];
          }
        }
        Some(DigitsValue(ds))
      else None
  }

  /** `extractPassengerCount(routeString)`: the first number followed by a
      passenger word, or 100. */
  function ExtractPassengerCount(t: string): (n: nat)
    ensures (forall q :: 0 <= q < |t| ==> !IsDigit(t[q])) ==> n == DefaultPassengers
    ensures (forall q :: 0 <= q <= |t| ==> CountAt(t, q).None?) ==> n == DefaultPassengers
    ensures n == DefaultPassengers || exists q :: 0 <= q <= |t| && CountAt(t, q) == Some(n)
  {
    var m := q => CountAt(t, q);
    assert forall k :: m(k) == CountAt(t, k);
    FirstMatchLeftmost(|t|, m);
    match FirstMatch(|t|, 0, m)
    case Some(q) => m(q).value
    case None => DefaultPassengers
  }

  /** The leftmost number followed by a passenger word is the count. */
  lemma PassengerCountFirst(t: string, q: nat)
    requires CountAt(t, q).Some?
    requires forall k :: 0 <= k < q ==> CountAt(t, k).None?
    ensures ExtractPassengerCount(t) == CountAt(t, q).value
  {
    var m := k => CountAt(t, k);
    FirstMatchIs(|t|, m, q);
  }

  /** `estimateStationCost(stationName, rank)`: opening a station is free. */
  function EstimateStationCost(name: string, rank: nat): (c: int)
    ensures c == 0
  {
    0
  }

  /** One recommended station. */
  datatype Station = Station(
    rank: nat,
    name: string,
    code: string,
    country: string,
    reasoning: string,
    route: string,
    expectedPassengers: nat,
    estimatedCost: int)

  /** The station of rank `i`, when the reply has a `STATION_i:` line of the
      required form; the reasoning, route and passenger count fall back to
      their defaults when their fields are missing. */
  function StationEntry(reply: string, hub: string, i: nat): (r: Option<Station>)
    requires 1 <= i <= MaxStations
    ensures r.Some? ==> r.value.rank == i && r.value.estimatedCost == 0
  {
    match StationMatch(reply, i)
    case None => None
    case Some(st) =>
      var grund := LazyField(reply, Key("GRUND_", i), ReasonStops(i));
      var route := RouteMatch(reply, i);
      Some(Station(
        i, st.name, st.code, st.country,
        grund.GetOr(DefaultReason(i)),
        if route.Some? then route.value.route else hub + RouteArrow + st.code,
        if route.Some? then ExtractPassengerCount(route.value.passengersText) else DefaultPassengers,
        EstimateStationCost(st.name, i)))
  }

  /** A station is recommended for every matching `STATION_i:` line and
      carries its captures. When the `GRUND_i:` pattern matches at no
      position the reasoning is the default one, and when the `ROUTE_i:`
      pattern matches at no position (no label, or no dash after it) the
      route runs from the hub to the code with 100 passengers; otherwise
      both come from the leftmost match. */
  lemma StationEntryFields(reply: string, hub: string, i: nat)
    requires 1 <= i <= MaxStations
    ensures var r := StationEntry(reply, hub, i);
      && (r.Some? <==> StationMatch(reply, i).Some?)
      && (r.Some? ==>
        var st := StationMatch(reply, i).value;
        r.value.name == st.name && r.value.code == st.code && r.value.country == st.country
        && |r.value.code| == 3)
      && (r.Some? && (forall p :: 0 <= p <= |reply| ==> LazyAt(reply, Key("GRUND_", i), ReasonStops(i), p).None?) ==>
        r.value.reasoning == DefaultReason(i))
      && (r.Some? && LazyField(reply, Key("GRUND_", i), ReasonStops(i)).Some? ==>
        r.value.reasoning == LazyField(reply, Key("GRUND_", i), ReasonStops(i)).value)
      && (r.Some? && (forall p :: 0 <= p <= |reply| ==> RouteAt(reply, Key("ROUTE_", i), RouteStops(i), p).None?) ==>
        r.value.route == hub + RouteArrow + r.value.code && r.value.expectedPassengers == DefaultPassengers)
      && (r.Some? && RouteMatch(reply, i).Some? ==>
        r.value.route == RouteMatch(reply, i).value.route
        && r.value.expectedPassengers == ExtractPassengerCount(RouteMatch(reply, i).value.passengersText))
  {
  }

  /** What each turn of the loop over the numbers `1..5` finds. */
  function Candidates(reply: string, hub: string): (c: seq<Option<Station>>)
    ensures |c| == MaxStations
    ensures forall j :: 0 <= j < MaxStations ==> c[j] == StationEntry(reply, hub, j + 1)
    ensures forall j :: 0 <= j < |c| && c[j].Some? ==> c[j].value.rank == j + 1
  {
    seq(MaxStations, j requires 0 <= j < MaxStations => StationEntry(reply, hub, j + 1))
  }

  /** The stations the loop has pushed once it has seen the candidates
      `c`, in rank order: the candidates that were found, each once. */
  function Pushed(c: seq<Option<Station>>): (r: seq<Station>)
    requires forall j :: 0 <= j < |c| && c[j].Some? ==> c[j].value.rank == j + 1
    ensures |r| <= |c|
    ensures forall j, k :: 0 <= j < k < |r| ==> r[j].rank < r[k].rank
    ensures forall x :: x in r ==> 1 <= x.rank <= |c| && c[x.rank - 1] == Some(x)
    ensures forall j :: 0 <= j < |c| && c[j].Some? ==> c[j].value in r
    decreases |c|
  {
    if c == [] then []
    else
      var init := c[..|c| - 1];
      assert forall j :: 0 <= j < |init| ==> init[j] == c[j];
      var r0 := Pushed(init);
      var last := c[|c| - 1];
      if last.Some? then r0 + [last.value] else r0
  }

  /** The stations of the reply in the order the loop pushes them. */
  function Found(reply: string, hub: string): seq<Station> {
    Pushed(Candidates(reply, hub))
  }

  /** `stations.sort` compares `a` before `b`: the priority station first,
      the others by rank. */
  predicate Before(a: Station, b: Station, priority: int) {
    a.rank == priority || (b.rank != priority && a.rank < b.rank)
  }

  /** The position of the station whose rank is the priority. */
  function PriorityIndex(st: seq<Station>, priority: int): (r: Option<nat>)
    ensures r.Some? ==> r.value < |st| && st[r.value].rank == priority
    ensures r.None? <==> forall j :: 0 <= j < |st| ==> st[j].rank != priority
  {
    FindFirst(st, (x: Station) => x.rank == priority)
  }

  /** The order after `parseStationRecommendations` has sorted by priority:
      the station whose rank is the priority moves to the front, the others
      keep their order; without such a station nothing moves. */
  function PriorityOrder(st: seq<Station>, priority: int): (r: seq<Station>)
    ensures multiset(r) == multiset(st)
    ensures (1 <= priority <= MaxStations && exists x :: x in st && x.rank == priority) ==> r[0].rank == priority
    ensures !(1 <= priority <= MaxStations && exists x :: x in st && x.rank == priority) ==> r == st
  {
    if 1 <= priority <= MaxStations then
      match PriorityIndex(st, priority)
      case Some(idx) =>
        assert st == st[..idx] + [st[idx]] + st[idx + 1..];
        [st[idx]] + st[..idx] + st[idx + 1..]
      case None => st
    else st
  }

  /** The ranks rise strictly along `st`. */
  predicate Ascending(st: seq<Station>) {
    forall j, k :: 0 <= j < k < |st| ==> st[j].rank < st[k].rank
  }

  /** Taking one station out keeps the ranks rising. */
  lemma AscendingWithout(st: seq<Station>, idx: nat)
    requires Ascending(st) && idx < |st|
    ensures Ascending(st[..idx] + st[idx + 1..])
    ensures forall x :: x in st[..idx] + st[idx + 1..] ==> x.rank != st[idx].rank
  {
    var rest := st[..idx] + st[idx + 1..];
    assert forall j :: 0 <= j < |rest| ==> rest[j] == if j < idx then st[j] else st[j + 1];
  }

  /** `r` is ordered by the comparator `sort` is given, strictly. */
  predicate SortedBefore(r: seq<Station>, priority: int) {
    forall j, k :: 0 <= j < k < |r| ==> Before(r[j], r[k], priority) && !Before(r[k], r[j], priority)
  }

  /** The priority station in front of the others, which keep their rising
      ranks, is in comparator order. */
  lemma FrontSorted(st: seq<Station>, idx: nat, priority: int)
    requires Ascending(st) && idx < |st| && st[idx].rank == priority
    ensures SortedBefore([st[idx]] + st[..idx] + st[idx + 1..], priority)
  {
    var rest := st[..idx] + st[idx + 1..];
    var r := [st[idx]] + rest;
    AscendingWithout(st, idx);
    assert [st[idx]] + st[..idx] + st[idx + 1..] == r;
    forall j, k | 0 <= j < k < |r| ensures Before(r[j], r[k], priority) && !Before(r[k], r[j], priority) {
      assert r[k] == rest[k - 1] && rest[k - 1] in rest;
      if j > 0 {
        assert r[j] == rest[j - 1] && rest[j - 1] in rest;
      }
    }
  }

  /** For stations in strictly ascending rank order, the priority order is
      sorted by the comparator `sort` is given, a strict order on them, so it
      is the order `sort` produces. */
  lemma PriorityOrderSorted(st: seq<Station>, priority: int)
    requires Ascending(st)
    requires forall j :: 0 <= j < |st| ==> 1 <= st[j].rank <= MaxStations
    ensures SortedBefore(PriorityOrder(st, priority), priority)
  {
    var f := PriorityIndex(st, priority);
    if 1 <= priority <= MaxStations && f.Some? {
      FrontSorted(st, f.value, priority);
    } else {
      assert PriorityOrder(st, priority) == st;
      assert forall j :: 0 <= j < |st| ==> st[j].rank != priority;
    }
  }

  /** The budget part of the parse result: everything is free. */
  datatype BudgetAnalysis = BudgetAnalysis(
    availableForOperations: int,
    stationCosts: int,
    personalCosts: int,
    totalCosts: int,
    canAffordAll: bool)

  /** The result of `parseStationRecommendations`. */
  datatype StationPlan = StationPlan(
    stations: seq<Station>,
    topPriority: nat,
    estimatedTotalCost: int,
    canAffordAll: bool,
    affordableStations: seq<Station>,
    recommendedFirst: Option<Station>,
    budgetAnalysis: BudgetAnalysis)

  /** The number after the leftmost `PRIORITÄT:` label followed by digits,
      1 when no position matches (`PRIORITÄT: hoch` alone gives 1). */
  function TopPriority(reply: string): (n: nat)
    ensures (forall j :: 0 <= j <= |reply| ==> DigitsAt(reply, PriorityKey, j).None?) ==> n == DefaultPriority
    ensures forall j :: 0 <= j <= |reply| && DigitsAt(reply, PriorityKey, j).Some? &&
                        (forall k :: 0 <= k < j ==> DigitsAt(reply, PriorityKey, k).None?) ==>
                        n == DigitsValue(DigitsAt(reply, PriorityKey, j).value)
  {
    DigitsField(reply, PriorityKey).GetOr(DefaultPriority)
  }

  /** The stations of a reply in the order `parseStationRecommendations`
      leaves them. */
  function OrderedStations(reply: string, hub: string): seq<Station> {
    PriorityOrder(Found(reply, hub), TopPriority(reply))
  }

  /** A number has a station exactly when its `STATION_i:` line matches. */
  lemma StationEntryFound(reply: string, hub: string, i: nat)
    requires 1 <= i <= MaxStations
    ensures StationEntry(reply, hub, i).Some? <==> StationMatch(reply, i).Some?
  {
  }

  /** The station of number `i` is found exactly when its `STATION_i:` line
      matches. */
  lemma FoundMembers(reply: string, hub: string)
    ensures var all := Found(reply, hub);
      && |all| <= MaxStations
      && (forall x :: x in all ==> 1 <= x.rank <= MaxStations && x.estimatedCost == 0)
      && (forall i :: 1 <= i <= MaxStations ==>
            (StationMatch(reply, i).Some? <==> exists x :: x in all && x.rank == i))
  {
    var c := Candidates(reply, hub);
    var all := Found(reply, hub);
    forall x | x in all ensures 1 <= x.rank <= MaxStations && x.estimatedCost == 0 {
      assert c[x.rank - 1] == Some(x);
    }
    forall i | 1 <= i <= MaxStations
      ensures StationMatch(reply, i).Some? <==> exists x :: x in all && x.rank == i
    {
      StationEntryFound(reply, hub, i);
      assert c[i - 1] == StationEntry(reply, hub, i);
      if StationMatch(reply, i).Some? {
        assert c[i - 1].value in all;
      }
      if exists x :: x in all && x.rank == i {
        var x :| x in all && x.rank == i;
        assert c[i - 1] == Some(x);
      }
    }
  }

  /** The ordered stations are the found stations, each once: at most five,
      every rank in `1..5`, every cost 0, and the station of number `i` is
      there exactly when its `STATION_i:` line matches. */
  lemma OrderedStationsMembers(reply: string, hub: string)
    ensures var st := OrderedStations(reply, hub);
      && multiset(st) == multiset(Found(reply, hub))
      && |st| <= MaxStations
      && (forall x :: x in st ==> 1 <= x.rank <= MaxStations && x.estimatedCost == 0)
      && (forall i :: 1 <= i <= MaxStations ==>
            (StationMatch(reply, i).Some? <==> exists x :: x in st && x.rank == i))
  {
    var all := Found(reply, hub);
    var st := OrderedStations(reply, hub);
    FoundMembers(reply, hub);
    assert forall x :: x in st <==> x in all by {
      forall x ensures x in st <==> x in all {
        assert x in st <==> x in multiset(st);
        assert x in all <==> x in multiset(all);
      }
    }
    assert |st| == |multiset(st)| == |multiset(all)| == |all|;
  }

  /** `parseStationRecommendations(aiResponse, budget)`: the loop pushes the
      station of every number whose line matches, then the list is sorted by
      priority. */
  method ParseStationRecommendations(reply: string, hub: string, budget: int) returns (plan: StationPlan)
    ensures plan.stations == OrderedStations(reply, hub)
    ensures multiset(plan.stations) == multiset(Found(reply, hub))
    ensures |plan.stations| <= MaxStations
    ensures forall x :: x in plan.stations ==> 1 <= x.rank <= MaxStations && x.estimatedCost == 0
    ensures forall i :: 1 <= i <= MaxStations ==>
      (StationMatch(reply, i).Some? <==> exists x :: x in plan.stations && x.rank == i)
    ensures plan.topPriority == TopPriority(reply)
    ensures plan.estimatedTotalCost == 0 && plan.canAffordAll
    ensures plan.affordableStations == plan.stations
    ensures plan.recommendedFirst == (if plan.stations == [] then None else Some(plan.stations[0]))
    ensures plan.budgetAnalysis == BudgetAnalysis(budget, 0, 0, 0, true)
  {
    ghost var c := Candidates(reply, hub);
    var stations: seq<Station> := [];
    for i := 1 to MaxStations + 1
      invariant stations == Pushed(c[..i - 1])
    {
      var e := StationEntry(reply, hub, i);
      assert c[..i][..i - 1] == c[..i - 1] && c[..i][i - 1] == e;
      if e.Some? {
        stations := stations + [e.value];
      }
    }
    assert c[..MaxStations] == c;
    var priority := TopPriority(reply);
    stations := PriorityOrder(stations, priority);
    OrderedStationsMembers(reply, hub);
    plan := StationPlan(
      stations, priority, 0, true, stations,
      if stations == [] then None else Some(stations[0]),
      BudgetAnalysis(budget, 0, 0, 0, true));
  }

  /** A reply naming the rank of a recommended station as its priority
      puts that station first, so it is the one recommended first. */
  lemma PriorityStationFirst(reply: string, hub: string)
    requires 1 <= TopPriority(reply) <= MaxStations
    requires StationMatch(reply, TopPriority(reply)).Some?
    ensures var st := OrderedStations(reply, hub);
      st != [] && st[0] == StationEntry(reply, hub, TopPriority(reply)).value
  {
    var c := Candidates(reply, hub);
    var p := TopPriority(reply);
    StationEntryFound(reply, hub, p);
    assert c[p - 1] == StationEntry(reply, hub, p);
    PriorityFront(Found(reply, hub), p, c[p - 1].value);
  }

  /** In a list with distinct ranks the station of the priority rank is
      moved to the front. */
  lemma PriorityFront(st: seq<Station>, priority: int, x: Station)
    requires Ascending(st) && 1 <= priority <= MaxStations
    requires x in st && x.rank == priority
    ensures PriorityOrder(st, priority) != [] && PriorityOrder(st, priority)[0] == x
  {
    var f := PriorityIndex(st, priority);
    var j :| 0 <= j < |st| && st[j] == x;
    assert f.Some?;
  }

  /** `selectStationToOpen(recommendations)`: the first station, none when
      the list is missing or empty. The budget argument is not consulted. */
  function SelectStationToOpen(stations: Option<seq<Station>>): (r: Option<Station>)
    ensures r.None? <==> stations.None? || stations.value == []
    ensures r.Some? ==> r.value == stations.value[0]
  {
    match stations
    case Some(st) => if st == [] then None else Some(st[0])
    case None => None
  }

  /** The station selected to open is the one the parse recommends first. */
  lemma SelectRecommendedFirst(plan: StationPlan)
    requires plan.recommendedFirst == (if plan.stations == [] then None else Some(plan.stations[0]))
    ensures SelectStationToOpen(Some(plan.stations)) == plan.recommendedFirst
  {
  }

  /** What `analyzeBestStations` says about the aircraft it plans for. */
  datatype AircraftInfo = AircraftInfo(model: string, quantity: nat, passengers: Option<int>, range: Option<string>)

  /** The budget part of `analyzeBestStations`' result. */
  datatype StationBudget = StationBudget(
    availableForOperations: int,
    remaining: int,
    afterAircraft: int,
    stationCosts: int,
    personalCosts: int)

  /** The result of `analyzeBestStations`. */
  datatype StationAnalysis = StationAnalysis(
    plan: StationPlan,
    aircraftInfo: AircraftInfo,
    budget: StationBudget,
    aiResponse: string)

  /** `analyzeBestStations(aircraftRecommendation)` once the AI has replied:
      the budget left after leasing the recommended aircraft is the balance
      minus their security deposit, all of it available since stations are
      free. */
  method AnalyzeBestStations(balance: int, rec: AircraftAnalyzer.ModelChoice, hub: string, reply: string)
    returns (a: StationAnalysis)
    ensures a.budget.remaining == balance - rec.totalSecurityDeposit
    ensures a.budget.availableForOperations == a.budget.remaining && a.budget.afterAircraft == a.budget.remaining
    ensures a.budget.stationCosts == 0 && a.budget.personalCosts == 0
    ensures a.plan.stations == OrderedStations(reply, hub)
    ensures a.plan.budgetAnalysis.availableForOperations == a.budget.remaining
    ensures a.aircraftInfo.model == rec.model && a.aircraftInfo.quantity == rec.quantity
    ensures a.aircraftInfo.passengers.Some? <==> rec.aircraft.Some?
    ensures rec.aircraft.Some? ==>
      a.aircraftInfo.passengers == Some(rec.aircraft.value.passengers)
      && a.aircraftInfo.range == Some(rec.aircraft.value.range)
    ensures rec.aircraft.None? ==> a.aircraftInfo.range.None?
    ensures a.plan.topPriority == TopPriority(reply)
    ensures a.plan.estimatedTotalCost == 0 && a.plan.canAffordAll
    ensures a.plan.affordableStations == a.plan.stations
    ensures a.plan.recommendedFirst == (if a.plan.stations == [] then None else Some(a.plan.stations[0]))
    ensures a.plan.budgetAnalysis == BudgetAnalysis(a.budget.remaining, 0, 0, 0, true)
    ensures a.aiResponse == reply
  {
    var remaining := balance - rec.totalSecurityDeposit;
    var plan := ParseStationRecommendations(reply, hub, remaining);
    var info := AircraftInfo(
      rec.model, rec.quantity,
      if rec.aircraft.Some? then Some(rec.aircraft.value.passengers) else None,
      if rec.aircraft.Some? then Some(rec.aircraft.value.range) else None);
    a := StationAnalysis(plan, info, StationBudget(remaining, remaining, remaining, 0, 0), reply);
  }
}
