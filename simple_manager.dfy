/** `SimpleAircraftManager`: the older single-step purchase advice. The AI
    reply's recommendation is resolved by name overlap alone, then by the
    cheapest `A320neo`, then by the first offer; `manageFleet` only asks for
    advice when the fleet is empty and the market has offers. The fleet
    check, the market page and the AI reply are inputs. */
module SimpleManager {
  import opened Wrappers
  import opened JsText
  import opened Seqs
  import opened ReplyScan
  import opened NameMatch

  const DefaultReason: string := "AI-Empfehlung basierend auf Kosten-Nutzen-Analyse"
  const NoAircraftName: string := "Kein Flugzeug gefunden"
  /** The model family the first fallback prefers (matched case-sensitively). */
  const PreferredModel: string := "A320neo"

  /** One offer of the market page. */
  datatype Offer = Offer(
    model: string,
    passengers: int,
    cargo: string,
    range: string,
    speed: string,
    price: string,
    available: bool,
    onAuction: int,
    priceNumeric: int)

  /** The result of `parseAIRecommendation`. */
  datatype Recommendation = Recommendation(
    model: string,
    aircraft: Option<Offer>,
    quantity: nat,
    reasoning: string,
    totalCost: int,
    aiResponse: string)

  /** What `manageFleet` reports. */
  datatype FleetAction =
    | NoPurchaseNeeded
    | NoAircraftAvailable
    | PurchaseRecommended(recommendation: Recommendation, availableAircraft: seq<Offer>)

  function OfferModel(o: Offer): string { o.model }
  function OfferPrice(o: Offer): int { o.priceNumeric }

  /** The model names that the first fallback considers. */
  predicate Preferred(o: Offer) { Contains(o.model, PreferredModel) }

  /** `parseInt(s.replace(/[^\d]/g, '')) || 0`: the digits of `s`, in
      order, read as one decimal number, 0 when there are none. */
  function ParsePrice(s: string): (n: int)
    ensures n == DigitsValue(Filter(s, IsDigit))
    ensures OnlyDigits(s) == [] ==> n == 0
  {
    var ds := OnlyDigits(s);
    assert ds != [] ==> ParseInt(ds) == Some(DigitsValue(ds) as int) by {
      if ds != [] { ParseIntDigits(ds); }
    }
    ParseIntOrZero(ds)
  }

  /** Separators and currency signs are dropped wherever they stand:
      text without digits between two parts of a price changes nothing. */
  lemma ParsePriceIgnoresSeparators(a: string, sep: string, b: string)
    requires forall k :: 0 <= k < |sep| ==> !IsDigit(sep[k])
    ensures ParsePrice(a + sep + b) == ParsePrice(a + b)
  {
    assert Filter(a + sep + b, IsDigit) == Filter(a + b, IsDigit) by {
      FilterAppend(a + sep, b, IsDigit);
      FilterAppend(a, sep, IsDigit);
      FilterAppend(a, b, IsDigit);
      FilterNone(sep, IsDigit);
    }
  }

  /** Reading a price twice changes nothing: the digits of the digits are
      the digits. */
  lemma ParsePriceIdempotent(s: string)
    ensures ParsePrice(OnlyDigits(s)) == ParsePrice(s)
    ensures ParsePrice(s) >= 0
  {
    OnlyDigitsKeepsDigits(OnlyDigits(s));
  }

  /** One row of the market table: the text of each cell, and the text of
      the link in the first cell if it has one. */
  datatype Row = Row(cells: seq<string>, link: Option<string>)

  /** An offer as the market table yields it: its numeric price is the
      digits of its price text. */
  predicate Scraped(o: Offer) { o.priceNumeric == ParsePrice(o.price) && o.available }

  /** A row of eight or nine cells passes the `cells.length >= 8` guard but
      reads the missing ninth or tenth cell, so its `textContent` throws. */
  predicate Throws(row: Row) { 8 <= |row.cells| < 10 }

  /** The offer a row of at least ten cells yields: it is kept when the
      link text is not empty and the availability cell contains `yes` in
      any case. Every text is trimmed and the counts are read with
      `parseInt(..) || 0`. Shorter rows yield nothing. */
  function RowOffer(row: Row): (r: Option<Offer>)
    ensures r.Some? <==>
      |row.cells| >= 10 && Trim(row.link.GetOr("")) != "" && Contains(LowerStr(Trim(row.cells[8])), "yes")
    ensures r.Some? ==>
      var o := r.value;
      Scraped(o) && o.model != "" && row.link.Some? && o.model == Trim(row.link.value)
      && o.price == Trim(row.cells[7]) && o.passengers == ParseIntOrZero(Trim(row.cells[1]))
      && o.onAuction == ParseIntOrZero(Trim(row.cells[9]))
  {
    var cells := row.cells;
    if |cells| < 10 then None
    else
      var model := if row.link.Some? then Trim(row.link.value) else "";
      if model != "" && Contains(LowerStr(Trim(cells[8])), "yes") then
        var price := Trim(cells[7]);
        Some(Offer(model, ParseIntOrZero(Trim(cells[1])), Trim(cells[2]), Trim(cells[3]), Trim(cells[4]),
                   price, true, ParseIntOrZero(Trim(cells[9])), ParsePrice(price)))
      else None
  }

  /** The outcome of one row: fewer than eight cells are skipped, eight or
      nine cells throw, longer rows yield their offer if they have one. */
  function ScrapeRow(row: Row): (r: Result<Option<Offer>, string>)
    ensures r.Err? <==> Throws(row)
    ensures |row.cells| < 8 ==> r == Ok(None)
    ensures r.Ok? ==> r.value == RowOffer(row)
  {
    if Throws(row) then Err("TypeError: cannot read textContent of undefined")
    else Ok(RowOffer(row))
  }

  /** The market table read in row order: a row that throws aborts the
      whole page evaluation, otherwise every row's offer is kept in order. */
  function ScrapeRows(rows: seq<Row>): (r: Result<seq<Offer>, string>)
    ensures r.Err? <==> exists i :: 0 <= i < |rows| && ScrapeRow(rows[i]).Err?
    ensures r.Ok? ==> r.value == FilterMap(rows, RowOffer)
    ensures r.Ok? ==> forall o :: o in r.value ==> Scraped(o)
    ensures r.Ok? ==> |r.value| <= |rows|
  {
    if exists i :: 0 <= i < |rows| && Throws(rows[i]) then Err("TypeError: cannot read textContent of undefined")
    else
      var offers := FilterMap(rows, RowOffer);
      assert forall o :: o in offers ==> Scraped(o) by {
        forall o | o in offers ensures Scraped(o) {
          var k :| 0 <= k < |offers| && offers[k] == o;
          var j :| 0 <= j < |rows| && RowOffer(rows[j]) == Some(offers[k]);
        }
      }
      Ok(offers)
  }

  /** `filter(A320neo).sort(by price)[0]`: the cheapest `A320neo` offer,
      and since the sort is stable the earliest of the equally cheap ones. */
  function CheapestPreferred(offers: seq<Offer>): (r: Option<Offer>)
    ensures r.None? <==> forall o :: o in offers ==> !Preferred(o)
    ensures r.Some? ==> exists i :: FirstMinAt(offers, Preferred, OfferPrice, i) && r.value == offers[i]
  {
    var preferred := Filter(offers, Preferred);
    var sorted := SortBy(preferred, OfferPrice);
    if sorted == [] then None
    else
      SortByHead(preferred, OfferPrice);
      FilterFirstMin(offers, Preferred, OfferPrice);
      Some(sorted[0])
  }

  /** The cheapest `A320neo` is one of the offers, contains `A320neo`, and
      costs no more than any other `A320neo` offer. */
  lemma CheapestPreferredMin(offers: seq<Offer>)
    requires CheapestPreferred(offers).Some?
    ensures var r := CheapestPreferred(offers).value;
      r in offers && Contains(r.model, PreferredModel) &&
      forall o :: o in offers && Contains(o.model, PreferredModel) ==> r.priceNumeric <= o.priceNumeric
  {
    var i :| FirstMinAt(offers, Preferred, OfferPrice, i) && CheapestPreferred(offers).value == offers[i];
    forall o | o in offers && Contains(o.model, PreferredModel)
      ensures offers[i].priceNumeric <= o.priceNumeric
    {
      var j :| 0 <= j < |offers| && offers[j] == o;
      assert Preferred(offers[j]);
    }
  }

  /** The offer `parseAIRecommendation` recommends for the name `wanted`. */
  function RecommendedOffer(offers: seq<Offer>, wanted: string): (r: Option<Offer>)
    ensures r.Some? <==> offers != []
    ensures r.Some? ==> r.value in offers
  {
    match FindFirst(offers, (o: Offer) => Overlaps(o.model, wanted))
    case Some(i) => Some(offers[i])
    case None =>
      var neo := CheapestPreferred(offers);
      if neo.Some? then neo
      else if offers == [] then None
      else Some(offers[0])
  }

  /** The first offer whose name overlaps the recommendation is taken; there
      is no exact tier. */
  lemma RecommendFirstOverlap(offers: seq<Offer>, wanted: string, i: nat)
    requires i < |offers| && Overlaps(offers[i].model, wanted)
    requires forall j :: 0 <= j < i ==> !Overlaps(offers[j].model, wanted)
    ensures RecommendedOffer(offers, wanted) == Some(offers[i])
  {
    var f := FindFirst(offers, (o: Offer) => Overlaps(o.model, wanted));
    assert f.Some?;
  }

  /** A missing recommendation takes the first offer. */
  lemma RecommendWithoutName(offers: seq<Offer>)
    requires offers != []
    ensures RecommendedOffer(offers, "") == Some(offers[0])
  {
    EmptyOverlaps(offers[0].model);
    RecommendFirstOverlap(offers, "", 0);
  }

  /** Without an overlapping name the cheapest `A320neo` is taken, and
      without one of those the first offer. */
  lemma RecommendFallbacks(offers: seq<Offer>, wanted: string)
    requires offers != []
    requires forall j :: 0 <= j < |offers| ==> !Overlaps(offers[j].model, wanted)
    ensures var r := RecommendedOffer(offers, wanted).value;
      if exists o :: o in offers && Contains(o.model, PreferredModel) then
        exists i :: FirstMinAt(offers, Preferred, OfferPrice, i) && r == offers[i]
      else r == offers[0]
  {
    assert (exists o :: o in offers && Contains(o.model, PreferredModel)) <==> exists o :: o in offers && Preferred(o);
  }

  /** `parseAIRecommendation(aiResponse, availableAircraft)`: the offer
      for the trimmed `EMPFEHLUNG:` line; the quantity from the leftmost
      `ANZAHL:` label followed by digits (so `ANZAHL: zwei` alone gives 1);
      the reasoning from the leftmost `GRUND:` up to `KOSTEN:`. */
  function ParseAIRecommendation(reply: string, offers: seq<Offer>): (r: Recommendation)
    ensures r.aircraft == RecommendedOffer(offers, LineField(reply, "EMPFEHLUNG:").GetOr(""))
    ensures r.aircraft.Some? <==> offers != []
    ensures r.aircraft.Some? ==>
      r.aircraft.value in offers
      && r.model == r.aircraft.value.model && r.totalCost == r.aircraft.value.priceNumeric * r.quantity
    ensures r.aircraft.None? ==> r.model == NoAircraftName && r.totalCost == 0
    ensures r.quantity == DigitsOr(reply, "ANZAHL:", 1)
    ensures r.reasoning == LazyOr(reply, "GRUND:", ["KOSTEN:"], DefaultReason)
    ensures r.aiResponse == reply
  {
    var wanted := LineField(reply, "EMPFEHLUNG:").GetOr("");
    var quantity := DigitsOr(reply, "ANZAHL:", 1);
    var reason := LazyOr(reply, "GRUND:", ["KOSTEN:"], DefaultReason);
    var rec := RecommendedOffer(offers, wanted);
    Recommendation(
      if rec.Some? then rec.value.model else NoAircraftName,
      rec, quantity, reason,
      if rec.Some? then rec.value.priceNumeric * quantity else 0,
      reply)
  }

  /** For offers read from the market table the total is the listed price,
      read as digits, times the quantity. */
  lemma RecommendationCost(reply: string, offers: seq<Offer>)
    requires forall o :: o in offers ==> Scraped(o)
    requires offers != []
    ensures var r := ParseAIRecommendation(reply, offers);
      r.totalCost == ParsePrice(r.aircraft.value.price) * r.quantity
  {
  }

  /** The action `manageFleet` takes once the fleet check and the market
      page are known: no advice for an airline that already has aircraft,
      none for an empty market, advice otherwise. */
  function ManageFleet(fleetIsEmpty: bool, available: seq<Offer>, reply: string): (a: FleetAction)
    ensures a == NoPurchaseNeeded <==> !fleetIsEmpty
    ensures a == NoAircraftAvailable <==> fleetIsEmpty && available == []
    ensures a.PurchaseRecommended? ==>
      a.availableAircraft == available && a.recommendation.aircraft.Some?
      && a.recommendation.aircraft.value in available
    ensures a.PurchaseRecommended? ==> a.recommendation == ParseAIRecommendation(reply, available)
  {
    if !fleetIsEmpty then NoPurchaseNeeded
    else if available == [] then NoAircraftAvailable
    else PurchaseRecommended(ParseAIRecommendation(reply, available), available)
  }
}
