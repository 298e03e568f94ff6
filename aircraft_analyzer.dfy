/** `AircraftAIAnalyzer`: the two-step choice of an aircraft to lease. Step
    one reads the family the AI reply names and resolves it among the family
    groups, falling back on the affordable family with the most passengers
    per deposit unit, or on the cheapest family. Step two narrows the chosen
    family to the models near the target passenger count, keeps the twenty
    with the lowest deposits, resolves the recommended model the same way
    and computes the leasing totals. The AI replies are inputs. */
module AircraftAnalyzer {
  import opened Wrappers
  import opened JsText
  import opened Seqs
  import opened ReplyScan
  import opened Ratios
  import opened NameMatch
  import opened Catalog

  const DefaultFamilyReason: string := "AI-Empfehlung basierend auf Familie-Analyse"
  const DefaultTargetPassengers: nat := 150
  const DefaultModelReason: string := "AI-Empfehlung basierend auf Modell-Analyse"
  const NoAircraftName: string := "Kein Flugzeug gefunden"
  /** Models within this many passengers of the target are preferred. */
  const PassengerTolerance: nat := 50
  /** At most this many models are shown to the AI and resolved against. */
  const MaxAnalyzed: nat := 20

  /** The result of step one. */
  datatype FamilyChoice = FamilyChoice(
    selectedFamily: Option<Group>,
    reasoning: string,
    targetPassengers: nat,
    aiResponse: string)

  /** The result of step two. `aiSecurityEstimate` and `aiWeeklyEstimate`
      are `None` for `NaN`; the two warnings are the accuracy checks. */
  datatype ModelChoice = ModelChoice(
    model: string,
    aircraft: Option<Aircraft>,
    quantity: nat,
    reasoning: string,
    familyChoice: FamilyChoice,
    totalSecurityDeposit: int,
    weeklyRateCost: int,
    securityDepositPerUnit: int,
    weeklyRatePerUnit: int,
    totalCost: int,
    pricePerUnit: int,
    aiResponse: string,
    aiSecurityEstimate: Option<int>,
    aiWeeklyEstimate: Option<int>,
    securityWarning: bool,
    weeklyWarning: bool,
    analyzedAircraftCount: nat,
    totalAircraftInFamily: nat)

  /** Why `analyzeAircraftChoice` throws. */
  datatype AnalysisError = NoFamily | NoModel(family: string)

  function GroupName(g: Group): string { g.name }
  function ModelName(a: Aircraft): string { a.model }
  function MinDepositOf(g: Group): int { g.minSecurityDeposit }

  /** `maxPassengers / minSecurityDeposit` */
  function FamilyRatio(g: Group): Ratio { Div(g.maxPassengers, g.minSecurityDeposit) }

  /** `passengers / securityDeposit` */
  function ModelRatio(a: Aircraft): Ratio { Div(a.passengers, a.securityDeposit) }

  /** `deposit <= budget * 0.5`: half of the budget is kept for seating. */
  predicate Affordable(deposit: int, budget: int) { 2 * deposit <= budget }

  function Abs(x: int): nat { if x < 0 then -x else x }

  /** The filter `group.minSecurityDeposit <= budget * 0.5`. */
  function AffordableGroup(budget: int): Group -> bool {
    (g: Group) => Affordable(g.minSecurityDeposit, budget)
  }

  /** The filter `aircraft.securityDeposit <= budget * 0.5`. */
  function AffordableModel(budget: int): Aircraft -> bool {
    (a: Aircraft) => Affordable(a.securityDeposit, budget)
  }

  // ---------------------------------------------------------------------
  // Step one: the family

  /** The position of the family fallback: among the affordable families
      the one the ratio reduction keeps (the earliest of the best, or the
      first affordable family when its ratio is `NaN`), otherwise the first
      family with the least minimum deposit. */
  function FallbackFamily(groups: seq<Group>, budget: int): (k: nat)
    requires groups != []
    ensures k < |groups|
    ensures (exists j :: 0 <= j < |groups| && Affordable(groups[j].minSecurityDeposit, budget)) ==>
      BestAt(groups, AffordableGroup(budget), FamilyRatio, k)
    ensures forall i :: 0 <= i < |groups| && Affordable(groups[i].minSecurityDeposit, budget) &&
                        FamilyRatio(groups[i]) == NaN &&
                        (forall j :: 0 <= j < i ==> !Affordable(groups[j].minSecurityDeposit, budget)) ==>
                        k == i
    ensures (forall j :: 0 <= j < |groups| ==> !Affordable(groups[j].minSecurityDeposit, budget)) ==>
      (forall j :: 0 <= j < |groups| ==> groups[k].minSecurityDeposit <= groups[j].minSecurityDeposit) &&
      (forall j :: 0 <= j < k ==> groups[k].minSecurityDeposit < groups[j].minSecurityDeposit)
  {
    match BestIdx(groups, AffordableGroup(budget), FamilyRatio)
    case Some(k) => k
    case None => FirstMinIndex(groups, MinDepositOf)
  }

  /** The family `chooseBestFamily` selects for the name `wanted`. */
  function PickFamily(groups: seq<Group>, budget: int, wanted: string): (r: Option<Group>)
    ensures r.Some? <==> groups != []
    ensures r.Some? ==> r.value in groups
  {
    Pick(groups, GroupName, wanted, if groups == [] then None else Some(groups[FallbackFamily(groups, budget)]))
  }

  /** The fallback is used only when no family name overlaps the wanted one. */
  lemma PickFamilyFallback(groups: seq<Group>, budget: int, wanted: string)
    requires groups != []
    ensures (forall j :: 0 <= j < |groups| ==> !Overlaps(groups[j].name, wanted)) <==>
      PickFamily(groups, budget, wanted) == Some(groups[FallbackFamily(groups, budget)])
      && !Overlaps(groups[FallbackFamily(groups, budget)].name, wanted)
  {
    var fb := groups[FallbackFamily(groups, budget)];
    if exists j :: 0 <= j < |groups| && Overlaps(groups[j].name, wanted) {
      var r := PickFamily(groups, budget, wanted);
      assert Overlaps(GroupName(r.value), wanted);
    }
  }

  /** The family name the reply recommends: the trimmed capture of the
      leftmost `FAMILIE:` match, `''` when no position matches. */
  function WantedFamily(reply: string): (w: string)
    ensures (forall j :: 0 <= j <= |reply| ==> LineAt(reply, "FAMILIE:", j).None?) ==> w == ""
    ensures forall j :: 0 <= j <= |reply| && LineAt(reply, "FAMILIE:", j).Some? &&
                        (forall k :: 0 <= k < j ==> LineAt(reply, "FAMILIE:", k).None?) ==>
                        w == Trim(LineAt(reply, "FAMILIE:", j).value)
  {
    LineField(reply, "FAMILIE:").GetOr("")
  }

  /** The reasoning up to `PASSAGIER_ZIEL:` from the leftmost `GRUND:`
      match, the default text when no position matches. */
  function FamilyReason(reply: string): (t: string)
    ensures (forall j :: 0 <= j <= |reply| ==> LazyAt(reply, "GRUND:", ["PASSAGIER_ZIEL:"], j).None?) ==>
      t == DefaultFamilyReason
    ensures forall j :: 0 <= j <= |reply| && LazyAt(reply, "GRUND:", ["PASSAGIER_ZIEL:"], j).Some? &&
                        (forall k :: 0 <= k < j ==> LazyAt(reply, "GRUND:", ["PASSAGIER_ZIEL:"], k).None?) ==>
                        t == Trim(LazyAt(reply, "GRUND:", ["PASSAGIER_ZIEL:"], j).value)
  {
    LazyField(reply, "GRUND:", ["PASSAGIER_ZIEL:"]).GetOr(DefaultFamilyReason)
  }

  /** The target passenger count from the leftmost `PASSAGIER_ZIEL:` match
      followed by digits, 150 when no position matches (a label followed by
      a word is no match). */
  function TargetPassengers(reply: string): (n: nat)
    ensures (forall j :: 0 <= j <= |reply| ==> DigitsAt(reply, "PASSAGIER_ZIEL:", j).None?) ==>
      n == DefaultTargetPassengers
    ensures forall j :: 0 <= j <= |reply| && DigitsAt(reply, "PASSAGIER_ZIEL:", j).Some? &&
                        (forall k :: 0 <= k < j ==> DigitsAt(reply, "PASSAGIER_ZIEL:", k).None?) ==>
                        n == DigitsValue(DigitsAt(reply, "PASSAGIER_ZIEL:", j).value)
  {
    DigitsField(reply, "PASSAGIER_ZIEL:").GetOr(DefaultTargetPassengers)
  }

  /** `chooseBestFamily` with the AI reply `reply`. */
  function ChooseBestFamily(groups: seq<Group>, budget: int, reply: string): (c: FamilyChoice)
    ensures c.selectedFamily.Some? <==> groups != []
    ensures c.selectedFamily.Some? ==> c.selectedFamily.value in groups
    ensures c.aiResponse == reply
    ensures c.selectedFamily == PickFamily(groups, budget, WantedFamily(reply))
    ensures (forall j :: 0 <= j <= |reply| ==> DigitsAt(reply, "PASSAGIER_ZIEL:", j).None?) ==>
      c.targetPassengers == DefaultTargetPassengers
    ensures (forall j :: 0 <= j <= |reply| ==> LazyAt(reply, "GRUND:", ["PASSAGIER_ZIEL:"], j).None?) ==>
      c.reasoning == DefaultFamilyReason
    ensures c.targetPassengers == TargetPassengers(reply) && c.reasoning == FamilyReason(reply)
  {
    FamilyChoice(PickFamily(groups, budget, WantedFamily(reply)), FamilyReason(reply), TargetPassengers(reply), reply)
  }

  /** A reply without a `FAMILIE:` line selects the first family (family
      names are never empty). */
  lemma ChooseFamilyWithoutName(groups: seq<Group>, budget: int, reply: string)
    requires groups != [] && forall j :: 0 <= j < |groups| ==> groups[j].name != ""
    requires forall i :: 0 <= i <= |reply| ==> !LabelAt(reply, i, "FAMILIE:")
    ensures ChooseBestFamily(groups, budget, reply).selectedFamily == Some(groups[0])
  {
    var fb := if groups == [] then None else Some(groups[FallbackFamily(groups, budget)]);
    assert WantedFamily(reply) == "";
    PickEmptyName(groups, GroupName, fb);
  }

  // ---------------------------------------------------------------------
  // Step two: the model

  predicate NearTarget(a: Aircraft, target: int) {
    Abs(a.passengers - target) <= PassengerTolerance
  }

  /** The filter `Math.abs(aircraft.passengers - targetPassengers) <= 50`. */
  function NearTo(target: int): Aircraft -> bool {
    (a: Aircraft) => NearTarget(a, target)
  }

  /** The models analysed before the cut: those near the target passenger
      count in family order (a `Filter`, which keeps order and
      multiplicity), or the whole family when none is. */
  function Candidates(fam: seq<Aircraft>, target: int): (r: seq<Aircraft>)
    ensures r != [] <==> fam != []
    ensures forall a :: a in r ==> a in fam
    ensures (exists a :: a in fam && NearTarget(a, target)) ==> r == Filter(fam, NearTo(target))
    ensures (exists a :: a in fam && NearTarget(a, target)) ==>
      forall a :: a in r <==> a in fam && NearTarget(a, target)
    ensures (forall a :: a in fam ==> !NearTarget(a, target)) ==> r == fam
  {
    var near := Filter(fam, NearTo(target));
    assert near != [] ==> near[0] in fam && NearTarget(near[0], target);
    if near != [] then near else fam
  }

  /** The models shown to the AI: the candidates sorted by ascending
      deposit, at most twenty of them. */
  function TopModels(fam: seq<Aircraft>, target: int): (top: seq<Aircraft>)
    ensures |top| == Min(MaxAnalyzed, |Candidates(fam, target)|)
    ensures top != [] <==> fam != []
    ensures SortedBy(top, DepositOf)
    ensures forall a :: a in top ==> a in Candidates(fam, target)
    ensures multiset(top) <= multiset(Candidates(fam, target))
    ensures top == SortBy(Candidates(fam, target), DepositOf)[..|top|]
  {
    var sorted := SortBy(Candidates(fam, target), DepositOf);
    var n := Min(MaxAnalyzed, |sorted|);
    PrefixOfSorted(sorted, Candidates(fam, target), DepositOf, n);
    assert sorted == sorted[..n] + sorted[n..];
    sorted[..n]
  }

  /** The cut keeps the cheapest: no candidate left out has a lower deposit
      than a model that was kept. */
  lemma TopModelsCheapest(fam: seq<Aircraft>, target: int, a: Aircraft, b: Aircraft)
    requires a in TopModels(fam, target)
    requires b in Candidates(fam, target) && b !in TopModels(fam, target)
    ensures a.securityDeposit <= b.securityDeposit
  {
    var sorted := SortBy(Candidates(fam, target), DepositOf);
    var top := TopModels(fam, target);
    assert top == sorted[..|top|];
    assert b in multiset(sorted);
    var j :| 0 <= j < |sorted| && sorted[j] == b;
    var i :| 0 <= i < |top| && top[i] == a;
    assert j >= |top|;
    assert DepositOf(sorted[i]) <= DepositOf(sorted[j]);
  }

  /** The family's aircraft list after step two: when no model is near the
      target, `aircraftToAnalyze` is the family's own array, which the
      in-place `sort` leaves ordered by deposit. */
  function FamilyAfterSort(fam: seq<Aircraft>, target: int): (r: seq<Aircraft>)
    ensures multiset(r) == multiset(fam)
    ensures (exists a :: a in fam && NearTarget(a, target)) ==> r == fam
    ensures (forall a :: a in fam ==> !NearTarget(a, target)) ==> SortedBy(r, DepositOf)
  {
    var near := Filter(fam, NearTo(target));
    assert near != [] ==> near[0] in fam && NearTarget(near[0], target);
    if near != [] then fam else SortBy(fam, DepositOf)
  }

  /** The position of the model fallback: among the affordable models the
      one the ratio reduction keeps (the earliest of the best, or the first
      affordable model when its ratio is `NaN`), otherwise the first one,
      the cheapest of the sorted list. */
  function FallbackModel(top: seq<Aircraft>, budget: int): (k: nat)
    requires top != []
    ensures k < |top|
    ensures (exists j :: 0 <= j < |top| && Affordable(top[j].securityDeposit, budget)) ==>
      BestAt(top, AffordableModel(budget), ModelRatio, k)
    ensures forall i :: 0 <= i < |top| && Affordable(top[i].securityDeposit, budget) &&
                        ModelRatio(top[i]) == NaN &&
                        (forall j :: 0 <= j < i ==> !Affordable(top[j].securityDeposit, budget)) ==>
                        k == i
    ensures (forall j :: 0 <= j < |top| ==> !Affordable(top[j].securityDeposit, budget)) ==> k == 0
  {
    match BestIdx(top, AffordableModel(budget), ModelRatio)
    case Some(k) => k
    case None => 0
  }

  /** The model `chooseBestModel` selects for the name `wanted`. */
  function PickModel(top: seq<Aircraft>, budget: int, wanted: string): (r: Option<Aircraft>)
    ensures r.Some? <==> top != []
    ensures r.Some? ==> r.value in top
  {
    Pick(top, ModelName, wanted, if top == [] then None else Some(top[FallbackModel(top, budget)]))
  }

  /** The cheapest-first fallback is taken only when nothing is affordable
      and no model name overlaps the recommendation. */
  lemma PickModelCheapest(top: seq<Aircraft>, budget: int, wanted: string)
    requires top != []
    requires forall j :: 0 <= j < |top| ==> !Overlaps(top[j].model, wanted)
    requires forall j :: 0 <= j < |top| ==> !Affordable(top[j].securityDeposit, budget)
    ensures PickModel(top, budget, wanted) == Some(top[0])
  {
    assert forall j :: 0 <= j < |top| ==> !Overlaps(ModelName(top[j]), wanted);
  }

  /** `parseInt(m[1].replace(/,/g, ''))` of the `[\d,]+` field, 0 when the
      field is absent; `None` is the `NaN` of a capture made of commas only. */
  function Estimate(reply: string, key: string): (r: Option<int>)
    ensures r.None? <==> DigitCommaField(reply, key).Some? && StripCommas(DigitCommaField(reply, key).value) == []
    ensures DigitCommaField(reply, key).None? ==> r == Some(0)
    ensures r.Some? ==> r.value >= 0
    ensures forall t :: DigitCommaField(reply, key) == Some(t) && StripCommas(t) != [] ==>
      r == Some(DigitsValue(StripCommas(t)) as int)
  {
    match DigitCommaField(reply, key)
    case None => Some(0)
    case Some(t) =>
      var ds := StripCommas(t);
      assert ds != [] ==> ParseInt(ds) == Some(DigitsValue(ds) as int) by {
        if ds != [] { ParseIntDigits(ds); }
      }
      ParseInt(ds)
  }

  /** The accuracy check: a positive estimate off by more than a tenth of
      the computed total (`NaN` never warns). */
  predicate Inaccurate(total: int, estimate: Option<int>) {
    estimate.Some? && estimate.value > 0 && 10 * Abs(total - estimate.value) > total
  }

  /** An estimate equal to the computed total never warns; a positive one
      against a zero total always does. */
  lemma InaccurateBounds(total: int, e: int)
    ensures total >= 0 ==> !Inaccurate(total, Some(total))
    ensures e > 0 ==> Inaccurate(0, Some(e))
  {
  }

  /** `chooseBestModel(familyChoice.selectedFamily.aircraft, familyChoice,
      budget)` with the AI reply `reply`. */
  function ChooseBestModel(fc: FamilyChoice, budget: int, reply: string): (mc: ModelChoice)
    requires fc.selectedFamily.Some?
    ensures var fam := fc.selectedFamily.value.aircraft;
      (mc.aircraft.Some? <==> fam != []) && (mc.aircraft.Some? ==> mc.aircraft.value in fam)
    ensures mc.aircraft.Some? ==>
      var a := mc.aircraft.value;
      mc.model == a.model
      && mc.totalSecurityDeposit == a.securityDeposit * mc.quantity
      && mc.weeklyRateCost == a.weeklyRate * mc.quantity
      && mc.securityDepositPerUnit == a.securityDeposit && mc.weeklyRatePerUnit == a.weeklyRate
    ensures mc.aircraft.None? ==>
      mc.model == NoAircraftName && mc.totalSecurityDeposit == 0 && mc.weeklyRateCost == 0
      && mc.securityDepositPerUnit == 0 && mc.weeklyRatePerUnit == 0
    ensures mc.totalCost == mc.totalSecurityDeposit && mc.pricePerUnit == mc.securityDepositPerUnit
    ensures mc.securityWarning <==> Inaccurate(mc.totalSecurityDeposit, mc.aiSecurityEstimate)
    ensures mc.weeklyWarning <==> Inaccurate(mc.weeklyRateCost, mc.aiWeeklyEstimate)
    ensures mc.analyzedAircraftCount <= MaxAnalyzed
    ensures mc.totalAircraftInFamily == |fc.selectedFamily.value.aircraft|
    ensures var g := fc.selectedFamily.value;
      mc.familyChoice == fc.(selectedFamily := Some(g.(aircraft := FamilyAfterSort(g.aircraft, fc.targetPassengers))))
    ensures mc.aircraft == PickModel(TopModels(fc.selectedFamily.value.aircraft, fc.targetPassengers),
                                     budget, LineField(reply, "EMPFEHLUNG:").GetOr(""))
    ensures mc.analyzedAircraftCount == |TopModels(fc.selectedFamily.value.aircraft, fc.targetPassengers)|
    ensures mc.quantity == DigitsOr(reply, "ANZAHL:", 1)
    ensures mc.reasoning == LazyOr(reply, "GRUND:", ["SECURITY_DEPOSITS:"], DefaultModelReason)
    ensures mc.aiSecurityEstimate == Estimate(reply, "SECURITY_DEPOSITS:")
    ensures mc.aiWeeklyEstimate == Estimate(reply, "WOCHENKOSTEN:")
    ensures mc.aiResponse == reply
  {
    var g := fc.selectedFamily.value;
    var fam := g.aircraft;
    var top := TopModels(fam, fc.targetPassengers);
    var wanted := LineField(reply, "EMPFEHLUNG:").GetOr("");
    var quantity := DigitsOr(reply, "ANZAHL:", 1);
    var reason := LazyOr(reply, "GRUND:", ["SECURITY_DEPOSITS:"], DefaultModelReason);
    var rec := PickModel(top, budget, wanted);
    var deposit := if rec.Some? then rec.value.securityDeposit else 0;
    var weekly := if rec.Some? then rec.value.weeklyRate else 0;
    var totalDeposit := deposit * quantity;
    var totalWeekly := weekly * quantity;
    var securityEstimate := Estimate(reply, "SECURITY_DEPOSITS:");
    var weeklyEstimate := Estimate(reply, "WOCHENKOSTEN:");
    ModelChoice(
      if rec.Some? then rec.value.model else NoAircraftName,
      rec, quantity, reason,
      fc.(selectedFamily := Some(g.(aircraft := FamilyAfterSort(fam, fc.targetPassengers)))),
      totalDeposit, totalWeekly, deposit, weekly,
      totalDeposit, deposit, reply,
      securityEstimate, weeklyEstimate,
      Inaccurate(totalDeposit, securityEstimate), Inaccurate(totalWeekly, weeklyEstimate),
      |top|, |fam|)
  }

  /** A top model whose name equals the `EMPFEHLUNG:` line, ignoring case,
      is leased when no earlier top model has that name, whatever the
      budget. */
  lemma ChooseModelExact(fc: FamilyChoice, budget: int, reply: string, i: nat)
    requires fc.selectedFamily.Some?
    requires var top := TopModels(fc.selectedFamily.value.aircraft, fc.targetPassengers);
      var wanted := LineField(reply, "EMPFEHLUNG:").GetOr("");
      i < |top| && SameName(top[i].model, wanted)
      && forall j :: 0 <= j < i ==> !SameName(top[j].model, wanted)
    ensures ChooseBestModel(fc, budget, reply).aircraft ==
            Some(TopModels(fc.selectedFamily.value.aircraft, fc.targetPassengers)[i])
  {
    var top := TopModels(fc.selectedFamily.value.aircraft, fc.targetPassengers);
    var wanted := LineField(reply, "EMPFEHLUNG:").GetOr("");
    PickExact(top, ModelName, wanted, Some(top[FallbackModel(top, budget)]), i);
  }

  /** The figures the reply states do not change the totals: two replies
      that recommend the same name and quantity lease the same aircraft at
      the same cost. */
  lemma TotalsIgnoreEstimates(fc: FamilyChoice, budget: int, reply1: string, reply2: string)
    requires fc.selectedFamily.Some?
    requires LineField(reply1, "EMPFEHLUNG:") == LineField(reply2, "EMPFEHLUNG:")
    requires DigitsField(reply1, "ANZAHL:") == DigitsField(reply2, "ANZAHL:")
    ensures var m1 := ChooseBestModel(fc, budget, reply1);
      var m2 := ChooseBestModel(fc, budget, reply2);
      m1.aircraft == m2.aircraft && m1.quantity == m2.quantity
      && m1.totalSecurityDeposit == m2.totalSecurityDeposit && m1.weeklyRateCost == m2.weeklyRateCost
  {
  }

  // ---------------------------------------------------------------------
  // Both steps

  /** `if (!budget) budget = Math.floor(balance * 0.6)`: a missing or zero
      budget becomes sixty percent of the balance, rounded down. */
  function AnalysisBudget(balance: int, budget: Option<int>): (b: int)
    ensures budget.None? || budget == Some(0) ==> 10 * b <= 6 * balance < 10 * (b + 1)
    ensures budget.Some? && budget.value != 0 ==> b == budget.value
  {
    if budget.None? || budget == Some(0) then (6 * balance) / 10 else budget.value
  }

  /** A family taken from the grouped catalog always yields a model, an
      aircraft of the catalog and of that family. */
  lemma ModelOfGroup(all: seq<Aircraft>, fc: FamilyChoice, budget: int, reply: string)
    requires fc.selectedFamily.Some? && fc.selectedFamily.value in Groups(all)
    ensures var mc := ChooseBestModel(fc, budget, reply);
      mc.aircraft.Some? && mc.aircraft.value in all
      && mc.familyChoice.selectedFamily.Some?
      && mc.aircraft.value.family == mc.familyChoice.selectedFamily.value.name
  {
    var g := fc.selectedFamily.value;
    GroupOfFamily(all, g);
    var mc := ChooseBestModel(fc, budget, reply);
    assert mc.aircraft.value in g.aircraft;
  }

  /** `analyzeAircraftChoice`: group the catalog, choose a family, then a
      model within it; an error where the source throws. */
  function AnalyzeAircraftChoice(all: seq<Aircraft>, balance: int, budget: Option<int>,
                                 familyReply: string, modelReply: string): (r: Result<ModelChoice, AnalysisError>)
    ensures r.Err? <==> all == []
    ensures r.Err? ==> r.error == NoFamily
    ensures r.Ok? ==> r.value.aircraft.Some? && r.value.aircraft.value in all
    ensures r.Ok? ==>
      r.value.familyChoice.selectedFamily.Some?
      && r.value.aircraft.value.family == r.value.familyChoice.selectedFamily.value.name
    ensures all != [] ==>
      var b := AnalysisBudget(balance, budget);
      var fc := ChooseBestFamily(Groups(all), b, familyReply);
      fc.selectedFamily.Some? && r == Ok(ChooseBestModel(fc, b, modelReply))
  {
    var b := AnalysisBudget(balance, budget);
    var groups := Groups(all);
    var fc := ChooseBestFamily(groups, b, familyReply);
    if fc.selectedFamily.None? then
      Err(NoFamily)
    else
      var g := fc.selectedFamily.value;
      var mc := ChooseBestModel(fc, b, modelReply);
      ModelOfGroup(all, fc, b, modelReply);
      if mc.aircraft.None? then Err(NoModel(g.name))
      else Ok(mc)
  }
}
