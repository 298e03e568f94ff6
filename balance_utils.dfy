/** `BalanceUtils`: the checks other modules run on the balance. A check
    reads the balance, saves it to the history, and then judges an amount
    against it or works out how much of it is safe to spend. Amount
    formatting is reduced to the parts that are decided: the status mark,
    the currency and the number. */
module BalanceUtils {
  import opened Wrappers
  import opened JsText
  import opened Seqs
  import opened BalanceService

  /** `getSafeSpendingAmount`'s default percentage. */
  const DefaultSpendingPercentage: int := 80
  const PositiveMark: string := "✅"
  const NegativeMark: string := "❌"

  /** The recommendation `canAfford` gives: approval, or how much more is
      needed. */
  datatype Advice = PurchaseApproved | NeedMore(amount: int)

  /** The result of `canAfford`: the balance and the verdict on `requiredAmount`. */
  datatype Affordability = Affordability(
    balance: BalanceInfo,
    requiredAmount: int,
    canAfford: bool,
    shortfall: int,
    recommendation: Advice)

  /** The result of `getSafeSpendingAmount`. */
  datatype SafeSpending = SafeSpending(
    balance: BalanceInfo,
    safeSpendingAmount: int,
    reservedAmount: int,
    spendingPercentage: int)

  /** `formatBalance`: status mark, currency and amount. */
  datatype Formatted = Formatted(status: string, currency: string, amount: int)

  /** The requirement line of `logBalanceCheck`. */
  datatype Requirement = Requirement(amount: int, approved: bool)

  /** What `logBalanceCheck` writes. */
  datatype CheckLine = CheckLine(context: string, formatted: Formatted, requirement: Option<Requirement>)

  /** The verdict of `canAfford` on a balance already read. */
  function Affordable(b: BalanceInfo, amount: int): (r: Affordability)
    ensures r.balance == b && r.requiredAmount == amount
    ensures r.canAfford <==> b.amount >= amount
    ensures r.shortfall >= 0
    ensures r.shortfall == 0 <==> r.canAfford
    ensures b.amount + r.shortfall >= amount
    ensures !r.canAfford ==> b.amount + r.shortfall == amount
    ensures r.recommendation == PurchaseApproved <==> r.canAfford
    ensures r.recommendation.NeedMore? ==> r.recommendation.amount == r.shortfall
  {
    var ok := b.amount >= amount;
    Affordability(b, amount, ok,
      if amount - b.amount > 0 then amount - b.amount else 0,
      if ok then PurchaseApproved else NeedMore(amount - b.amount))
  }

  /** A larger balance affords whatever a smaller one does, and falls short
      by no more. */
  lemma AffordableMonotone(b1: BalanceInfo, b2: BalanceInfo, amount: int)
    requires b1.amount <= b2.amount
    ensures Affordable(b1, amount).canAfford ==> Affordable(b2, amount).canAfford
    ensures Affordable(b2, amount).shortfall <= Affordable(b1, amount).shortfall
  {
    var r1 := Affordable(b1, amount);
    var r2 := Affordable(b2, amount);
    if !r2.canAfford {
      assert b2.amount + r2.shortfall == amount;
      assert b1.amount + r1.shortfall >= amount;
    }
  }

  /** The safe amount of `getSafeSpendingAmount` on a balance already read:
      `percentage` percent of the balance rounded down, the rest reserved. */
  function SafeSpendingOf(b: BalanceInfo, percentage: int): (r: SafeSpending)
    ensures r.balance == b && r.spendingPercentage == percentage
    ensures r.safeSpendingAmount + r.reservedAmount == b.amount
    ensures r.safeSpendingAmount * 100 <= b.amount * percentage < (r.safeSpendingAmount + 1) * 100
  {
    var safe := (b.amount * percentage) / 100;
    SafeSpending(b, safe, b.amount - safe, percentage)
  }

  /** For a balance that is not negative and a percentage from 0 to 100 the
      safe amount and the reserve are both between 0 and the balance, and a
      higher percentage frees at least as much. */
  lemma SafeSpendingBounds(b: BalanceInfo, p: int, q: int)
    requires b.amount >= 0 && 0 <= p <= q <= 100
    ensures var r := SafeSpendingOf(b, p);
      0 <= r.safeSpendingAmount <= b.amount && 0 <= r.reservedAmount <= b.amount
    ensures SafeSpendingOf(b, p).safeSpendingAmount <= SafeSpendingOf(b, q).safeSpendingAmount
  {
    var a := b.amount;
    ScaleMonotone(a, 0, p);
    ScaleMonotone(a, p, q);
    ScaleMonotone(a, p, 100);
    var x := a * p;
    var y := a * q;
    var z := a * 100;
    assert z / 100 == a;
    HundredthsMonotone(0, x);
    HundredthsMonotone(x, y);
    HundredthsMonotone(x, z);
    assert SafeSpendingOf(b, p).safeSpendingAmount == x / 100;
    assert SafeSpendingOf(b, q).safeSpendingAmount == y / 100;
  }

  /** Scaling by a balance that is not negative keeps the order. */
  lemma ScaleMonotone(a: int, p: int, q: int)
    requires a >= 0 && p <= q
    ensures a * p <= a * q
  {
    assert a * q - a * p == a * (q - p);
  }

  /** Rounding down to hundredths keeps the order. */
  lemma HundredthsMonotone(x: int, y: int)
    requires x <= y
    ensures x / 100 <= y / 100
  {
  }

  /** `formatBalance` */
  function FormatBalance(b: BalanceInfo): (f: Formatted)
    ensures f.status == PositiveMark <==> b.isPositive
    ensures f.status == NegativeMark <==> !b.isPositive
    ensures f.currency == b.currency && f.amount == b.amount
  {
    Formatted(if b.isPositive then PositiveMark else NegativeMark, b.currency, b.amount)
  }

  /** `logBalanceCheck(context, balanceInfo, { requiredAmount })`: the
      requirement line appears only for a required amount that is present
      and not 0, and approves it when the balance covers it. */
  function LogBalanceCheck(context: string, b: BalanceInfo, requiredAmount: Option<int>): (r: CheckLine)
    ensures r.context == context && r.formatted == FormatBalance(b)
    ensures r.requirement.None? <==> requiredAmount.None? || requiredAmount.value == 0
    ensures r.requirement.Some? ==>
      r.requirement.value.amount == requiredAmount.value
      && (r.requirement.value.approved <==> Affordable(b, requiredAmount.value).canAfford)
  {
    CheckLine(context, FormatBalance(b),
      match requiredAmount
      case Some(x) => if x != 0 then Some(Requirement(x, b.amount >= x)) else None
      case None => None)
  }

  /** A balance read from a `good` span is shown with the positive mark and
      is not negative; one read from a `bad` span with a nonzero amount is
      shown with the negative mark and is below 0. */
  lemma StatusMatchesSign(link: BalanceLink, good: bool, ds: string, now: int, url: string)
    requires link.amountSpan == Some(AmountSpan(good, ds))
    requires ds != [] && IsDigit(ds[0])
    requires forall i :: 0 <= i < |ds| ==> IsDigitOrComma(ds[i])
    ensures var r := GetCurrentBalance(Some(link), now, url);
      r.Ok? && (FormatBalance(r.value).status == PositiveMark <==> good)
      && (good ==> r.value.amount >= 0)
      && (!good && DigitsValue(StripCommas(ds)) != 0 ==> r.value.amount < 0)
  {
    GroupedAmount(link, good, ds, now, url);
  }

  /** `quickBalanceCheck`: reads the balance (at `readAt`) and saves it to
      the history (at `savedAt`); a balance that cannot be read leaves the
      history alone. */
  method QuickBalanceCheck(service: BalanceHistory, link: Option<BalanceLink>, url: string, readAt: int, savedAt: int)
    returns (r: Result<BalanceInfo, BalanceError>)
    modifies service
    ensures r == GetCurrentBalance(link, readAt, url)
    ensures r.Err? ==> service.file == old(service.file)
    ensures r.Ok? ==>
      service.file == Entries(Last(old(service.History()) + [HistoryEntry(r.value, savedAt)], MaxHistory))
  {
    r := GetCurrentBalance(link, readAt, url);
    if r.Ok? {
      var _, _ := service.SaveBalanceHistory(r.value, savedAt);
    }
  }

  /** `canAfford(page, amount)` */
  method CanAfford(service: BalanceHistory, link: Option<BalanceLink>, url: string, readAt: int, savedAt: int, amount: int)
    returns (r: Result<Affordability, BalanceError>)
    modifies service
    ensures var b := GetCurrentBalance(link, readAt, url);
      if b.Ok? then r == Ok(Affordable(b.value, amount)) else r == Err(b.error)
    ensures r.Err? ==> service.file == old(service.file)
    ensures var b := GetCurrentBalance(link, readAt, url);
      b.Ok? ==> service.file == Entries(Last(old(service.History()) + [HistoryEntry(b.value, savedAt)], MaxHistory))
  {
    var b := QuickBalanceCheck(service, link, url, readAt, savedAt);
    if b.Ok? {
      r := Ok(Affordable(b.value, amount));
    } else {
      r := Err(b.error);
    }
  }

  /** `getSafeSpendingAmount(page, percentage = 80)`: a missing
      percentage is `DefaultSpendingPercentage`. */
  method GetSafeSpendingAmount(service: BalanceHistory, link: Option<BalanceLink>, url: string, readAt: int, savedAt: int, percentage: Option<int>)
    returns (r: Result<SafeSpending, BalanceError>)
    modifies service
    ensures var b := GetCurrentBalance(link, readAt, url);
      if b.Ok? then r == Ok(SafeSpendingOf(b.value, percentage.GetOr(DefaultSpendingPercentage))) else r == Err(b.error)
    ensures r.Ok? && percentage.None? ==> r.value.spendingPercentage == DefaultSpendingPercentage
    ensures r.Err? ==> service.file == old(service.file)
    ensures var b := GetCurrentBalance(link, readAt, url);
      b.Ok? ==> service.file == Entries(Last(old(service.History()) + [HistoryEntry(b.value, savedAt)], MaxHistory))
  {
    var b := QuickBalanceCheck(service, link, url, readAt, savedAt);
    if b.Ok? {
      r := Ok(SafeSpendingOf(b.value, percentage.GetOr(DefaultSpendingPercentage)));
    } else {
      r := Err(b.error);
    }
  }

  /** `getBalanceStats` */
  method GetBalanceStats(service: BalanceHistory) returns (s: Statistics)
    ensures s == StatisticsOf(LatestEntries(service.History(), StatisticsLimit))
  {
    s := service.GetBalanceStatistics();
  }
}
