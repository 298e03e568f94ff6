/** The quotients the fallback tiers compare (`passengers / deposit`) as
    JavaScript computes them: a division by an integer that may be zero, so
    the value is a rational, `Infinity`, `-Infinity` or `NaN`, and `>` is
    false whenever `NaN` takes part. Rationals are compared by
    cross-multiplication. */
module Ratios {
  import opened Wrappers

  datatype Ratio = NaN | NegInf | PosInf | Fin(num: int, den: int)

  /** Every finite quotient has a positive denominator. */
  predicate WellFormed(r: Ratio) {
    r.Fin? ==> r.den > 0
  }

  /** `p / d` */
  function Div(p: int, d: int): (r: Ratio)
    ensures WellFormed(r)
    ensures r.Fin? <==> d != 0
    ensures r.Fin? ==> r.num * d == p * r.den
    ensures d == 0 ==> (r == NaN <==> p == 0) && (r == PosInf <==> p > 0) && (r == NegInf <==> p < 0)
  {
    if d > 0 then Fin(p, d)
    else if d < 0 then Fin(-p, -d)
    else if p > 0 then PosInf
    else if p < 0 then NegInf
    else NaN
  }

  /** `a > b` */
  predicate Greater(a: Ratio, b: Ratio) {
    match (a, b)
    case (NaN, _) => false
    case (_, NaN) => false
    case (PosInf, PosInf) => false
    case (PosInf, _) => true
    case (NegInf, _) => false
    case (Fin(_, _), PosInf) => false
    case (Fin(_, _), NegInf) => true
    case (Fin(p1, d1), Fin(p2, d2)) => p1 * d2 > p2 * d1
  }

  /** `>` is irreflexive and asymmetric. */
  lemma GreaterStrict(a: Ratio, b: Ratio)
    ensures !Greater(a, a)
    ensures Greater(a, b) ==> !Greater(b, a)
  {
  }

  lemma MulMonotone(x: int, y: int, k: int)
    requires x <= y && k > 0
    ensures x * k <= y * k
  {
    assert y * k - x * k == (y - x) * k;
  }

  lemma MulStrict(x: int, y: int, k: int)
    requires x < y && k > 0
    ensures x * k < y * k
  {
    assert y * k - x * k == (y - x) * k;
  }

  lemma MulCancel(x: int, y: int, k: int)
    requires x * k < y * k && k > 0
    ensures x < y
  {
    if x >= y {
      MulMonotone(y, x, k);
    }
  }

  /** `p1/d1 <= p2/d2 < p3/d3` gives `p1/d1 < p3/d3`. */
  lemma CrossThrough(p1: int, d1: int, p2: int, d2: int, p3: int, d3: int)
    requires d1 > 0 && d2 > 0 && d3 > 0
    requires p1 * d2 <= p2 * d1 && p2 * d3 < p3 * d2
    ensures p3 * d1 > p1 * d3
  {
    MulMonotone(p1 * d2, p2 * d1, d3);
    MulStrict(p2 * d3, p3 * d2, d1);
    assert p1 * d2 * d3 == (p1 * d3) * d2;
    assert p2 * d1 * d3 == p2 * d3 * d1;
    assert p3 * d2 * d1 == (p3 * d1) * d2;
    MulCancel(p1 * d3, p3 * d1, d2);
  }

  /** A value that is not above `b` is below everything above `b`. */
  lemma {:induction false} GreaterThrough(a: Ratio, b: Ratio, c: Ratio)
    requires WellFormed(a) && WellFormed(b) && WellFormed(c)
    requires a != NaN && !Greater(a, b) && Greater(c, b)
    ensures Greater(c, a)
  {
    if c.Fin? && b.Fin? && a.Fin? {
      CrossThrough(a.num, a.den, b.num, b.den, c.num, c.den);
    }
  }

  /** Position `r` of `s` is what `s.filter(ok).reduce((best, c) => f(c) >
      f(best) ? c : best)` keeps: it passes `ok`, no passing element is above
      it, and it is above every earlier passing element that is not `NaN`. */
  ghost predicate BestAt<T>(s: seq<T>, ok: T -> bool, f: T -> Ratio, r: int) {
    0 <= r < |s| && ok(s[r]) &&
    (forall j :: 0 <= j < |s| && ok(s[j]) ==> !Greater(f(s[j]), f(s[r]))) &&
    (forall j :: 0 <= j < r && ok(s[j]) ==> f(s[j]) == NaN || Greater(f(s[r]), f(s[j])))
  }

  /** `s.filter(ok).reduce((best, c) => f(c) > f(best) ? c : best)`, located
      in `s`: the position of the element the reduction keeps, `None` when no
      element passes (the source guards the empty case). The reduction
      starts from the first passing element, and nothing is above `NaN`, so
      a `NaN` there is kept. */
  function BestIdx<T>(s: seq<T>, ok: T -> bool, f: T -> Ratio): (r: Option<nat>)
    requires forall i :: 0 <= i < |s| ==> WellFormed(f(s[i]))
    ensures r.None? <==> forall j :: 0 <= j < |s| ==> !ok(s[j])
    ensures r.Some? ==> BestAt(s, ok, f, r.value)
    ensures r.Some? && f(s[r.value]) == NaN ==> forall j :: 0 <= j < r.value ==> !ok(s[j])
    ensures forall i :: 0 <= i < |s| && ok(s[i]) && f(s[i]) == NaN && (forall j :: 0 <= j < i ==> !ok(s[j])) ==>
                        r == Some(i)
    decreases |s|
  {
    if s == [] then None
    else
      var init := s[..|s| - 1];
      var b := BestIdx(init, ok, f);
      var c := s[|s| - 1];
      assert s == init + [c];
      assert forall j :: 0 <= j < |init| ==> s[j] == init[j];
      if !ok(c) then
        assert b.Some? ==> BestAt(s, ok, f, b.value) by {
          if b.Some? { BestKeep(init, c, ok, f, b.value); }
        }
        b
      else if b.None? then
        GreaterStrict(f(c), f(c));
        Some(|s| - 1)
      else if Greater(f(c), f(init[b.value])) then
        BestReplace(init, c, ok, f, b.value);
        Some(|s| - 1)
      else
        BestKeep(init, c, ok, f, b.value);
        b
  }

  /** The kept position stays when the appended element is not above it. */
  lemma BestKeep<T>(init: seq<T>, c: T, ok: T -> bool, f: T -> Ratio, b: nat)
    requires BestAt(init, ok, f, b)
    requires ok(c) ==> !Greater(f(c), f(init[b]))
    ensures BestAt(init + [c], ok, f, b)
  {
    var s := init + [c];
    assert forall j :: 0 <= j < |init| ==> s[j] == init[j];
  }

  /** An appended passing element above the kept one replaces it. */
  lemma BestReplace<T>(init: seq<T>, c: T, ok: T -> bool, f: T -> Ratio, b: nat)
    requires forall i :: 0 <= i < |init| ==> WellFormed(f(init[i]))
    requires WellFormed(f(c))
    requires BestAt(init, ok, f, b) && ok(c) && Greater(f(c), f(init[b]))
    ensures BestAt(init + [c], ok, f, |init|)
  {
    var s := init + [c];
    GreaterStrict(f(c), f(c));
    forall j | 0 <= j < |init| && ok(s[j])
      ensures !Greater(f(s[j]), f(c)) && (f(s[j]) == NaN || Greater(f(c), f(s[j])))
    {
      assert s[j] == init[j];
      if f(s[j]) != NaN {
        GreaterThrough(f(s[j]), f(init[b]), f(c));
        GreaterStrict(f(c), f(s[j]));
      }
    }
  }
}
