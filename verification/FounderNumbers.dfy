/**
 The founders' deal counts (app/modules/admin/numbers_service.py) over Tamil Nadu days
 (app/core/clock.py). Moments are microseconds UTC; a day is counted from the same origin.
 */
module FounderNumbers {
  import Clocks = ReportClocks

  /** IST is UTC+05:30, all year. */
  const OFFSET := 5 * Clocks.HOUR + 30 * Clocks.MINUTE

  /** india_date: `/` rounds down here, whatever the sign. */
  function IndiaDate(moment: int): int {
    (moment + OFFSET) / Clocks.DAY
  }

  /** Midnight at the start of `day` in Tamil Nadu. */
  function Start(day: int): int {
    day * Clocks.DAY - OFFSET
  }

  predicate In(moment: int, start: int, end: int) {
    start <= moment < end
  }

  lemma InDays(moment: int, first: int, last: int)
    ensures In(moment, Start(first), Start(last + 1)) <==> first <= IndiaDate(moment) <= last
    ensures Start(first) == (first * 24 * 60 - (5 * 60 + 30)) * 60 * 1_000_000
    ensures IndiaDate(moment) == first <==>
            first * 24 * 3_600_000_000 <= moment + 5 * 3_600_000_000 + 1_800_000_000 < (first + 1) * 24 * 3_600_000_000
  {
    var rest := (moment + OFFSET) % Clocks.DAY;
    assert moment + OFFSET == IndiaDate(moment) * Clocks.DAY + rest;
  }

  datatype Period = Period(first: int, last: int)

  /** founder_numbers: the period ending on a day, and the same length before it. */
  function Current(endingOn: int, days: int): Period {
    Period(endingOn - (days - 1), endingOn)
  }

  function Previous(endingOn: int, days: int): Period {
    var beforeLast := Current(endingOn, days).first - 1;
    Period(beforeLast - (days - 1), beforeLast)
  }

  predicate Within(moment: int, p: Period) {
    In(moment, Start(p.first), Start(p.last + 1))
  }

  /** The two periods are `days` days each, and between them cover the last 2 * days days, every
      moment of them once. */
  lemma PeriodsTile(moment: int, endingOn: int, days: int)
    requires days >= 1
    ensures var current, previous := Current(endingOn, days), Previous(endingOn, days);
            && current.last - current.first + 1 == days == previous.last - previous.first + 1
            && !(Within(moment, current) && Within(moment, previous))
            && (Within(moment, current) || Within(moment, previous)
                <==> endingOn - 2 * days < IndiaDate(moment) <= endingOn)
  {
    InDays(moment, Current(endingOn, days).first, Current(endingOn, days).last);
    InDays(moment, Previous(endingOn, days).first, Previous(endingOn, days).last);
  }

  // ---- repeat deals --------------------------------------------------------------------------------

  datatype Deal = Deal(id: nat, brand: nat, creator: nat, acceptedAt: int)

  function Pair(d: Deal): (nat, nat) {
    (d.brand, d.creator)
  }

  /** The EXISTS of _deals: over every deal there is, whatever the period or the city. */
  predicate AgreedBefore(deals: set<Deal>, d: Deal) {
    exists e :: e in deals && Pair(e) == Pair(d) && e.acceptedAt < d.acceptedAt
  }

  datatype Counts = Counts(deals: nat, repeats: nat)

  /** _deals: `wanted` is the city filter. */
  function DealsIn(deals: set<Deal>, start: int, end: int, wanted: Deal -> bool): set<Deal> {
    set d | d in deals && In(d.acceptedAt, start, end) && wanted(d)
  }

  function RepeatsIn(deals: set<Deal>, start: int, end: int, wanted: Deal -> bool): set<Deal> {
    set d | d in DealsIn(deals, start, end, wanted) && AgreedBefore(deals, d)
  }

  function CountsIn(deals: set<Deal>, start: int, end: int, wanted: Deal -> bool): Counts {
    Counts(|DealsIn(deals, start, end, wanted)|, |RepeatsIn(deals, start, end, wanted)|)
  }

  /** The counts of the periods between consecutive days of `bounds`, added up. */
  function Total(deals: set<Deal>, bounds: seq<int>, wanted: Deal -> bool): Counts
    decreases |bounds|
  {
    if |bounds| < 2 then Counts(0, 0)
    else
      var here := CountsIn(deals, Start(bounds[0]), Start(bounds[1]), wanted);
      var rest := Total(deals, bounds[1..], wanted);
      Counts(here.deals + rest.deals, here.repeats + rest.repeats)
  }

  predicate InOrder(bounds: seq<int>) {
    forall i :: 0 < i < |bounds| ==> bounds[i - 1] <= bounds[i]
  }

  lemma CountsAdd(deals: set<Deal>, a: int, b: int, c: int, wanted: Deal -> bool)
    requires a <= b <= c
    ensures CountsIn(deals, a, c, wanted).deals
            == CountsIn(deals, a, b, wanted).deals + CountsIn(deals, b, c, wanted).deals
    ensures CountsIn(deals, a, c, wanted).repeats
            == CountsIn(deals, a, b, wanted).repeats + CountsIn(deals, b, c, wanted).repeats
  {
    assert DealsIn(deals, a, c, wanted) == DealsIn(deals, a, b, wanted) + DealsIn(deals, b, c, wanted);
    assert DealsIn(deals, a, b, wanted) !! DealsIn(deals, b, c, wanted);
    assert RepeatsIn(deals, a, c, wanted) == RepeatsIn(deals, a, b, wanted) + RepeatsIn(deals, b, c, wanted);
    assert RepeatsIn(deals, a, b, wanted) !! RepeatsIn(deals, b, c, wanted);
  }

  lemma StartsInOrder(a: int, b: int)
    requires a <= b
    ensures Start(a) <= Start(b)
  {}

  /** Cutting time into periods loses and doubles nothing. */
  lemma {:induction false} TotalIsTheWhole(deals: set<Deal>, bounds: seq<int>, wanted: Deal -> bool)
    requires bounds != [] && InOrder(bounds)
    ensures bounds[0] <= bounds[|bounds| - 1]
    ensures Total(deals, bounds, wanted)
            == CountsIn(deals, Start(bounds[0]), Start(bounds[|bounds| - 1]), wanted)
    decreases |bounds|
  {
    if |bounds| == 1 {
      assert DealsIn(deals, Start(bounds[0]), Start(bounds[0]), wanted) == {};
      assert RepeatsIn(deals, Start(bounds[0]), Start(bounds[0]), wanted) == {};
    } else {
      TotalIsTheWhole(deals, bounds[1..], wanted);
      StartsInOrder(bounds[0], bounds[1]);
      StartsInOrder(bounds[1], bounds[|bounds| - 1]);
      CountsAdd(deals, Start(bounds[0]), Start(bounds[1]), Start(bounds[|bounds| - 1]), wanted);
    }
  }

  // ---- deals less repeats --------------------------------------------------------------------------

  function Firsts(deals: set<Deal>): set<Deal> {
    set d | d in deals && !AgreedBefore(deals, d)
  }

  function Pairs(deals: set<Deal>): set<(nat, nat)> {
    set d | d in deals :: Pair(d)
  }

  /** No deal between this brand and this creator was agreed sooner. */
  predicate FirstOfItsPair(deals: set<Deal>, d: Deal) {
    forall e :: e in deals && e.brand == d.brand && e.creator == d.creator ==> d.acceptedAt <= e.acceptedAt
  }

  /** Two deals of one brand and creator at one moment, and none of theirs before it. */
  predicate TiedAtFirst(deals: set<Deal>, d: Deal, e: Deal) {
    && d in deals && e in deals && d != e && d.brand == e.brand && d.creator == e.creator
    && d.acceptedAt == e.acceptedAt && FirstOfItsPair(deals, d)
  }

  lemma NotAgreedBefore(deals: set<Deal>, d: Deal)
    ensures AgreedBefore(deals, d) <==> !FirstOfItsPair(deals, d)
  {
    if !FirstOfItsPair(deals, d) {
      var e :| e in deals && e.brand == d.brand && e.creator == d.creator && e.acceptedAt < d.acceptedAt;
      assert Pair(e) == Pair(d);
    }
  }

  /** Every deal's pair has a first deal. */
  lemma {:induction false} HasAFirst(deals: set<Deal>, d: Deal) returns (first: Deal)
    requires d in deals
    ensures first in Firsts(deals) && Pair(first) == Pair(d)
    decreases |set e | e in deals && e.acceptedAt < d.acceptedAt|
  {
    if AgreedBefore(deals, d) {
      var e :| e in deals && Pair(e) == Pair(d) && e.acceptedAt < d.acceptedAt;
      var below, belowE := set x | x in deals && x.acceptedAt < d.acceptedAt, set x | x in deals && x.acceptedAt < e.acceptedAt;
      assert below == belowE + (below - belowE) && e in below - belowE;
      first := HasAFirst(deals, e);
    } else {
      first := d;
    }
  }

  function PairsOf(some: set<Deal>): set<(nat, nat)> {
    set d | d in some :: Pair(d)
  }

  predicate PairsApart(some: set<Deal>) {
    forall d, e :: d in some && e in some && Pair(d) == Pair(e) ==> d == e
  }

  /** There are at most as many pairs as deals, and as many exactly when no two share one. */
  lemma {:induction false} PairsCounted(some: set<Deal>)
    ensures |PairsOf(some)| <= |some|
    ensures |PairsOf(some)| == |some| <==> PairsApart(some)
  {
    if some != {} {
      var d :| d in some;
      var rest := some - {d};
      PairsCounted(rest);
      assert PairsOf(some) == PairsOf(rest) + {Pair(d)};
      if Pair(d) in PairsOf(rest) {
        assert PairsOf(some) == PairsOf(rest);
        var e :| e in rest && Pair(e) == Pair(d);
        assert d in some && e in some && d != e;
      } else {
        forall x, y | x in some && y in some && Pair(x) == Pair(y) && PairsApart(rest) ensures x == y {
          assert x != d ==> x in rest && Pair(x) in PairsOf(rest);
          assert y != d ==> y in rest && Pair(y) in PairsOf(rest);
        }
        assert PairsApart(some) ==> PairsApart(rest);
      }
    }
  }

  /** Over any periods that tile the time of every deal, with no city asked for: deals less
      repeats is at least the number of brand-and-creator pairs, and exactly it if and only if no
      pair has two deals tied at its first moment. */
  lemma RepeatsConserved(deals: set<Deal>, bounds: seq<int>)
    requires bounds != [] && InOrder(bounds)
    requires forall d :: d in deals ==> In(d.acceptedAt, Start(bounds[0]), Start(bounds[|bounds| - 1]))
    ensures var total := Total(deals, bounds, _ => true);
            && total.deals == |deals|
            && total.deals - total.repeats >= |Pairs(deals)|
            && (total.deals - total.repeats == |Pairs(deals)| <==> forall d, e :: !TiedAtFirst(deals, d, e))
  {
    TotalIsTheWhole(deals, bounds, _ => true);
    var a, b := Start(bounds[0]), Start(bounds[|bounds| - 1]);
    assert DealsIn(deals, a, b, _ => true) == deals;
    var repeats := RepeatsIn(deals, a, b, _ => true);
    assert deals == Firsts(deals) + repeats && Firsts(deals) !! repeats;
    FirstsCoverPairs(deals);
    PairsCounted(Firsts(deals));
    ApartUnlessTied(deals);
  }

  lemma FirstsCoverPairs(deals: set<Deal>)
    ensures PairsOf(Firsts(deals)) == Pairs(deals)
  {
    forall p | p in Pairs(deals) ensures p in PairsOf(Firsts(deals)) {
      var d :| d in deals && Pair(d) == p;
      var first := HasAFirst(deals, d);
    }
  }

  lemma TiedAreFirsts(deals: set<Deal>, d: Deal, e: Deal)
    requires TiedAtFirst(deals, d, e)
    ensures d in Firsts(deals) && e in Firsts(deals) && Pair(d) == Pair(e)
  {
    NotAgreedBefore(deals, d);
    NotAgreedBefore(deals, e);
  }

  lemma ApartUnlessTied(deals: set<Deal>)
    ensures PairsApart(Firsts(deals)) <==> forall d, e :: !TiedAtFirst(deals, d, e)
  {
    forall d ensures AgreedBefore(deals, d) <==> !FirstOfItsPair(deals, d) {
      NotAgreedBefore(deals, d);
    }
    if PairsApart(Firsts(deals)) {
      forall d, e | TiedAtFirst(deals, d, e) ensures false {
        TiedAreFirsts(deals, d, e);
      }
    }
    forall d, e | d in Firsts(deals) && e in Firsts(deals) && Pair(d) == Pair(e) && d != e
      ensures TiedAtFirst(deals, d, e)
    {
      assert !AgreedBefore(deals, d) && !AgreedBefore(deals, e);
    }
  }

  /** In any period and city, the deals counted are those agreed in it there, and deals less repeats
      those of them that were the first anywhere of their brand and creator. */
  lemma RepeatsInACity(deals: set<Deal>, start: int, end: int, wanted: Deal -> bool)
    ensures CountsIn(deals, start, end, wanted).deals
            == |set d | d in deals && start <= d.acceptedAt < end && wanted(d)|
    ensures CountsIn(deals, start, end, wanted).deals - CountsIn(deals, start, end, wanted).repeats
            == |set d | d in deals && start <= d.acceptedAt < end && wanted(d) && FirstOfItsPair(deals, d)|
  {
    var all := DealsIn(deals, start, end, wanted);
    var firsts := set d | d in deals && start <= d.acceptedAt < end && wanted(d) && FirstOfItsPair(deals, d);
    forall d ensures AgreedBefore(deals, d) <==> !FirstOfItsPair(deals, d) {
      NotAgreedBefore(deals, d);
    }
    assert all == set d | d in deals && start <= d.acceptedAt < end && wanted(d);
    assert all == firsts + RepeatsIn(deals, start, end, wanted);
    assert firsts !! RepeatsIn(deals, start, end, wanted);
  }
}
