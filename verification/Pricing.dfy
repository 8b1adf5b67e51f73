/** Offer, negotiation and report arithmetic (communicator, negotiator,
    reporter). Money is in whole kopecks; rounding is to the nearest kopeck,
    ties to even. */
module Pricing {
  import opened RealProducts
  import opened StableSort

  /** `round(x)`: the nearest whole number, the even one of two. */
  function Round(x: real): (r: int)
    ensures x - 0.5 <= r as real <= x + 0.5
    ensures r as real == x - 0.5 || r as real == x + 0.5 ==> r % 2 == 0
  {
    var f := x.Floor;
    var d := x - f as real;
    if d < 0.5 || (d == 0.5 && f % 2 == 0) then f else f + 1
  }

  /** Rounding does not cross a whole number. */
  lemma RoundStaysWithin(x: real, n: int)
    ensures x <= n as real ==> Round(x) <= n
    ensures n as real <= x ==> n <= Round(x)
  {
  }

  lemma TimesScaled(b: real, q: real)
    ensures Times(0.85, q) == 0.85 * q && Times(0.88, q) == 0.88 * q
    ensures Times(b - 0.5, q) == Times(b, q) - 0.5 * q && Times(b + 0.5, q) == Times(b, q) + 0.5 * q
  {
  }

  // ---- Communicator --------------------------------------------------------

  /** One requested position; 0.0 stands for an absent price or quantity. */
  datatype Item = Item(typical: real, qty: real)

  predicate Priced(it: Item) { it.typical >= 0.0 && it.qty >= 0.0 }

  /** `float(typical or 1000)` roubles, in kopecks. */
  function BasePrice(it: Item): real { if it.typical == 0.0 then 100000.0 else it.typical }

  /** `float(qty or 1)`. */
  function Quantity(it: Item): real { if it.qty == 0.0 then 1.0 else it.qty }

  function UnitPrice(it: Item, factor: real): int { Round(Times(BasePrice(it), factor)) }

  function Subtotal(it: Item, factor: real): int { Round(Times(UnitPrice(it, factor) as real, Quantity(it))) }

  function OfferTotal(items: seq<Item>, factor: real): int {
    if items == [] then 0 else OfferTotal(items[..|items| - 1], factor) + Subtotal(items[|items| - 1], factor)
  }

  datatype Line = Line(unitPrice: int, qty: real, subtotal: int)

  function Subtotals(lines: seq<Line>): int {
    if lines == [] then 0 else Subtotals(lines[..|lines| - 1]) + lines[|lines| - 1].subtotal
  }

  /** What a line says about its item: 1000 roubles and one piece stand in for an
      absent price and quantity. */
  ghost predicate LineOf(l: Line, it: Item, factor: real) {
    && l.qty == (if it.qty == 0.0 then 1.0 else it.qty)
    && -0.5 <= l.unitPrice as real - (if it.typical == 0.0 then 100000.0 else it.typical) * factor <= 0.5
    && -0.5 <= l.subtotal as real - l.unitPrice as real * l.qty <= 0.5
  }

  lemma LineIs(it: Item, factor: real)
    ensures LineOf(Line(UnitPrice(it, factor), Quantity(it), Subtotal(it, factor)), it, factor)
  {
  }

  /** `_synthetic_offer` with the drawn factor as an input. */
  method SyntheticOffer(items: seq<Item>, factor: real) returns (total: int, lines: seq<Line>)
    ensures total == OfferTotal(items, factor) && |lines| == |items|
    ensures forall i :: 0 <= i < |lines| ==>
              lines[i] == Line(UnitPrice(items[i], factor), Quantity(items[i]), Subtotal(items[i], factor))
    ensures forall i :: 0 <= i < |lines| ==> LineOf(lines[i], items[i], factor)
    ensures total == Subtotals(lines)
  {
    hide Round, UnitPrice, Subtotal, BasePrice, Quantity, LineOf;
    total, lines := 0, [];
    for i := 0 to |items|
      invariant total == OfferTotal(items[..i], factor) == Subtotals(lines) && |lines| == i
      invariant forall k :: 0 <= k < i ==> LineOf(lines[k], items[k], factor)
      invariant forall k :: 0 <= k < i ==>
                  lines[k] == Line(UnitPrice(items[k], factor), Quantity(items[k]), Subtotal(items[k], factor))
    {
      var unitPrice := UnitPrice(items[i], factor);
      var subtotal := Subtotal(items[i], factor);
      assert items[..i + 1][..i] == items[..i];
      LineIs(items[i], factor);
      var line := Line(unitPrice, Quantity(items[i]), subtotal);
      assert (lines + [line])[..i] == lines;
      total := total + subtotal;
      lines := lines + [line];
    }
    assert items[..|items|] == items;
  }

  /** `max(1, int(n * 0.66))` suppliers answer, out of n. */
  function Responding(n: nat): (k: int)
    ensures 1 <= k && (n > 0 ==> k <= n)
    ensures k == 1 || k as real <= 0.66 * n as real
    ensures 0.66 * n as real < k as real + 1.0
  {
    var k := (n as real * 0.66).Floor;
    if k < 1 then 1 else k
  }

  /** `typical_total` of the report: absent values count as zero. */
  function TypicalTotal(items: seq<Item>): real {
    if items == [] then 0.0
    else TypicalTotal(items[..|items| - 1]) + Times(items[|items| - 1].typical, items[|items| - 1].qty)
  }

  /** What rounding can cost an offer: half a kopeck per unit and per line. */
  function RoundingSlack(items: seq<Item>): real {
    if items == [] then 0.0
    else RoundingSlack(items[..|items| - 1]) + 0.5 * Quantity(items[|items| - 1]) + 0.5
  }

  /** The line is worth at least what the report counts for it. */
  lemma LineWorth(it: Item)
    requires Priced(it)
    ensures BasePrice(it) > 0.0 && Quantity(it) > 0.0
    ensures Times(it.typical, it.qty) <= Times(BasePrice(it), Quantity(it))
  {
    hide Times;
    TimesMono(it.typical, BasePrice(it), it.qty);
    TimesMono(it.qty, Quantity(it), BasePrice(it));
  }

  /** What the items cost at catalogue prices, with the defaults filled in. */
  function BaseTotal(items: seq<Item>): real {
    if items == [] then 0.0
    else BaseTotal(items[..|items| - 1]) + Times(BasePrice(items[|items| - 1]), Quantity(items[|items| - 1]))
  }

  /** The three totals, item by item. */
  lemma OneItem(it: Item)
    ensures TypicalTotal([it]) == it.typical * it.qty
    ensures var qty := if it.qty == 0.0 then 1.0 else it.qty;
            && BaseTotal([it]) == (if it.typical == 0.0 then 100000.0 else it.typical) * qty
            && RoundingSlack([it]) == 0.5 * qty + 0.5
  {
    assert [it][..0] == [];
  }

  lemma {:induction false} TotalsAppend(a: seq<Item>, b: seq<Item>)
    ensures TypicalTotal(a + b) == TypicalTotal(a) + TypicalTotal(b)
    ensures BaseTotal(a + b) == BaseTotal(a) + BaseTotal(b)
    ensures RoundingSlack(a + b) == RoundingSlack(a) + RoundingSlack(b)
  {
    hide Times, BasePrice, Quantity;
    if b == [] {
      assert a + b == a;
    } else {
      var n := |b| - 1;
      assert (a + b)[..|a| + n] == a + b[..n] && (a + b)[|a| + n] == b[n];
      TotalsAppend(a, b[..n]);
    }
  }

  lemma SubtotalNear(it: Item, factor: real)
    requires Priced(it) && factor >= 0.0
    ensures Subtotal(it, factor) >= 0
    ensures var exact := Times(factor, Times(BasePrice(it), Quantity(it)));
            -0.5 * Quantity(it) - 0.5 <= Subtotal(it, factor) as real - exact <= 0.5 * Quantity(it) + 0.5
  {
    hide BasePrice, Quantity, Round, Times;
    LineWorth(it);
    var b, q, u := BasePrice(it), Quantity(it), UnitPrice(it, factor) as real;
    var price := Times(b, factor);
    TimesMono(0.0, b, factor);
    TimesSimple(0.0, factor);
    RoundStaysWithin(price, 0);
    TimesMono(price - 0.5, u, q);
    TimesMono(u, price + 0.5, q);
    TimesMono(0.0, u, q);
    TimesSimple(0.0, q);
    RoundStaysWithin(Times(u, q), 0);
    TimesScaled(price, q);
    TimesSimple(b, factor);
    TimesAssociates(factor, b, q);
  }

  /** An offer is the factor times the catalogue total, up to rounding. */
  lemma {:induction false} OfferNear(items: seq<Item>, factor: real)
    requires (forall it :: it in items ==> Priced(it)) && factor >= 0.0
    ensures OfferTotal(items, factor) >= 0
    ensures var exact := Times(factor, BaseTotal(items));
            -RoundingSlack(items) <= OfferTotal(items, factor) as real - exact <= RoundingSlack(items)
  {
    hide Subtotal, Quantity, BasePrice, Priced, Times;
    if items == [] {
      TimesSigns(factor, 0.0);
    } else {
      var n := |items| - 1;
      OfferNear(items[..n], factor);
      assert items[n] in items;
      SubtotalNear(items[n], factor);
      TimesDistributes(factor, BaseTotal(items[..n]), Times(BasePrice(items[n]), Quantity(items[n])));
    }
  }

  lemma {:induction false} BaseAboveTypical(items: seq<Item>)
    requires forall it :: it in items ==> Priced(it)
    ensures TypicalTotal(items) <= BaseTotal(items)
  {
    if items != [] {
      hide BasePrice, Quantity, Priced, Times;
      BaseAboveTypical(items[..|items| - 1]);
      assert items[|items| - 1] in items;
      LineWorth(items[|items| - 1]);
    }
  }

  /** Every offer keeps 85% of the typical total, up to rounding. */
  lemma OfferFloor(items: seq<Item>, factor: real)
    requires (forall it :: it in items ==> Priced(it)) && factor >= 0.85
    ensures OfferTotal(items, factor) >= 0
    ensures OfferTotal(items, factor) as real >= 0.85 * TypicalTotal(items) - RoundingSlack(items)
  {
    hide OfferTotal, BaseTotal, TypicalTotal, RoundingSlack, Priced, Times;
    OfferNear(items, factor);
    BaseAboveTypical(items);
    TypicalNonNegative(items);
    TimesMono(0.85, factor, BaseTotal(items));
    TimesScaled(0.0, BaseTotal(items));
  }

  lemma {:induction false} TypicalNonNegative(items: seq<Item>)
    requires forall it :: it in items ==> Priced(it)
    ensures TypicalTotal(items) >= 0.0 && RoundingSlack(items) >= 0.0
  {
    if items != [] {
      var n := |items| - 1;
      TypicalNonNegative(items[..n]);
      assert items[n] in items;
      hide Times;
      TimesMono(0.0, items[n].typical, items[n].qty);
      TimesSimple(0.0, items[n].qty);
    }
  }

  // ---- Negotiator ----------------------------------------------------------

  datatype Offer = Offer(total: int, leadTime: int)
  datatype Response = Response(inn: string, offer: Offer)

  /** The model's recommendation for one offer, or a failed call. */
  datatype Advice = Suggested(discount: real) | Failed

  /** One record of `negotiations`; the delta is in hundredths of a percent. */
  datatype Deal = Deal(inn: string, before: Offer, after: Offer, delta: int)

  function Clamp(d: real): real { if d < 0.0 then 0.0 else if d > 12.0 then 12.0 else d }

  function Target(a: Advice): real { Clamp(if a.Failed? then 5.0 else a.discount) }

  function MinTotal(rs: seq<Response>): (m: int)
    requires rs != []
    ensures exists i :: 0 <= i < |rs| && rs[i].offer.total == m
    ensures forall i :: 0 <= i < |rs| ==> m <= rs[i].offer.total
  {
    if |rs| == 1 then rs[0].offer.total else
    var m := MinTotal(rs[1..]);
    assert forall i :: 1 <= i < |rs| ==> rs[i] == rs[1..][i - 1];
    if rs[0].offer.total < m then rs[0].offer.total else m
  }

  predicate Competitive(total: int, min: int) { total as real <= min as real * 1.05 }

  predicate Bargains(r: Response, min: int, a: Advice) {
    !Competitive(r.offer.total, min) && Target(a) != 0.0
  }

  function NewTotal(total: int, a: Advice): int { Round(Times(1.0 - Target(a) / 100.0, total as real)) }

  /** `round((before - after) / before * 100, 2)`, in hundredths of a percent;
      dividing by zero is the error of Fails. */
  function DeltaPct(before: int, after: int): int {
    if before == 0 then 0 else Round((before - after) as real / before as real * 10000.0)
  }

  /** One offer after the round. */
  function Bargained(r: Response, min: int, a: Advice): Response {
    if Bargains(r, min, a) then r.(offer := r.offer.(total := NewTotal(r.offer.total, a))) else r
  }

  /** The division by the price of this offer raises. */
  predicate Fails(r: Response, min: int, a: Advice) { Bargains(r, min, a) && r.offer.total == 0 }

  ghost predicate Raises(rs: seq<Response>, allowed: bool, advice: seq<Advice>)
    requires |advice| == |rs|
  {
    rs != [] && allowed && exists i :: 0 <= i < |rs| && Fails(rs[i], MinTotal(rs), advice[i])
  }

  /** It takes a negative price for that: without one the node never raises. */
  lemma NeverRaises(rs: seq<Response>, allowed: bool, advice: seq<Advice>)
    requires |advice| == |rs| && forall i :: 0 <= i < |rs| ==> rs[i].offer.total >= 0
    ensures !Raises(rs, allowed, advice)
  {
    if rs != [] { var m := MinTotal(rs); }
  }

  function DealFor(r: Response, min: int, a: Advice): seq<Deal> {
    if !Bargains(r, min, a) then [] else
    var after := NewTotal(r.offer.total, a);
    [Deal(r.inn, r.offer, r.offer.(total := after), DeltaPct(r.offer.total, after))]
  }

  /** The records of the round: one per bargained offer, in order. */
  function Deals(rs: seq<Response>, min: int, advice: seq<Advice>): seq<Deal>
    requires |advice| == |rs|
  {
    if rs == [] then [] else
    var n := |rs| - 1;
    Deals(rs[..n], min, advice[..n]) + DealFor(rs[n], min, advice[n])
  }

  function Round1(rs: seq<Response>, min: int, advice: seq<Advice>): (out: seq<Response>)
    requires |advice| == |rs|
    ensures |out| == |rs|
    ensures forall i :: 0 <= i < |rs| ==> out[i] == Bargained(rs[i], min, advice[i])
  {
    seq(|rs|, i requires 0 <= i < |rs| => Bargained(rs[i], min, advice[i]))
  }

  /** The offers after the node: unchanged when there are none or when the
      regulatory filter forbids bargaining. */
  function Negotiated(rs: seq<Response>, allowed: bool, advice: seq<Advice>): (out: seq<Response>)
    requires |advice| == |rs|
    ensures |out| == |rs|
  {
    if rs == [] || !allowed then rs else Round1(rs, MinTotal(rs), advice)
  }

  function Sum(rs: seq<Response>): int {
    if rs == [] then 0 else Sum(rs[..|rs| - 1]) + rs[|rs| - 1].offer.total
  }

  function Savings(deals: seq<Deal>): int {
    if deals == [] then 0
    else Savings(deals[..|deals| - 1]) + deals[|deals| - 1].before.total - deals[|deals| - 1].after.total
  }

  lemma DealsStep(rs: seq<Response>, min: int, advice: seq<Advice>, i: nat)
    requires |advice| == |rs| && i < |rs|
    ensures Deals(rs[..i + 1], min, advice[..i + 1])
            == Deals(rs[..i], min, advice[..i]) + DealFor(rs[i], min, advice[i])
  {
    assert rs[..i + 1][..i] == rs[..i] && advice[..i + 1][..i] == advice[..i];
  }

  /** A record's saving is the drop of the offer it is about. */
  lemma SavingsStep(deals: seq<Deal>, r: Response, min: int, a: Advice)
    ensures Savings(deals + DealFor(r, min, a))
            == Savings(deals) + r.offer.total - Bargained(r, min, a).offer.total
  {
    hide Bargains, NewTotal, DeltaPct;
    if Bargains(r, min, a) {
      var d := DealFor(r, min, a)[0];
      assert (deals + [d])[..|deals|] == deals;
    } else {
      assert deals + [] == deals;
    }
  }

  /** The state of the round before offer i: none has failed, those before i
      are bargained, the others as they were. */
  ghost predicate Upto(rs: seq<Response>, out: seq<Response>, min: int, advice: seq<Advice>, i: nat)
    requires |advice| == |rs|
  {
    && i <= |rs| == |out|
    && (forall k :: 0 <= k < i ==> !Fails(rs[k], min, advice[k]) && out[k] == Bargained(rs[k], min, advice[k]))
    && (forall k :: i <= k < |rs| ==> out[k] == rs[k])
  }

  /** A node that raises stops at the first offer that fails. */
  ghost predicate StoppedAt(rs: seq<Response>, out: seq<Response>, min: int, advice: seq<Advice>, i: nat)
    requires |advice| == |rs|
  {
    Upto(rs, out, min, advice, i) && i < |rs| && Fails(rs[i], min, advice[i])
  }

  /** The records of a whole round account for the whole drop. */
  lemma {:induction false} SavingsAreDrops(rs: seq<Response>, min: int, advice: seq<Advice>)
    requires |advice| == |rs|
    ensures Savings(Deals(rs, min, advice)) == Sum(rs) - Sum(Round1(rs, min, advice))
  {
    if rs != [] {
      var n := |rs| - 1;
      SavingsAreDrops(rs[..n], min, advice[..n]);
      SavingsStep(Deals(rs[..n], min, advice[..n]), rs[n], min, advice[n]);
      assert Round1(rs, min, advice)[..n] == Round1(rs[..n], min, advice[..n]);
    }
  }

  /** The node, updating the offers in place. */
  method Negotiate(responses: array<Response>, allowed: bool, advice: seq<Advice>)
    returns (raised: bool, deals: seq<Deal>, status: string)
    requires |advice| == responses.Length
    modifies responses
    ensures raised <==> Raises(old(responses[..]), allowed, advice)
    ensures raised ==>
              var rs := old(responses[..]); exists i: nat :: StoppedAt(rs, responses[..], MinTotal(rs), advice, i)
    ensures !raised ==> responses[..] == Negotiated(old(responses[..]), allowed, advice)
    ensures !raised ==>
              status == if responses.Length > 0 && !allowed then "responses_collected" else "negotiating"
    ensures !raised ==>
              deals == if responses.Length == 0 || !allowed then []
                       else Deals(old(responses[..]), MinTotal(old(responses[..])), advice)
    ensures !raised ==> Savings(deals) == Sum(old(responses[..])) - Sum(responses[..])
  {
    if responses.Length == 0 {
      return false, [], "negotiating";
    }
    if !allowed {
      return false, [], "responses_collected";
    }
    var minTotal := MinTotal(responses[..]);
    SavingsAreDrops(responses[..], minTotal, advice);
    hide Bargained, Deals, Sum, Savings, Fails;
    raised, deals := BargainAll(responses, minTotal, advice);
    status := "negotiating";
  }

  /** One round of the loop, as the three branches of its body. */
  lemma OfferStep(rs: seq<Response>, out: seq<Response>, min: int, advice: seq<Advice>, i: nat)
    requires |advice| == |rs| && i < |rs| && Upto(rs, out, min, advice, i)
    ensures |out| == |rs| && out[i] == rs[i]
    ensures Competitive(rs[i].offer.total, min) || Target(advice[i]) == 0.0 ==>
              Upto(rs, out, min, advice, i + 1) && DealFor(rs[i], min, advice[i]) == []
    ensures !Competitive(rs[i].offer.total, min) && Target(advice[i]) != 0.0 ==>
              var before := rs[i].offer;
              var after := before.(total := NewTotal(before.total, advice[i]));
              && DealFor(rs[i], min, advice[i]) == [Deal(rs[i].inn, before, after, DeltaPct(before.total, after.total))]
              && if before.total == 0 then StoppedAt(rs, out, min, advice, i)
                 else Upto(rs, out[i := rs[i].(offer := after)], min, advice, i + 1)
  {
    hide Competitive, Target, NewTotal, DeltaPct;
  }

  /** The loop of the node. */
  method BargainAll(responses: array<Response>, minTotal: int, advice: seq<Advice>)
    returns (raised: bool, deals: seq<Deal>)
    requires |advice| == responses.Length
    modifies responses
    ensures raised ==> exists i: nat :: StoppedAt(old(responses[..]), responses[..], minTotal, advice, i)
    ensures !raised ==> Upto(old(responses[..]), responses[..], minTotal, advice, responses.Length)
    ensures !raised ==> deals == Deals(old(responses[..]), minTotal, advice)
  {
    ghost var rs := responses[..];
    assert Deals(rs[..0], minTotal, advice[..0]) == [] by { NothingYet(minTotal); }
    assert Upto(rs, responses[..], minTotal, advice, 0);
    hide *;
    raised, deals := false, [];
    var i := 0;
    while i < responses.Length
      invariant i <= responses.Length && Upto(rs, responses[..], minTotal, advice, i)
      invariant deals == Deals(rs[..i], minTotal, advice[..i])
    {
      DealsStep(rs, minTotal, advice, i);
      OfferStep(rs, responses[..], minTotal, advice, i);
      ghost var out := responses[..];
      var offer := responses[i].offer;
      if !Competitive(offer.total, minTotal) {
        var targetDiscount := Target(advice[i]);
        if targetDiscount != 0.0 {
          var newTotal := NewTotal(offer.total, advice[i]);
          if offer.total == 0 {
            return true, deals;
          }
          var delta := DeltaPct(offer.total, newTotal);
          deals := deals + [Deal(responses[i].inn, offer, offer.(total := newTotal), delta)];
          responses[i] := responses[i].(offer := offer.(total := newTotal));
          assert responses[..] == out[i := responses[i]];
        }
      }
      i := i + 1;
    }
    assert rs[..i] == rs && advice[..i] == advice;
  }

  lemma NothingYet(min: int)
    ensures Deals([], min, []) == []
  {
  }

  /** What the round does to one offer. */
  lemma BargainBounds(r: Response, min: int, a: Advice)
    requires 0 <= min <= r.offer.total
    ensures var before, after := r.offer.total, Bargained(r, min, a).offer.total;
            && after <= before
            && after as real >= 0.88 * before as real - 0.5
            && after as real >= 0.924 * min as real - 0.5
            && (Competitive(before, min) ==> after == before)
            && Bargained(r, min, a).inn == r.inn
  {
    hide NewTotal;
    NewTotalBounds(r.offer.total, a);
  }

  lemma NewTotalBounds(total: int, a: Advice)
    requires total >= 0
    ensures NewTotal(total, a) <= total && NewTotal(total, a) as real >= 0.88 * total as real - 0.5
  {
    var t, f := total as real, 1.0 - Target(a) / 100.0;
    assert 0.88 <= f <= 1.0;
    hide Target, Round, Times;
    TimesMono(0.88, f, t);
    TimesMono(f, 1.0, t);
    TimesSimple(1.0, t);
    TimesScaled(0.0, t);
    RoundStaysWithin(Times(f, t), total);
  }

  /** The discount that is applied: the suggested one up to 12 percent, 5 percent
      if the model could not be asked. */
  ghost predicate Discount(a: Advice, d: real) {
    match a
    case Failed => d == 5.0
    case Suggested(s) => (0.0 < s <= 12.0 && d == s) || (s > 12.0 && d == 12.0)
  }

  /** d percent less, to the kopeck. */
  ghost predicate Lowered(before: int, after: int, d: real) {
    -0.5 <= after as real - Times(1.0 - d / 100.0, before as real) <= 0.5
  }

  /** The drop in hundredths of a percent, rounded. */
  ghost predicate DropInPercent(before: int, after: int, delta: int) {
    before != 0 ==> -0.5 <= delta as real - (before - after) as real / before as real * 10000.0 <= 0.5
  }

  lemma DeltaIsDrop(before: int, after: int)
    ensures DropInPercent(before, after, DeltaPct(before, after))
  {
  }

  lemma NewTotalIs(total: int, a: Advice, d: real)
    requires Discount(a, d)
    ensures Target(a) == d != 0.0 && Lowered(total, NewTotal(total, a), d)
  {
    hide Times, Round;
  }

  /** An offer more than 5% above the best one is lowered by the discount, to the
      kopeck, and recorded. */
  lemma OfferIsLowered(r: Response, min: int, a: Advice, d: real)
    requires r.offer.total as real > 1.05 * min as real && Discount(a, d)
    ensures var after := r.offer.(total := Bargained(r, min, a).offer.total);
            && Lowered(r.offer.total, after.total, d)
            && Bargained(r, min, a) == r.(offer := after)
            && |DealFor(r, min, a)| == 1
            && var deal := DealFor(r, min, a)[0];
               && deal.inn == r.inn && deal.before == r.offer && deal.after == after
               && DropInPercent(r.offer.total, after.total, deal.delta)
  {
    NewTotalIs(r.offer.total, a, d);
    DeltaIsDrop(r.offer.total, NewTotal(r.offer.total, a));
    hide Discount, Lowered, DropInPercent, NewTotal, DeltaPct, Target;
  }

  /** Any other offer, or one for which no discount is suggested, stays as it is. */
  lemma OfferIsKept(r: Response, min: int, a: Advice)
    requires r.offer.total as real <= 1.05 * min as real || (a.Suggested? && a.discount <= 0.0)
    ensures Bargained(r, min, a) == r && DealFor(r, min, a) == []
  {
  }

  ghost predicate LeastPrice(rs: seq<Response>, min: int) {
    && (forall k :: 0 <= k < |rs| ==> min <= rs[k].offer.total)
    && exists k :: 0 <= k < |rs| && rs[k].offer.total == min
  }

  lemma NegotiatedAt(rs: seq<Response>, advice: seq<Advice>, min: int, i: nat)
    requires |advice| == |rs| && i < |rs| && LeastPrice(rs, min)
    ensures Negotiated(rs, true, advice)[i] == Bargained(rs[i], min, advice[i])
  {
    hide Bargained;
    assert MinTotal(rs) == min;
  }

  /** The same of every offer of a round, against the best price in it. */
  lemma RoundLowers(rs: seq<Response>, advice: seq<Advice>, min: int, i: nat, d: real)
    requires |advice| == |rs| && i < |rs| && LeastPrice(rs, min)
    ensures rs[i].offer.total as real > 1.05 * min as real && Discount(advice[i], d) ==>
              Lowered(rs[i].offer.total, Negotiated(rs, true, advice)[i].offer.total, d)
    ensures rs[i].offer.total as real <= 1.05 * min as real || (advice[i].Suggested? && advice[i].discount <= 0.0) ==>
              Negotiated(rs, true, advice)[i] == rs[i]
    ensures Negotiated(rs, false, advice) == rs
  {
    NegotiatedAt(rs, advice, min, i);
    hide Bargained, DealFor, Discount, LeastPrice, Negotiated, Lowered;
    assert Negotiated(rs, false, advice) == rs by { ForbiddenChangesNothing(rs, advice); }
    if rs[i].offer.total as real > 1.05 * min as real && Discount(advice[i], d) {
      OfferIsLowered(rs[i], min, advice[i], d);
    }
    if rs[i].offer.total as real <= 1.05 * min as real || (advice[i].Suggested? && advice[i].discount <= 0.0) {
      OfferIsKept(rs[i], min, advice[i]);
    }
  }

  lemma ForbiddenChangesNothing(rs: seq<Response>, advice: seq<Advice>)
    requires |advice| == |rs|
    ensures Negotiated(rs, false, advice) == rs
  {
  }

  /** The records of a round are those of its offers, in order. */
  lemma {:induction false} RecordsInOrder(rs: seq<Response>, min: int, advice: seq<Advice>, i: nat)
    returns (a: seq<Deal>, b: seq<Deal>)
    requires |advice| == |rs| && i < |rs|
    ensures Deals(rs, min, advice) == a + DealFor(rs[i], min, advice[i]) + b
    ensures a == Deals(rs[..i], min, advice[..i])
    decreases |rs|
  {
    hide DealFor;
    var n := |rs| - 1;
    if i == n {
      a, b := Deals(rs[..i], min, advice[..i]), [];
    } else {
      a, b := RecordsInOrder(rs[..n], min, advice[..n], i);
      assert rs[..n][..i] == rs[..i] && advice[..n][..i] == advice[..i];
      b := b + DealFor(rs[n], min, advice[n]);
    }
  }

  /** The round as a whole: no offer rises, and the best price ends between
      92.4% of the old best, less half a kopeck, and the old best. */
  lemma NegotiatedBounds(rs: seq<Response>, allowed: bool, advice: seq<Advice>)
    requires rs != [] && |advice| == |rs| && forall i :: 0 <= i < |rs| ==> rs[i].offer.total >= 0
    ensures var out := Negotiated(rs, allowed, advice);
            && (forall i :: 0 <= i < |rs| ==> out[i].inn == rs[i].inn && out[i].offer.total <= rs[i].offer.total)
            && (forall i :: 0 <= i < |rs| ==> out[i].offer.total as real >= 0.88 * rs[i].offer.total as real - 0.5)
            && 0.924 * MinTotal(rs) as real - 0.5 <= MinTotal(out) as real <= MinTotal(rs) as real
  {
    hide Bargained, Competitive, Round;
    var min, out := MinTotal(rs), Negotiated(rs, allowed, advice);
    forall i | 0 <= i < |rs|
      ensures out[i].inn == rs[i].inn && out[i].offer.total <= rs[i].offer.total
      ensures out[i].offer.total as real >= 0.88 * rs[i].offer.total as real - 0.5
      ensures out[i].offer.total as real >= 0.924 * min as real - 0.5
    {
      BargainBounds(rs[i], min, advice[i]);
    }
    var k :| 0 <= k < |rs| && rs[k].offer.total == min;
    assert out[k].offer.total <= min;
  }

  // ---- Reporter ------------------------------------------------------------

  datatype Verification = Verification(inn: string, confidence: real, offer: Offer)

  /** The verifier checks every response as it stands after the negotiation. */
  function Verified(rs: seq<Response>, confidence: seq<real>): (vs: seq<Verification>)
    requires |confidence| == |rs|
    ensures |vs| == |rs|
    ensures forall i :: 0 <= i < |rs| ==>
              vs[i].inn == rs[i].inn && vs[i].confidence == confidence[i] && vs[i].offer == rs[i].offer
  {
    seq(|rs|, i requires 0 <= i < |rs| => Verification(rs[i].inn, confidence[i], rs[i].offer))
  }

  /** Higher confidence first, then the lower price. */
  predicate Better(v: Verification, w: Verification) {
    v.confidence > w.confidence || (v.confidence == w.confidence && v.offer.total < w.offer.total)
  }

  datatype Report = Report(top: seq<Verification>, savingsRub: int, savingsPct: int)

  function Ranked(vs: seq<Verification>): seq<Verification> { Sort(Better, vs) }

  function BestTotal(vs: seq<Verification>): int {
    if Ranked(vs) == [] then 0 else Ranked(vs)[0].offer.total
  }

  function SavingsKopecks(typical: real, best: int): real {
    if typical - best as real > 0.0 then typical - best as real else 0.0
  }

  /** Hundredths of a percent. */
  function SavingsPct(typical: real, best: int): int {
    if typical == 0.0 then 0 else Round(SavingsKopecks(typical, best) / typical * 10000.0)
  }

  function First3(vs: seq<Verification>): seq<Verification> { if |vs| < 3 then vs else vs[..3] }

  function ReportOf(vs: seq<Verification>, items: seq<Item>): Report {
    var typical, best := TypicalTotal(items), BestTotal(vs);
    Report(First3(Ranked(vs)), (SavingsKopecks(typical, best) / 100.0).Floor, SavingsPct(typical, best))
  }

  /** v does not come after w: a higher confidence, or the same and no higher price. */
  ghost predicate NoWorse(v: Verification, w: Verification) {
    v.confidence > w.confidence || (v.confidence == w.confidence && v.offer.total <= w.offer.total)
  }

  /** Three verified offers, or all if there are fewer, best first, and none left
      out is better. */
  ghost predicate BestThree(top: seq<Verification>, vs: seq<Verification>) {
    && |top| == (if |vs| < 3 then |vs| else 3) && multiset(top) <= multiset(vs)
    && (forall i, j :: 0 <= i < j < |top| ==> NoWorse(top[i], top[j]))
    && (forall x, y :: x in top && y in multiset(vs) - multiset(top) ==> NoWorse(x, y))
  }

  /** What the report claims, in terms of the verified offers. */
  ghost predicate ReportSays(report: Report, vs: seq<Verification>, items: seq<Item>) {
    && BestThree(report.top, vs)
    && var best := if vs == [] then 0 else report.top[0].offer.total;
       var typical := TypicalTotal(items);
       var saved := if typical > best as real then typical - best as real else 0.0;
       && report.savingsRub as real <= saved / 100.0 < report.savingsRub as real + 1.0
       && (typical == 0.0 ==> report.savingsPct == 0)
       && (typical != 0.0 ==> -0.5 <= report.savingsPct as real - saved / typical * 10000.0 <= 0.5)
  }

  lemma RankedInOrder(vs: seq<Verification>)
    ensures |Ranked(vs)| == |vs| && multiset(Ranked(vs)) == multiset(vs)
    ensures forall i, j :: 0 <= i < j < |vs| ==> NoWorse(Ranked(vs)[i], Ranked(vs)[j])
  {
    RankedFacts(vs);
    hide Ranked;
    forall i, j | 0 <= i < j < |vs| ensures NoWorse(Ranked(vs)[i], Ranked(vs)[j]) {
      assert !Better(Ranked(vs)[j], Ranked(vs)[i]);
    }
  }

  lemma FrontFirst(top: seq<Verification>, rest: seq<Verification>)
    requires var all := top + rest; forall i, j :: 0 <= i < j < |all| ==> NoWorse(all[i], all[j])
    ensures forall x, y :: x in top && y in rest ==> NoWorse(x, y)
  {
    var all := top + rest;
    forall x, y | x in top && y in rest ensures NoWorse(x, y) {
      var i :| 0 <= i < |top| && top[i] == x;
      var j :| 0 <= j < |rest| && rest[j] == y;
      assert all[i] == x && all[|top| + j] == y;
    }
  }

  lemma TopMeans(vs: seq<Verification>)
    ensures BestThree(First3(Ranked(vs)), vs)
  {
    RankedInOrder(vs);
    hide Ranked, NoWorse;
    var ranked, top := Ranked(vs), First3(Ranked(vs));
    var rest := ranked[|top|..];
    assert ranked == top + rest;
    assert ranked[..|top|] == top;
    Parts(vs, ranked, |top|);
    FrontFirst(top, rest);
    assert forall i :: 0 <= i < |top| ==> top[i] == ranked[i];
  }

  lemma ReportMeans(vs: seq<Verification>, items: seq<Item>)
    ensures ReportSays(ReportOf(vs, items), vs, items)
  {
    TopMeans(vs);
    RankedFacts(vs);
    hide Ranked, TypicalTotal, Round, BestThree;
  }

  method BuildReport(vs: seq<Verification>, items: seq<Item>) returns (report: Report)
    ensures report.top == First3(Ranked(vs))
    ensures report.savingsRub == (SavingsKopecks(TypicalTotal(items), BestTotal(vs)) / 100.0).Floor
    ensures report.savingsPct == SavingsPct(TypicalTotal(items), BestTotal(vs))
    ensures report == ReportOf(vs, items)
    ensures ReportSays(report, vs, items)
  {
    RankedFacts(vs);
    ReportMeans(vs, items);
    var ranked := Ranked(vs);
    var top := First3(ranked);
    var typical := 0.0;
    for i := 0 to |items|
      invariant typical == TypicalTotal(items[..i])
    {
      assert items[..i + 1][..i] == items[..i];
      typical := typical + Times(items[i].typical, items[i].qty);
    }
    assert items[..|items|] == items;
    var best := if top == [] then 0 else top[0].offer.total;
    report := Report(top, (SavingsKopecks(typical, best) / 100.0).Floor, SavingsPct(typical, best));
  }

  /** The ranking is a permutation, best first. */
  lemma RankedFacts(vs: seq<Verification>)
    ensures |Ranked(vs)| == |vs| && multiset(Ranked(vs)) == multiset(vs)
    ensures forall i, j :: 0 <= i < j < |vs| ==> !Better(Ranked(vs)[j], Ranked(vs)[i])
  {
    SortSorts(Better, vs);
  }

  // ---- The whole demo pipeline ---------------------------------------------

  /** One answer per responding supplier, each with its own drawn factor. */
  function Answers(items: seq<Item>, inns: seq<string>, factors: seq<real>): (rs: seq<Response>)
    requires |inns| == |factors|
    ensures |rs| == |inns|
    ensures forall i :: 0 <= i < |rs| ==> rs[i].offer.total == OfferTotal(items, factors[i])
  {
    seq(|inns|, i requires 0 <= i < |inns| => Response(inns[i], Offer(OfferTotal(items, factors[i]), 30)))
  }

  /** With at least one answer, whatever the language model advises and however
      the verifier scores, the reported savings stay below 1 - 0.924 * 0.85 =
      21.46% of the typical total, plus the rounding slack. */
  lemma DemoSavings(items: seq<Item>, inns: seq<string>, factors: seq<real>, allowed: bool,
                    advice: seq<Advice>, confidence: seq<real>)
    requires forall it :: it in items ==> Priced(it)
    requires |inns| == |factors| == |advice| == |confidence| && inns != []
    requires forall f :: f in factors ==> 0.85 <= f <= 1.1
    ensures var vs := Verified(Negotiated(Answers(items, inns, factors), allowed, advice), confidence);
            SavingsKopecks(TypicalTotal(items), BestTotal(vs))
              <= 0.2146 * TypicalTotal(items) + 0.924 * RoundingSlack(items) + 0.5
  {
    var rs := Answers(items, inns, factors);
    forall i | 0 <= i < |rs|
      ensures rs[i].offer.total >= 0
      ensures rs[i].offer.total as real >= 0.85 * TypicalTotal(items) - RoundingSlack(items)
    {
      assert factors[i] in factors;
      OfferFloor(items, factors[i]);
    }
    TypicalNonNegative(items);
    NegotiatedBounds(rs, allowed, advice);
    var out := Negotiated(rs, allowed, advice);
    var vs := Verified(out, confidence);
    RankedFacts(vs);
    assert Ranked(vs)[0] in multiset(vs);
    var i :| 0 <= i < |vs| && vs[i].offer.total == BestTotal(vs);
    assert MinTotal(out) <= out[i].offer.total == BestTotal(vs);
    var m := MinTotal(rs) as real;
    assert m >= 0.85 * TypicalTotal(items) - RoundingSlack(items);
  }

  /** Without a single answer the report claims that everything was saved. */
  lemma NoAnswersClaimAll(items: seq<Item>)
    requires TypicalTotal(items) > 0.0
    ensures SavingsKopecks(TypicalTotal(items), BestTotal([])) == TypicalTotal(items)
    ensures SavingsPct(TypicalTotal(items), BestTotal([])) == 10000
  {
    var t := TypicalTotal(items);
    assert BestTotal([]) == 0;
    assert t / t == 1.0;
    assert Round(10000.0) == 10000;
  }

  lemma DivMono(s: real, t: real, k: real, slack: real)
    requires t > 0.0 && s <= k * t + slack
    ensures s / t <= k + slack / t
  {
    assert (k * t + slack) / t == k * t / t + slack / t;
    assert k * t / t == k;
  }

  /** The reported percentage obeys the same bound. */
  lemma SavingsPctBound(typical: real, best: int, slack: real)
    requires typical > 0.0 && SavingsKopecks(typical, best) <= 0.2146 * typical + slack
    ensures SavingsPct(typical, best) as real <= 2146.0 + slack / typical * 10000.0 + 0.5
  {
    var s := SavingsKopecks(typical, best);
    DivMono(s, typical, 0.2146, slack);
    hide SavingsKopecks;
  }

  /** The report of the demo pipeline: the bound on what it claims holds exactly
      when somebody answers, or when the whole order is lost in the rounding; and
      then it holds of the roubles and of the percentage that are printed. */
  lemma DemoReport(items: seq<Item>, inns: seq<string>, factors: seq<real>, allowed: bool,
                   advice: seq<Advice>, confidence: seq<real>)
    requires forall it :: it in items ==> Priced(it)
    requires |inns| == |factors| == |advice| == |confidence|
    requires forall f :: f in factors ==> 0.85 <= f <= 1.1
    ensures var vs := Verified(Negotiated(Answers(items, inns, factors), allowed, advice), confidence);
            var typical, slack := TypicalTotal(items), 0.924 * RoundingSlack(items) + 0.5;
            var bound, report := 0.2146 * typical + slack, ReportOf(vs, items);
            && (SavingsKopecks(typical, BestTotal(vs)) <= bound <==> inns != [] || 0.7854 * typical <= slack)
            && (inns != [] ==> report.savingsRub as real <= bound / 100.0)
            && (inns != [] && typical > 0.0 ==>
                  report.savingsPct as real <= 2146.0 + slack / typical * 10000.0 + 0.5)
  {
    var vs := Verified(Negotiated(Answers(items, inns, factors), allowed, advice), confidence);
    var typical, slack := TypicalTotal(items), 0.924 * RoundingSlack(items) + 0.5;
    TypicalNonNegative(items);
    if inns == [] {
      assert inns == [];
    } else {
      DemoSavings(items, inns, factors, allowed, advice, confidence);
      hide SavingsKopecks, BestTotal, TypicalTotal, RoundingSlack, Answers, Negotiated, Verified;
      if typical > 0.0 { SavingsPctBound(typical, BestTotal(vs), slack); }
    }
  }
}
