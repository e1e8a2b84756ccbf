/** Average-cost positions. The realized profit depends on the order of the fills; the account as a whole does
    not, because every branch of apply_fill, flips through zero included, moves cash and position together. */
module Positions {

  datatype Deal = Deal(symbol: string, buy: bool, quantity: real, price: real, fee: real)
  {
    function Signed(): real { if buy then quantity else 0.0 - quantity }
  }

  datatype Position = Position(
    symbol: string, net: real, averageCost: real, realized: real, unrealized: real, markPrice: real)

  function Flat(symbol: string): Position { Position(symbol, 0.0, 0.0, 0.0, 0.0, 0.0) }

  function Abs(x: real): real { if x < 0.0 then 0.0 - x else x }

  function Smaller(a: real, b: real): real { if b < a then b else a }

  /** Does the deal open or add to the position, rather than close some of it? */
  predicate Adds(net: real, signed: real) {
    net == 0.0 || (net > 0.0 && signed > 0.0) || (net < 0.0 && signed < 0.0)
  }

  function AddedCost(p: Position, d: Deal): real {
    var total := Abs(p.net) + Abs(d.Signed());
    if total > 0.0 then (Abs(p.net) * p.averageCost + Abs(d.Signed()) * d.price) / total else p.averageCost
  }

  function ClosedGain(p: Position, d: Deal): real {
    var closing := Smaller(Abs(p.net), Abs(d.Signed()));
    (if p.net > 0.0 then d.price - p.averageCost else p.averageCost - d.price) * closing
  }

  function ClosedCost(p: Position, d: Deal): real {
    if p.net + d.Signed() == 0.0 then 0.0
    else if Abs(d.Signed()) > Abs(p.net) then d.price
    else p.averageCost
  }

  function WithUnrealized(p: Position): Position {
    p.(unrealized := (p.markPrice - p.averageCost) * p.net)
  }

  function Applied(p: Position, d: Deal): Position {
    var net := p.net + d.Signed();
    var q :=
      if Adds(p.net, d.Signed()) then p.(averageCost := AddedCost(p, d), net := net, realized := p.realized - d.fee)
      else p.(averageCost := ClosedCost(p, d), net := net, realized := p.realized + ClosedGain(p, d) - d.fee);
    if p.markPrice > 0.0 then WithUnrealized(q) else q
  }

  // ---------- accounts by symbol ----------

  function AccountOf(positions: map<string, Position>, symbol: string): Position {
    if symbol in positions then positions[symbol] else Flat(symbol)
  }

  function WithDeal(positions: map<string, Position>, d: Deal): map<string, Position> {
    positions[d.symbol := Applied(AccountOf(positions, d.symbol).(symbol := d.symbol), d)]
  }

  function WithMark(positions: map<string, Position>, symbol: string, price: real): map<string, Position> {
    positions[symbol := Marked(AccountOf(positions, symbol).(symbol := symbol), price)]
  }

  function Marked(p: Position, price: real): Position { WithUnrealized(p.(markPrice := price)) }

  // ---------- one deal ----------

  lemma Distribute(a: real, b: real, c: real)
    ensures (a + b) * c == a * c + b * c
    ensures (a - b) * c == a * c - b * c
  {
  }

  lemma Quotient(a: real, b: real)
    requires b > 0.0
    ensures a / b * b == a
  {
  }

  lemma SignedProduct(x: real, y: real)
    ensures Abs(x) * y == if x < 0.0 then 0.0 - x * y else x * y
  {
  }

  lemma AddingBalances(p: Position, d: Deal)
    requires Adds(p.net, d.Signed())
    ensures AddedCost(p, d) * (p.net + d.Signed()) == p.averageCost * p.net + d.price * d.Signed()
  {
    var held, dealt := p.net, d.Signed();
    var total := Abs(held) + Abs(dealt);
    SignedProduct(held, p.averageCost);
    SignedProduct(dealt, d.price);
    if total > 0.0 {
      var worth := Abs(held) * p.averageCost + Abs(dealt) * d.price;
      Quotient(worth, total);
      assert AddedCost(p, d) * total == worth;
      assert total == if held + dealt < 0.0 then 0.0 - (held + dealt) else held + dealt;
      if held + dealt < 0.0 {
        NegatedProduct(AddedCost(p, d), held + dealt);
      }
    }
  }

  lemma NegatedProduct(a: real, b: real)
    ensures a * (0.0 - b) == 0.0 - a * b
  {
  }

  lemma ClosingBalances(p: Position, d: Deal)
    requires !Adds(p.net, d.Signed())
    ensures ClosedGain(p, d) - ClosedCost(p, d) * (p.net + d.Signed()) ==
              0.0 - p.averageCost * p.net - d.price * d.Signed()
  {
    var n, s, a, x := p.net, d.Signed(), p.averageCost, d.price;
    Expand(a, n, s);
    Expand(x, n, s);
    Distribute(x, a, Smaller(Abs(n), Abs(s)));
    Distribute(a, x, Smaller(Abs(n), Abs(s)));
    NegatedProduct(a, n);
    NegatedProduct(a, s);
    NegatedProduct(x, n);
    NegatedProduct(x, s);
  }

  lemma Expand(a: real, n: real, s: real)
    ensures a * (n + s) == a * n + a * s
  {
  }

  // ---------- the split between profit and cost ----------

  lemma TimesNothing(a: real, n: real)
    ensures n == 0.0 ==> a * n == 0.0
  {
  }

  lemma Turned(a: real, b: real)
    ensures a * b == b * a
  {
  }

  /** Selling out of a long position: what is sold earns its price over the average cost, which stays while something
      is left, is gone with the position, and is the deal's price once the position has turned short. */
  lemma WhenLongsAreSold(p: Position, d: Deal)
    requires p.net > 0.0 && d.Signed() < 0.0
    ensures var q, sold := Applied(p, d), 0.0 - d.Signed();
            && q.net == p.net - sold
            && (if sold < p.net then
                  && q.averageCost == p.averageCost
                  && q.realized == p.realized + sold * (d.price - p.averageCost) - d.fee
                else
                  && q.averageCost == (if sold == p.net then 0.0 else d.price)
                  && q.realized == p.realized + p.net * (d.price - p.averageCost) - d.fee)
  {
    Turned(d.price - p.averageCost, p.net);
    Turned(d.price - p.averageCost, 0.0 - d.Signed());
  }

  /** Covering a short position: what is bought back earns the average cost over its price. */
  lemma WhenShortsAreCovered(p: Position, d: Deal)
    requires p.net < 0.0 && d.Signed() > 0.0
    ensures var q, short, bought := Applied(p, d), 0.0 - p.net, d.Signed();
            && q.net == bought - short
            && (if bought < short then
                  && q.averageCost == p.averageCost
                  && q.realized == p.realized + bought * (p.averageCost - d.price) - d.fee
                else
                  && q.averageCost == (if bought == short then 0.0 else d.price)
                  && q.realized == p.realized + short * (p.averageCost - d.price) - d.fee)
  {
    Turned(p.averageCost - d.price, 0.0 - p.net);
    Turned(p.averageCost - d.price, d.Signed());
  }

  /** Opening a position costs the deal's price; adding to one costs what both parts cost together. Neither realizes
      anything but the fee, and a deal of nothing changes nothing else. */
  lemma WhenPositionsGrow(p: Position, d: Deal)
    requires (p.net >= 0.0 && d.Signed() >= 0.0) || (p.net <= 0.0 && d.Signed() <= 0.0)
    ensures var q := Applied(p, d);
            && q.net == p.net + d.Signed() && q.realized == p.realized - d.fee
            && (d.Signed() == 0.0 ==> q.averageCost == p.averageCost)
            && (p.net == 0.0 && d.Signed() != 0.0 ==> q.averageCost == d.price)
            && q.averageCost * q.net == p.averageCost * p.net + d.price * d.Signed()
  {
    if Adds(p.net, d.Signed()) {
      AddingBalances(p, d);
      OpeningCost(AddedCost(p, d), p.averageCost, d.price, p.net, d.Signed());
    }
  }

  /** A cost that accounts for two parts of which one is nothing. */
  lemma OpeningCost(cost: real, a: real, x: real, n: real, s: real)
    requires cost * (n + s) == a * n + x * s
    ensures n == 0.0 && s != 0.0 ==> cost == x
    ensures s == 0.0 && n != 0.0 ==> cost == a
  {
    Expand(cost, n, s);
    TimesNothing(cost, n);
    TimesNothing(a, n);
    TimesNothing(cost, s);
    TimesNothing(x, s);
    SameProduct(cost, x, s);
    SameProduct(cost, a, n);
  }

  /** Profit so far less what the position cost: cash in hand. */
  function Cash(p: Position): real { p.realized - p.averageCost * p.net }

  /** A deal moves the account's cash by exactly what was paid for it, in every branch. */
  lemma DealMovesCash(p: Position, d: Deal)
    ensures var q := Applied(p, d);
            Cash(q) == Cash(p) - d.Signed() * d.price - d.fee && q.net == p.net + d.Signed()
            && q.markPrice == p.markPrice && q.symbol == p.symbol
  {
    hide AddedCost, ClosedCost, ClosedGain;
    if Adds(p.net, d.Signed()) {
      AddingBalances(p, d);
    } else {
      ClosingBalances(p, d);
    }
  }

  // ---------- any sequence of deals ----------

  function AppliedAll(p: Position, ds: seq<Deal>): Position {
    if ds == [] then p else Applied(AppliedAll(p, ds[..|ds| - 1]), ds[|ds| - 1])
  }

  function NetOf(ds: seq<Deal>): real {
    if ds == [] then 0.0 else NetOf(ds[..|ds| - 1]) + ds[|ds| - 1].Signed()
  }

  /** What the deals paid: prices times signed quantities, and fees. */
  function PaidFor(ds: seq<Deal>): real {
    if ds == [] then 0.0
    else PaidFor(ds[..|ds| - 1]) + Payment(ds[|ds| - 1])
  }

  function FeesOf(ds: seq<Deal>): real {
    if ds == [] then 0.0 else FeesOf(ds[..|ds| - 1]) + ds[|ds| - 1].fee
  }

  function Payment(d: Deal): real { d.Signed() * d.price + d.fee }

  /** The accounting identity, for any sequence of deals. */
  lemma {:induction false} RealizedAgainstCost(p: Position, ds: seq<Deal>)
    ensures var q := AppliedAll(p, ds);
            && q.realized - q.averageCost * q.net == Cash(p) - PaidFor(ds)
            && q.net == p.net + NetOf(ds) && q.markPrice == p.markPrice
    decreases |ds|
  {
    hide Applied;
    if ds != [] {
      RealizedAgainstCost(p, ds[..|ds| - 1]);
      DealMovesCash(AppliedAll(p, ds[..|ds| - 1]), ds[|ds| - 1]);
    }
  }

  function TotalPnl(p: Position): real { p.realized + p.unrealized }

  /** At any mark, total profit is cash plus the position at that mark. */
  lemma TotalAtMark(symbol: string, ds: seq<Deal>, price: real)
    ensures TotalPnl(Marked(AppliedAll(Flat(symbol), ds), price)) == price * NetOf(ds) - PaidFor(ds)
  {
    hide AppliedAll, NetOf, PaidFor;
    RealizedAgainstCost(Flat(symbol), ds);
    MarkedTotal(AppliedAll(Flat(symbol), ds), price);
  }

  lemma MarkedTotal(p: Position, price: real)
    ensures TotalPnl(Marked(p, price)) == Cash(p) + price * p.net
    ensures TotalPnl(WithUnrealized(p)) == Cash(p) + p.markPrice * p.net
  {
    Distribute(price, p.averageCost, p.net);
    Distribute(p.markPrice, p.averageCost, p.net);
  }

  /** While a positive mark is set, every deal keeps the unrealized figure current by itself. */
  lemma DealsKeepMark(p: Position, ds: seq<Deal>)
    requires p.markPrice > 0.0 && p == WithUnrealized(p)
    ensures var q := AppliedAll(p, ds);
            q == WithUnrealized(q) && TotalPnl(q) == Cash(p) - PaidFor(ds) + p.markPrice * q.net
    decreases |ds|
  {
    hide Applied, WithUnrealized, PaidFor, NetOf, Cash, TotalPnl;
    RealizedAgainstCost(p, ds);
    if ds == [] {
    } else {
      DealsKeepMark(p, ds[..|ds| - 1]);
      DealMovesCash(AppliedAll(p, ds[..|ds| - 1]), ds[|ds| - 1]);
      AppliedIsCurrent(AppliedAll(p, ds[..|ds| - 1]), ds[|ds| - 1]);
    }
    MarkedTotal(AppliedAll(p, ds), p.markPrice);
    CashIs(AppliedAll(p, ds));
  }

  lemma CashIs(p: Position)
    ensures Cash(p) == p.realized - p.averageCost * p.net
  {
  }

  lemma AppliedIsCurrent(p: Position, d: Deal)
    requires p.markPrice > 0.0
    ensures Applied(p, d) == WithUnrealized(Applied(p, d))
  {
    hide AddedCost, ClosedCost, ClosedGain;
  }

  // ---------- the order of the deals ----------

  lemma {:induction false} SumsJoin(a: seq<Deal>, b: seq<Deal>)
    ensures NetOf(a + b) == NetOf(a) + NetOf(b) && PaidFor(a + b) == PaidFor(a) + PaidFor(b)
    ensures FeesOf(a + b) == FeesOf(a) + FeesOf(b)
    decreases |b|
  {
    hide Payment, Deal.Signed;
    if b == [] {
      assert a + b == a;
    } else {
      var n := |b| - 1;
      assert (a + b)[..|a + b| - 1] == a + b[..n];
      SumsJoin(a, b[..n]);
    }
  }

  lemma OneDeal(d: Deal)
    ensures NetOf([d]) == d.Signed() && PaidFor([d]) == Payment(d) && FeesOf([d]) == d.fee
  {
    hide Payment, Deal.Signed;
    assert [d][..0] == [];
  }

  lemma TakenOut(a: seq<Deal>, d: Deal, b: seq<Deal>)
    ensures NetOf(a + [d] + b) == NetOf(a + b) + d.Signed() && PaidFor(a + [d] + b) == PaidFor(a + b) + Payment(d)
    ensures FeesOf(a + [d] + b) == FeesOf(a + b) + d.fee
  {
    hide NetOf, PaidFor, FeesOf, Payment, Deal.Signed;
    SumsJoin(a + [d], b);
    SumsJoin(a, [d]);
    SumsJoin(a, b);
    OneDeal(d);
  }

  lemma {:induction false} SumsIgnoreOrder(a: seq<Deal>, b: seq<Deal>)
    requires multiset(a) == multiset(b)
    ensures NetOf(a) == NetOf(b) && PaidFor(a) == PaidFor(b) && FeesOf(a) == FeesOf(b)
    decreases |a|
  {
    hide Payment, Deal.Signed;
    hide NetOf, PaidFor, FeesOf;
    if a == [] {
      assert b == [] by { assert |multiset(b)| == |multiset(a)|; }
    } else {
      var init, d := a[..|a| - 1], a[|a| - 1];
      assert a == init + [d];
      assert d in multiset(a);
      var i := IndexOf(b, d);
      var left, right := b[..i], b[i + 1..];
      assert b == left + [d] + right;
      SumsJoin(init, [d]);
      OneDeal(d);
      TakenOut(left, d, right);
      RestIsSame(init, left, right, d);
      SumsIgnoreOrder(init, left + right);
    }
  }

  function IndexOf(ds: seq<Deal>, d: Deal): (i: nat)
    requires d in multiset(ds)
    ensures i < |ds| && ds[i] == d
  {
    assert d in ds;
    if ds[0] == d then 0
    else
      assert ds == [ds[0]] + ds[1..];
      1 + IndexOf(ds[1..], d)
  }

  lemma RestIsSame(a: seq<Deal>, b: seq<Deal>, c: seq<Deal>, d: Deal)
    requires multiset(a + [d]) == multiset(b + [d] + c)
    ensures multiset(a) == multiset(b + c)
  {
    assert multiset(a + [d]) == multiset(a) + multiset{d};
    assert multiset(b + [d] + c) == multiset(b + c) + multiset{d};
    assert multiset(a) == multiset(a) + multiset{d} - multiset{d};
  }

  /** The same deals in any order leave the same position and, at any mark, the same total profit. */
  lemma OrderDoesNotMatter(symbol: string, a: seq<Deal>, b: seq<Deal>, price: real)
    requires multiset(a) == multiset(b)
    ensures AppliedAll(Flat(symbol), a).net == AppliedAll(Flat(symbol), b).net
    ensures TotalPnl(Marked(AppliedAll(Flat(symbol), a), price)) == TotalPnl(Marked(AppliedAll(Flat(symbol), b), price))
  {
    hide AppliedAll, NetOf, PaidFor, Marked;
    SumsIgnoreOrder(a, b);
    TotalAtMark(symbol, a, price);
    TotalAtMark(symbol, b, price);
    RealizedAgainstCost(Flat(symbol), a);
    RealizedAgainstCost(Flat(symbol), b);
  }

  /** The same deals in two orders realize the same profit exactly when the account ends flat or both orders leave the
      same average cost. */
  lemma RealizedAgrees(symbol: string, a: seq<Deal>, b: seq<Deal>)
    requires multiset(a) == multiset(b)
    ensures var p, q := AppliedAll(Flat(symbol), a), AppliedAll(Flat(symbol), b);
            p.realized == q.realized <==> NetOf(a) == 0.0 || p.averageCost == q.averageCost
  {
    hide AppliedAll, NetOf, PaidFor, FeesOf;
    SumsIgnoreOrder(a, b);
    RealizedAgainstCost(Flat(symbol), a);
    RealizedAgainstCost(Flat(symbol), b);
    SameProduct(AppliedAll(Flat(symbol), a).averageCost, AppliedAll(Flat(symbol), b).averageCost, NetOf(a));
  }

  lemma SameProduct(x: real, y: real, n: real)
    ensures x * n == y * n <==> n == 0.0 || x == y
  {
    if x * n == y * n && n != 0.0 {
      assert x == x * n / n && y == y * n / n;
    }
  }

  /** Deals of one side, all of positive quantity. */
  predicate OneSided(ds: seq<Deal>, buy: bool) { forall d :: d in ds ==> d.buy == buy && d.quantity > 0.0 }

  /** An account that only ever adds realizes nothing but its fees. */
  lemma {:induction false} OnlyFeesRealized(symbol: string, ds: seq<Deal>, buy: bool)
    requires OneSided(ds, buy)
    ensures var p := AppliedAll(Flat(symbol), ds);
            p.realized == 0.0 - FeesOf(ds) && (if buy then p.net >= 0.0 else p.net <= 0.0)
    decreases |ds|
  {
    hide AddedCost, ClosedGain, ClosedCost;
    if ds != [] {
      var n := |ds| - 1;
      assert ds[n] in ds && forall d :: d in ds[..n] ==> d in ds;
      OnlyFeesRealized(symbol, ds[..n], buy);
    }
  }

  /** What a caller can check beforehand: an account that ends flat, or is dealt in on one side only, realizes the
      same in any order. */
  lemma RealizedIsSafe(symbol: string, a: seq<Deal>, b: seq<Deal>)
    requires multiset(a) == multiset(b)
    requires NetOf(a) == 0.0 || OneSided(a, true) || OneSided(a, false)
    ensures AppliedAll(Flat(symbol), a).realized == AppliedAll(Flat(symbol), b).realized
  {
    hide AppliedAll, NetOf, PaidFor, FeesOf;
    RealizedAgrees(symbol, a, b);
    SumsIgnoreOrder(a, b);
    forall d | d in b ensures d in a {
      assert d in multiset(b);
    }
    if OneSided(a, true) {
      OnlyFeesRealized(symbol, a, true);
      OnlyFeesRealized(symbol, b, true);
    } else if OneSided(a, false) {
      OnlyFeesRealized(symbol, a, false);
      OnlyFeesRealized(symbol, b, false);
    }
  }

  /** The realized part alone does depend on the order: buying at 1 and 3 before selling one at 3 realizes 1,
      selling in between realizes 2. */
  lemma RealizedDependsOnOrder()
    ensures var b1, b3, s := Deal("X", true, 1.0, 1.0, 0.0), Deal("X", true, 1.0, 3.0, 0.0),
              Deal("X", false, 1.0, 3.0, 0.0);
            && Applied(Applied(Applied(Flat("X"), b1), b3), s).realized == 1.0
            && Applied(Applied(Applied(Flat("X"), b1), s), b3).realized == 2.0
  {
    var b1, b3, s := Deal("X", true, 1.0, 1.0, 0.0), Deal("X", true, 1.0, 3.0, 0.0), Deal("X", false, 1.0, 3.0, 0.0);
    hide Applied;
    var p := Position("X", 1.0, 1.0, 0.0, 0.0, 0.0);
    assert AddedCost(Flat("X"), b1) == 1.0;
    assert AddedCost(p, b3) == 2.0;
    var q := Position("X", 2.0, 2.0, 0.0, 0.0, 0.0);
    assert ClosedGain(q, s) == 1.0 && ClosedGain(p, s) == 2.0;
    UnmarkedApplies(Flat("X"), b1);
    UnmarkedApplies(p, b3);
    UnmarkedApplies(q, s);
    UnmarkedApplies(p, s);
    UnmarkedApplies(Position("X", 0.0, 0.0, 2.0, 0.0, 0.0), b3);
  }

  lemma UnmarkedApplies(p: Position, d: Deal)
    requires p.markPrice == 0.0
    ensures var net := p.net + d.Signed();
            Applied(p, d) ==
              if Adds(p.net, d.Signed()) then p.(averageCost := AddedCost(p, d), net := net,
                  realized := p.realized - d.fee)
              else p.(averageCost := ClosedCost(p, d), net := net, realized := p.realized + ClosedGain(p, d) - d.fee)
  {
    hide AddedCost, ClosedCost, ClosedGain, Adds;
  }

  class PositionManager {
    var positions: map<string, Position>

    constructor ()
      ensures positions == map[]
    {
      positions := map[];
    }

    method ApplyFill(d: Deal)
      modifies this
      ensures positions == WithDeal(old(positions), d)
    {
      hide ClosedGain, Abs;
      var position := AccountOf(positions, d.symbol).(symbol := d.symbol);
      var signed := if d.buy then d.quantity else 0.0 - d.quantity;
      var before := position.net;
      var after := before + signed;
      if before == 0.0 || (before > 0.0 && signed > 0.0) || (before < 0.0 && signed < 0.0) {
        var total := Abs(before) + Abs(signed);
        if total > 0.0 {
          position := position.(averageCost := (Abs(before) * position.averageCost + Abs(signed) * d.price) / total);
        }
      } else {
        position := position.(realized := position.realized + ClosedGain(position, d));
        if Abs(signed) > Abs(before) { position := position.(averageCost := d.price); }
        if after == 0.0 { position := position.(averageCost := 0.0); }
      }
      position := position.(net := after, realized := position.realized - d.fee);
      if position.markPrice > 0.0 {
        position := position.(unrealized := (position.markPrice - position.averageCost) * position.net);
      }
      assert position == Applied(AccountOf(positions, d.symbol).(symbol := d.symbol), d);
      positions := positions[d.symbol := position];
    }

    method Mark(symbol: string, price: real)
      modifies this
      ensures positions == WithMark(old(positions), symbol, price)
    {
      var position := AccountOf(positions, symbol).(symbol := symbol, markPrice := price);
      position := position.(unrealized := (position.markPrice - position.averageCost) * position.net);
      assert position == Marked(AccountOf(positions, symbol).(symbol := symbol), price);
      positions := positions[symbol := position];
    }
  }
}
