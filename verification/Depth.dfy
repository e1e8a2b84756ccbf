/** Depth of market: price levels per side, and the updates that change them. Quantities and prices are exact
    reals, and the source's epsilon for "no quantity" is zero. */
module Depth {

  datatype BookSide = Bid | Ask

  datatype UpdateKind = Snapshot | Upsert | Delete

  datatype PriceLevel = PriceLevel(price: real, quantity: real)

  datatype Update = Update(
    venue: string, symbol: string, sequence: nat, timestamp: nat,
    side: BookSide, kind: UpdateKind, price: real, quantity: real)

  datatype DepthSnapshot = DepthSnapshot(
    venue: string, symbol: string, sequence: nat, timestamp: nat, bids: seq<PriceLevel>, asks: seq<PriceLevel>)

  datatype Levels = Levels(bids: map<real, real>, asks: map<real, real>)

  const NO_LEVELS: Levels := Levels(map[], map[])

  /** Set the quantity at a price; a quantity of zero takes the price off. */
  function Put(m: map<real, real>, price: real, quantity: real): map<real, real> {
    if quantity <= 0.0 then m - {price} else m[price := quantity]
  }

  function QuantityOf(u: Update): real { if u.kind.Delete? then 0.0 else u.quantity }

  function Patch(l: Levels, u: Update): Levels {
    if u.side.Bid? then l.(bids := Put(l.bids, u.price, QuantityOf(u)))
        else l.(asks := Put(l.asks, u.price, QuantityOf(u)))
  }

  function PatchAll(l: Levels, us: seq<Update>): Levels {
    if us == [] then l else Patch(PatchAll(l, us[..|us| - 1]), us[|us| - 1])
  }

  predicate CrossedSides(bids: set<real>, asks: set<real>) {
    exists b, a :: b in bids && a in asks && b >= a
  }

  /** Best bid not below best ask, stated over all pairs. */
  predicate Crossed(l: Levels) { CrossedSides(l.bids.Keys, l.asks.Keys) }

  /** The later of two entries for a price wins; an entry without quantity adds nothing. */
  function Built(levels: seq<PriceLevel>): map<real, real> {
    if levels == [] then map[]
    else
      var last := levels[|levels| - 1];
      if last.quantity > 0.0 then Built(levels[..|levels| - 1])[last.price := last.quantity]
      else Built(levels[..|levels| - 1])
  }

  function LevelsOf(s: DepthSnapshot): Levels { Levels(Built(s.bids), Built(s.asks)) }

  predicate Identified(venue: string, symbol: string) { venue != "" && symbol != "" }

  predicate ValidLevel(price: real, quantity: real) { price > 0.0 && quantity >= 0.0 }

  predicate ValidLevels(levels: seq<PriceLevel>) {
    forall k :: 0 <= k < |levels| ==> ValidLevel(levels[k].price, levels[k].quantity)
  }

  lemma OneMorePatch(l: Levels, us: seq<Update>, i: nat)
    requires i < |us|
    ensures PatchAll(l, us[..i + 1]) == Patch(PatchAll(l, us[..i]), us[i])
  {
    assert us[..i + 1][..i] == us[..i];
  }

  // ---------- patches that reach a given book ----------

  function SideOf(l: Levels, side: BookSide): map<real, real> { if side.Bid? then l.bids else l.asks }

  function Quantity(m: map<real, real>, p: real): real { if p in m then m[p] else 0.0 }

  ghost predicate AllPositive(l: Levels) {
    (forall p :: p in l.bids ==> l.bids[p] > 0.0) && (forall p :: p in l.asks ==> l.asks[p] > 0.0)
  }

  ghost predicate Mentions(us: seq<Update>, side: BookSide, p: real) {
    exists k :: 0 <= k < |us| && us[k].side == side && us[k].price == p
  }

  /** Every update says what `after` looks like at its price. */
  ghost predicate States(us: seq<Update>, after: Levels) {
    forall k :: 0 <= k < |us| ==> QuantityOf(us[k]) == Quantity(SideOf(after, us[k].side), us[k].price)
  }

  lemma MentionsLast(us: seq<Update>, side: BookSide, p: real)
    requires us != []
    ensures var n := |us| - 1;
            Mentions(us, side, p) <==> Mentions(us[..n], side, p) || (us[n].side == side && us[n].price == p)
  {
    var n := |us| - 1;
    if Mentions(us[..n], side, p) {
      var k :| 0 <= k < n && us[..n][k].side == side && us[..n][k].price == p;
      assert us[k].price == p;
    }
    if Mentions(us, side, p) && !(us[n].side == side && us[n].price == p) {
      var k :| 0 <= k <= n && us[k].side == side && us[k].price == p;
      assert us[..n][k].price == p;
    }
  }

  lemma OnePatch(l: Levels, u: Update, side: BookSide, p: real)
    requires QuantityOf(u) >= 0.0
    ensures Quantity(SideOf(Patch(l, u), side), p) ==
              if u.side == side && u.price == p then QuantityOf(u) else Quantity(SideOf(l, side), p)
    ensures AllPositive(l) ==> AllPositive(Patch(l, u))
  {
  }

  lemma PositiveQuantity(l: Levels, side: BookSide, p: real)
    requires AllPositive(l)
    ensures Quantity(SideOf(l, side), p) >= 0.0
  {
  }

  lemma {:induction false} PatchedQuantity(l: Levels, us: seq<Update>, after: Levels, side: BookSide, p: real)
    requires States(us, after) && AllPositive(after) && AllPositive(l)
    ensures AllPositive(PatchAll(l, us))
    ensures Quantity(SideOf(PatchAll(l, us), side), p) ==
              Quantity(SideOf(if Mentions(us, side, p) then after else l, side), p)
    decreases |us|
  {
    hide Quantity, AllPositive, Patch, Mentions, SideOf, QuantityOf;
    if us == [] {
      NothingMentioned(side, p);
    } else {
      var n := |us| - 1;
      PatchedQuantity(l, us[..n], after, side, p);
      MentionsLast(us, side, p);
      PositiveQuantity(after, us[n].side, us[n].price);
      OnePatch(PatchAll(l, us[..n]), us[n], side, p);
    }
  }

  lemma NothingMentioned(side: BookSide, p: real)
    ensures !Mentions([], side, p)
  {
  }

  lemma SameQuantities(a: Levels, b: Levels)
    requires AllPositive(a) && AllPositive(b)
    requires forall side, p :: Quantity(SideOf(a, side), p) == Quantity(SideOf(b, side), p)
    ensures a == b
  {
    forall p ensures p in a.bids <==> p in b.bids {
      assert Quantity(SideOf(a, Bid), p) == Quantity(SideOf(b, Bid), p);
    }
    forall p ensures p in a.asks <==> p in b.asks {
      assert Quantity(SideOf(a, Ask), p) == Quantity(SideOf(b, Ask), p);
    }
    forall p | p in a.bids ensures a.bids[p] == b.bids[p] {
      assert Quantity(SideOf(a, Bid), p) == Quantity(SideOf(b, Bid), p);
    }
    forall p | p in a.asks ensures a.asks[p] == b.asks[p] {
      assert Quantity(SideOf(a, Ask), p) == Quantity(SideOf(b, Ask), p);
    }
    assert a.bids == b.bids && a.asks == b.asks;
  }

  /** Patches that say how `after` looks, and mention every price at which it differs, lead to `after`. */
  lemma PatchesReach(l: Levels, us: seq<Update>, after: Levels)
    requires AllPositive(l) && AllPositive(after) && States(us, after)
    requires forall side, p :: Quantity(SideOf(l, side), p) != Quantity(SideOf(after, side), p) ==>
              Mentions(us, side, p)
    ensures PatchAll(l, us) == after
  {
    hide Quantity, AllPositive, Mentions, SideOf, PatchAll, States;
    forall side, p ensures Quantity(SideOf(PatchAll(l, us), side), p) == Quantity(SideOf(after, side), p) {
      PatchedQuantity(l, us, after, side, p);
    }
    PatchedQuantity(l, us, after, Bid, 0.0);
    SameQuantities(PatchAll(l, us), after);
  }

  lemma SomeMember(prices: set<real>)
    ensures prices != {} ==> exists p :: p in prices
  {
    if forall p :: p !in prices {
      assert prices == {};
    }
  }

  lemma {:induction false} BestPriceExists(prices: set<real>, highest: bool)
    requires prices != {}
    ensures exists p :: p in prices && forall x :: x in prices ==> if highest then x <= p else x >= p
    decreases |prices|
  {
    SomeMember(prices);
    var s :| s in prices;
    var rest := prices - {s};
    if rest == {} {
      assert prices == {s};
    } else {
      BestPriceExists(rest, highest);
      var m :| m in rest && forall x :: x in rest ==> if highest then x <= m else x >= m;
      var top := if (m < s) == highest then s else m;
      forall x | x in prices ensures if highest then x <= top else x >= top {
        assert x == s || x in rest;
      }
    }
  }

  /** Crossed means what the source compares: the best bid against the best ask. */
  lemma CrossedAtTheTop(bids: set<real>, asks: set<real>, bid: real, ask: real)
    requires bid in bids && ask in asks
    requires (forall x :: x in bids ==> x <= bid) && (forall x :: x in asks ==> x >= ask)
    ensures CrossedSides(bids, asks) <==> bid >= ask
  {
  }

  method Best(prices: set<real>, highest: bool) returns (p: real)
    requires prices != {}
    ensures p in prices && forall x :: x in prices ==> if highest then x <= p else x >= p
  {
    SomeMember(prices);
    p :| p in prices;
    var todo := prices - {p};
    while todo != {}
      invariant p in prices && todo <= prices
      invariant forall x :: x in prices ==> x in todo || if highest then x <= p else x >= p
      decreases |todo|
    {
      SomeMember(todo);
      var x :| x in todo;
      if (p < x) == highest { p := x; }
      todo := todo - {x};
    }
  }

  method IsCrossed(l: Levels) returns (crossed: bool)
    ensures crossed == Crossed(l)
  {
    if l.bids == map[] || l.asks == map[] {
      assert l.bids == map[] ==> l.bids.Keys == {};
      assert l.asks == map[] ==> l.asks.Keys == {};
      return false;
    }
    var bid := Best(l.bids.Keys, true);
    var ask := Best(l.asks.Keys, false);
    CrossedAtTheTop(l.bids.Keys, l.asks.Keys, bid, ask);
    crossed := bid >= ask;
  }

  method Rebuild(levels: seq<PriceLevel>) returns (m: map<real, real>)
    ensures m == Built(levels)
  {
    m := map[];
    for i := 0 to |levels|
      invariant m == Built(levels[..i])
    {
      assert levels[..i + 1][..i] == levels[..i];
      if levels[i].quantity > 0.0 {
        m := m[levels[i].price := levels[i].quantity];
      }
    }
    assert levels[..|levels|] == levels;
  }
}
