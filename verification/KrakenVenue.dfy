/** The normalizer's book beside the venue's. The normalizer keeps the best levels only and forgets the rest, so it has
    the venue's best levels after a message exactly if the venue names every one of them that the normalizer does not
    hold. */
module KrakenVenue {
  import opened Depth
  import opened Level2
  import opened Kraken
  import opened KrakenReplica

  // ---------- what entering levels does ----------

  predicate Named(levels: seq<ChecksumLevel>, p: real) { exists k :: 0 <= k < |levels| && levels[k].price == p }

  /** Level `k` is the last one to name its price. */
  predicate LastNamed(levels: seq<ChecksumLevel>, k: nat)
    requires k < |levels|
  {
    forall j :: k < j < |levels| ==> levels[j].price != levels[k].price
  }

  /** At every price a message names, the last level that names it decides: its quantity and texts, or nothing when the
      quantity is zero. Everywhere else nothing changes. */
  lemma {:induction false} EnteredAt(m: map<real, Stored>, levels: seq<ChecksumLevel>)
    ensures var after := EnteredAll(m, levels);
            && (forall p :: !Named(levels, p) ==> (p in after <==> p in m) && (p in m ==> after[p] == m[p]))
            && (forall k :: 0 <= k < |levels| && LastNamed(levels, k) ==>
                  var level := levels[k];
                  if level.quantity == 0.0 then level.price !in after
                  else level.price in after &&
                       after[level.price] == Stored(level.quantity, level.priceText, level.quantityText))
    decreases |levels|
  {
    if levels != [] {
      var n := |levels| - 1;
      var init, last := levels[..n], levels[n];
      EnteredAt(m, init);
      var before, after := EnteredAll(m, init), EnteredAll(m, levels);
      assert after == Entered(before, last);
      forall p ensures Named(levels, p) <==> Named(init, p) || p == last.price {
        NamedByLast(levels, p);
      }
      forall k | 0 <= k < |levels| && LastNamed(levels, k)
        ensures var level := levels[k];
                if level.quantity == 0.0 then level.price !in after
                else level.price in after &&
                     after[level.price] == Stored(level.quantity, level.priceText, level.quantityText)
      {
        if k < n {
          assert init[k] == levels[k] && LastNamed(init, k);
        }
      }
    }
  }

  lemma NamedByLast(levels: seq<ChecksumLevel>, p: real)
    requires levels != []
    ensures Named(levels, p) <==> Named(levels[..|levels| - 1], p) || p == levels[|levels| - 1].price
  {
    var init := levels[..|levels| - 1];
    if Named(init, p) {
      var k :| 0 <= k < |init| && init[k].price == p;
      assert levels[k].price == p;
    }
    if Named(levels, p) && p != levels[|levels| - 1].price {
      var k :| 0 <= k < |levels| && levels[k].price == p;
      assert init[k].price == p;
    }
  }

  lemma {:induction false} SomebodyIsLast(levels: seq<ChecksumLevel>, p: real) returns (k: nat)
    requires Named(levels, p)
    ensures k < |levels| && levels[k].price == p && LastNamed(levels, k)
    decreases |levels|
  {
    var n := |levels| - 1;
    NamedByLast(levels, p);
    if levels[n].price == p {
      k := n;
    } else {
      k := SomebodyIsLast(levels[..n], p);
    }
  }

  // ---------- the best levels of a venue ----------

  /** `best` is what is left of `all` when only its best `depth` levels are kept. */
  ghost predicate IsBest(best: map<real, real>, all: map<real, real>, depth: nat, highest: bool) {
    && |best| == (if |all| < depth then |all| else depth)
    && (forall p :: p in best ==> p in all && best[p] == all[p])
    && (forall p, q :: p in best && q in all && q !in best ==> if highest then p > q else p < q)
  }

  ghost predicate Proper(venue: map<real, real>) { forall p :: p in venue ==> venue[p] > 0.0 }

  /** The message speaks for one side of the venue: the last level that names a price has the venue's quantity there,
      and what the normalizer holds and the message does not name has not changed. */
  ghost predicate Speaks(levels: seq<ChecksumLevel>, held: map<real, Stored>, venue: map<real, real>) {
    && (forall k :: 0 <= k < |levels| && LastNamed(levels, k) ==>
          levels[k].quantity == Quantity(venue, levels[k].price))
    && (forall p :: p in held && !Named(levels, p) ==> p in venue && venue[p] == held[p].quantity)
  }

  /** Every one of the venue's best levels is named or held. */
  ghost predicate Supplied(
    levels: seq<ChecksumLevel>, held: map<real, Stored>, venue: map<real, real>, depth: nat, highest: bool)
  {
    forall p :: p in venue && |BetterThan(venue.Keys, p, highest)| < depth ==> Named(levels, p) || p in held
  }

  /** What is held after the levels have been entered is the venue's, and is what was named or held. */
  lemma HeldIsTheVenues(levels: seq<ChecksumLevel>, held: map<real, Stored>, venue: map<real, real>)
    requires Speaks(levels, held, venue) && Proper(venue)
    ensures var after := EnteredAll(held, levels);
            && (forall p :: p in after ==> p in venue && after[p].quantity == venue[p])
            && (forall p :: p in after <==> p in venue && (Named(levels, p) || p in held))
  {
    hide EnteredAll, LastNamed, Named;
    var after := EnteredAll(held, levels);
    EnteredAt(held, levels);
    forall p
      ensures p in after ==> p in venue && after[p].quantity == venue[p]
      ensures p in after <==> p in venue && (Named(levels, p) || p in held)
    {
      if Named(levels, p) {
        var k := SomebodyIsLast(levels, p);
      }
    }
  }

  /** The same levels with no quantities, to count prices with. */
  function Blank(prices: set<real>): map<real, Stored> { map p | p in prices :: Stored(0.0, "", "") }

  lemma BestPrices(venue: map<real, real>, depth: nat, highest: bool) returns (best: set<real>)
    ensures forall p :: p in best <==> p in venue && |BetterThan(venue.Keys, p, highest)| < depth
    ensures |best| == if |venue| < depth then |venue| else depth
    ensures forall p, q :: p in best && q in venue && q !in best ==> Better(highest, p, q)
  {
    hide BetterThan, Better;
    var m := Blank(venue.Keys);
    assert m.Keys == venue.Keys;
    var top := Top(m, depth, highest);
    assert |top| == (if |m| < depth then |m| else depth)
           && forall p, q :: p in top && q in m && q !in top ==> Better(highest, p, q) by {
      hide Top;
      TopKeepsTheBest(m, depth, highest);
    }
    best := top.Keys;
    assert |best| == |top| && |m| == |m.Keys| && |venue| == |venue.Keys|;
    forall p, q | p in best && q in venue && q !in best ensures Better(highest, p, q) {
      assert p in top && q in m && q !in top;
    }
  }

  /** If the held levels are the venue's and include its best, the best of them are the venue's best. */
  lemma BestOfHeld(e: map<real, Stored>, venue: map<real, real>, depth: nat, highest: bool)
    requires forall p :: p in e ==> p in venue && e[p].quantity == venue[p]
    requires forall p :: p in venue && |BetterThan(venue.Keys, p, highest)| < depth ==> p in e
    ensures IsBest(Quantities(Top(e, depth, highest)), venue, depth, highest)
  {
    hide BetterThan, Top;
    var best := BestPrices(venue, depth, highest);
    var top := Top(e, depth, highest);
    TopKeepsTheBest(e, depth, highest);
    forall p | p in e.Keys ensures p in venue.Keys {
      assert p in e;
    }
    forall p | p in best ensures p in e.Keys {
      assert p in venue;
    }
    SizeOfHeld(e, venue, best, depth);
    assert Quantities(top).Keys == top.Keys;
    assert |Quantities(top)| == |Quantities(top).Keys| == |top.Keys| == |top|;
    forall p, q | p in top && q in venue && q !in top ensures Better(highest, p, q) {
      if q !in e {
        KeptAreBetter(e, venue, best, depth, highest, p, q);
      }
    }
  }

  lemma SizeOfHeld(e: map<real, Stored>, venue: map<real, real>, best: set<real>, depth: nat)
    requires e.Keys <= venue.Keys && best <= e.Keys
    requires |best| == if |venue| < depth then |venue| else depth
    ensures (if |e| < depth then |e| else depth) == if |venue| < depth then |venue| else depth
  {
    SubsetIsNoLarger(best, e.Keys);
    SubsetIsNoLarger(e.Keys, venue.Keys);
    assert |e| == |e.Keys| && |venue| == |venue.Keys|;
  }

  lemma KeptAreBetter(
    e: map<real, Stored>, venue: map<real, real>, best: set<real>, depth: nat, highest: bool, p: real, q: real)
    requires p in Top(e, depth, highest) && q in venue && q !in e && best <= e.Keys && p in venue
    requires |best| == if |venue| < depth then |venue| else depth
    requires forall x :: x in best <==> x in venue && |BetterThan(venue.Keys, x, highest)| < depth
    requires forall x, y :: x in best && y in venue && y !in best ==> Better(highest, x, y)
    ensures Better(highest, p, q)
  {
    if !Better(highest, p, q) {
      assert p != q && Better(highest, q, p);
      assert q !in best;
      forall x | x in best ensures x in BetterThan(e.Keys, p, highest) {
        assert Better(highest, x, q);
      }
      SubsetIsNoLarger(best, BetterThan(e.Keys, p, highest));
      if |venue| < depth {
        AllAreBest(venue.Keys, best, q);
      }
    }
  }

  lemma AllAreBest(all: set<real>, best: set<real>, q: real)
    requires best <= all && |best| == |all| && q in all
    ensures q in best
  {
    if q !in best {
      SubsetIsNoLarger(best, all - {q});
    }
  }

  /** The venue's best levels are among those that are kept as the best. */
  lemma BestAreKept(kept: map<real, real>, venue: map<real, real>, depth: nat, highest: bool, p: real)
    requires IsBest(kept, venue, depth, highest) && p in venue && |BetterThan(venue.Keys, p, highest)| < depth
    ensures p in kept
  {
    if p !in kept {
      forall x | x in kept.Keys ensures x in BetterThan(venue.Keys, p, highest) {
        assert Better(highest, x, p);
      }
      SubsetIsNoLarger(kept.Keys, BetterThan(venue.Keys, p, highest));
      assert |kept.Keys| == |kept|;
      SubsetIsNoLarger(kept.Keys, venue.Keys);
      if |venue| < depth {
        assert |venue.Keys| == |venue|;
        AllAreBest(venue.Keys, kept.Keys, p);
      }
    }
  }

  /** One side of a message: the normalizer then has exactly the venue's best levels if and only if each of them was
      named or held. */
  lemma SideFollows(
    levels: seq<ChecksumLevel>, held: map<real, Stored>, venue: map<real, real>, depth: nat, highest: bool)
    requires Speaks(levels, held, venue) && Proper(venue)
    ensures IsBest(Quantities(Top(EnteredAll(held, levels), depth, highest)), venue, depth, highest) <==>
              Supplied(levels, held, venue, depth, highest)
  {
    hide EnteredAll, IsBest, Speaks, Named, BetterThan;
    var e := EnteredAll(held, levels);
    HeldIsTheVenues(levels, held, venue);
    if Supplied(levels, held, venue, depth, highest) {
      BestOfHeld(e, venue, depth, highest);
    }
    if IsBest(Quantities(Top(e, depth, highest)), venue, depth, highest) {
      forall p | p in venue && |BetterThan(venue.Keys, p, highest)| < depth ensures Named(levels, p) || p in held {
        BestAreKept(Quantities(Top(e, depth, highest)), venue, depth, highest, p);
      }
    }
  }

  // ---------- messages ----------

  ghost predicate HasBest(d: Depths, venue: Levels, depth: nat) {
    IsBest(Quantities(d.bids), venue.bids, depth, true) && IsBest(Quantities(d.asks), venue.asks, depth, false)
  }

  ghost predicate SpeaksFor(m: Message, held: Depths, venue: Levels) {
    && Proper(venue.bids) && Proper(venue.asks)
    && Speaks(m.bids, held.bids, venue.bids) && Speaks(m.asks, held.asks, venue.asks)
  }

  ghost predicate SuppliedBy(m: Message, held: Depths, venue: Levels, depth: nat) {
    Supplied(m.bids, held.bids, venue.bids, depth, true) && Supplied(m.asks, held.asks, venue.asks, depth, false)
  }

  /** What was held before a message is taken: nothing for a snapshot. */
  function HeldFor(n: Normalizer, m: Message): Depths { if m.snapshot then Depths(map[], map[]) else n.book }

  /** A message that is taken leaves the normalizer with the venue's best levels if and only if it names each of them
      that was not held. */
  lemma WhenTheNormalizerFollows(n: Normalizer, m: Message, venue: Levels, checksumOf: Depths -> nat)
    requires IsSnapshot(m) || (IsUpdate(m) && n.synchronized)
    requires SpeaksFor(m, HeldFor(n, m), venue)
    ensures HasBest(NextNormalizer(n, m, checksumOf).book, venue, n.depth) <==>
              SuppliedBy(m, HeldFor(n, m), venue, n.depth)
  {
    hide EnteredAll, IsBest, Speaks, Supplied, Top, Quantities;
    var held := HeldFor(n, m);
    SideFollows(m.bids, held.bids, venue.bids, n.depth, true);
    SideFollows(m.asks, held.asks, venue.asks, n.depth, false);
  }

  /** A literal case in which it does not: at depth one the best bid is deleted, and the next best, which the venue has
      all along, is not named. */
  lemma ForgottenLevel()
    ensures var held := map[100.0 := Stored(1.0, "100", "1")];
            var venue := map[99.0 := 1.0];
            var levels := [ChecksumLevel(100.0, 0.0, "100", "0")];
            && Speaks(levels, held, venue) && Proper(venue)
            && Top(EnteredAll(held, levels), 1, true) == map[] && !IsBest(map[], venue, 1, true)
  {
    var held := map[100.0 := Stored(1.0, "100", "1")];
    var levels := [ChecksumLevel(100.0, 0.0, "100", "0")];
    assert levels[0].price == 100.0;
    assert levels[..0] == [];
    assert EnteredAll(held, levels) == Entered(held, levels[0]);
    assert EnteredAll(held, levels) == map[];
    assert |map[99.0 := 1.0]| == 1;
  }

  /** What is published stands or falls with the checksum: a snapshot, or an update of a synchronized book, leaves the
      normalizer synchronized if and only if the message carries no checksum or that of the new book. Each update that
      stands takes the next number, a snapshot starts over; and no other message changes anything, so that a book that
      failed its checksum waits for a snapshot. */
  lemma TheChecksumDecides(n: Normalizer, m: Message, checksumOf: Depths -> nat)
    ensures var next := NextNormalizer(n, m, checksumOf);
            if m.valid && !m.ignored && (m.snapshot || n.synchronized) then
              && (next.synchronized <==> m.checksum == 0 || m.checksum == checksumOf(next.book))
              && (m.snapshot ==> next.sequence == 0)
              && (!m.snapshot ==> next.sequence == if next.synchronized then n.sequence + 1 else n.sequence)
              && next.symbol == n.symbol && next.depth == n.depth
            else next == n
  {
    hide Absorbed;
  }

  // ---------- runs ----------

  /** Is the event's message taken by the normalizer? */
  predicate TakenBy(n: Normalizer, m: Message) { IsSnapshot(m) || (IsUpdate(m) && n.synchronized) }

  /** The feed tells the truth: each message that is taken speaks for the venue's next book and supplies it, and the
      others are about nothing. */
  ghost predicate TrueFeed(p: Pipeline, es: seq<Event>, venue: seq<Levels>, checksumOf: Depths -> nat)
    requires |venue| == |es| + 1
    decreases |es|
  {
    es != [] ==>
      && (if TakenBy(p.normalizer, es[0].message)
          then
            var held := HeldFor(p.normalizer, es[0].message);
            SpeaksFor(es[0].message, held, venue[1]) &&
            SuppliedBy(es[0].message, held, venue[1], p.normalizer.depth)
          else venue[1] == venue[0])
      && TrueFeed(Receive(p, es[0], checksumOf), es[1..], venue[1..], checksumOf)
  }

  ghost predicate NormalizerFollows(n: Normalizer, venue: Levels) { n.synchronized ==> HasBest(n.book, venue, n.depth) }

  lemma EventFollows(p: Pipeline, e: Event, before: Levels, after: Levels, checksumOf: Depths -> nat)
    requires NormalizerFollows(p.normalizer, before)
    requires if TakenBy(p.normalizer, e.message)
             then
               var held := HeldFor(p.normalizer, e.message);
               SpeaksFor(e.message, held, after) && SuppliedBy(e.message, held, after, p.normalizer.depth)
             else after == before
    ensures NormalizerFollows(Receive(p, e, checksumOf).normalizer, after)
    ensures Receive(p, e, checksumOf).normalizer.depth == p.normalizer.depth
  {
    hide HasBest, SpeaksFor, SuppliedBy, Absorbed, ApplyBatch, ApplySnapshot;
    if TakenBy(p.normalizer, e.message) {
      WhenTheNormalizerFollows(p.normalizer, e.message, after, checksumOf);
    }
  }

  /** Over any run of a true feed, of differences that are not empty and books that are not crossed: whenever the
      normalizer is synchronized, the book downstream is exactly the venue's best levels. */
  lemma {:induction false} DownstreamIsTheVenuesBest(
    p: Pipeline, es: seq<Event>, venue: seq<Levels>, checksumOf: Depths -> nat)
    requires |venue| == |es| + 1 && Mirrors(p) && Orderly(p, es, checksumOf) && TrueFeed(p, es, venue, checksumOf)
    requires NormalizerFollows(p.normalizer, venue[0])
    ensures var end := ReceiveAll(p, es, checksumOf);
            end.normalizer.synchronized ==>
              && IsBest(end.book.levels.bids, venue[|es|].bids, p.normalizer.depth, true)
              && IsBest(end.book.levels.asks, venue[|es|].asks, p.normalizer.depth, false)
    decreases |es|
  {
    hide Receive, TakenBy, SpeaksFor, SuppliedBy, Genuine, Publishable, IsBest, Stocked;
    if es != [] {
      EventMirrors(p, es[0], checksumOf);
      EventFollows(p, es[0], venue[0], venue[1], checksumOf);
      DownstreamIsTheVenuesBest(Receive(p, es[0], checksumOf), es[1..], venue[1..], checksumOf);
    }
  }
}
