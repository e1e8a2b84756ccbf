/** The book downstream of the Kraken normalizer: patching what was published before with the differences
    gives exactly the new top-N book, so over a run the two stay equal. */
module KrakenReplica {
  import opened Depth
  import opened Level2
  import opened Kraken

  // ---------- stored levels have a quantity ----------

  ghost predicate Stocked(m: map<real, Stored>) { forall p :: p in m ==> p > 0.0 && m[p].quantity > 0.0 }

  ghost predicate StockedBook(d: Depths) { Stocked(d.bids) && Stocked(d.asks) }

  /** What the parser lets through: positive prices, non-negative quantities. */
  ghost predicate Parsed(levels: seq<ChecksumLevel>) {
    forall k :: 0 <= k < |levels| ==> levels[k].price > 0.0 && levels[k].quantity >= 0.0
  }

  ghost predicate ParsedMessage(m: Message) { m.valid && !m.ignored ==> Parsed(m.bids) && Parsed(m.asks) }

  lemma {:induction false} EnteringKeepsStock(m: map<real, Stored>, levels: seq<ChecksumLevel>)
    requires Stocked(m) && Parsed(levels)
    ensures Stocked(EnteredAll(m, levels))
    decreases |levels|
  {
    if levels != [] {
      EnteringKeepsStock(m, levels[..|levels| - 1]);
    }
  }

  lemma AbsorbingKeepsStock(d: Depths, m: Message, depth: nat)
    requires StockedBook(d) && Parsed(m.bids) && Parsed(m.asks)
    ensures StockedBook(Absorbed(d, m, depth))
  {
    hide EnteredAll, BetterThan;
    EnteringKeepsStock(d.bids, m.bids);
    EnteringKeepsStock(d.asks, m.asks);
  }

  lemma StockIsPositive(d: Depths)
    requires StockedBook(d)
    ensures AllPositive(Plain(d))
  {
  }

  // ---------- diff and patch ----------

  lemma DiffStates(us: seq<Update>, symbol: string, sequence: nat, timestamp: nat, before: Depths, after: Depths)
    requires IsDiff(us, symbol, sequence, timestamp, before, after)
    ensures States(us, Plain(after))
  {
    hide Mentions, Labelled;
    forall k | 0 <= k < |us|
      ensures QuantityOf(us[k]) == Quantity(SideOf(Plain(after), us[k].side), us[k].price)
    {
      assert Earned(us[k], StoredSide(before, us[k].side), StoredSide(after, us[k].side));
    }
  }

  lemma DifferenceIsMentioned(
      us: seq<Update>, symbol: string, sequence: nat, timestamp: nat, before: Depths, after: Depths,
                              side: BookSide, p: real)
    requires IsDiff(us, symbol, sequence, timestamp, before, after)
    ensures Quantity(SideOf(Plain(before), side), p) != Quantity(SideOf(Plain(after), side), p) ==>
              Mentions(us, side, p)
  {
    hide Mentions, Labelled, Earned;
    var b, a := StoredSide(before, side), StoredSide(after, side);
    if p in a {
      assert Changed(b, a, p) ==> Mentions(us, side, p);
    } else {
      assert Gone(b, a, p) ==> Mentions(us, side, p);
    }
  }

  /** Patching the book published before with the differences yields exactly the book published now. */
  lemma PatchUndoesDiff(us: seq<Update>, symbol: string, sequence: nat, timestamp: nat, before: Depths, after: Depths)
    requires StockedBook(before) && StockedBook(after)
    requires IsDiff(us, symbol, sequence, timestamp, before, after)
    ensures PatchAll(Plain(before), us) == Plain(after)
  {
    hide IsDiff, Stocked, PatchAll, Mentions, States, Quantity, SideOf, Plain, AllPositive;
    StockIsPositive(before);
    StockIsPositive(after);
    DiffStates(us, symbol, sequence, timestamp, before, after);
    forall side, p | Quantity(SideOf(Plain(before), side), p) != Quantity(SideOf(Plain(after), side), p)
      ensures Mentions(us, side, p)
    {
      DifferenceIsMentioned(us, symbol, sequence, timestamp, before, after, side, p);
    }
    PatchesReach(Plain(before), us, Plain(after));
  }

  lemma DiffIsCoherent(us: seq<Update>, symbol: string, sequence: nat, timestamp: nat, before: Depths, after: Depths)
    requires StockedBook(before) && StockedBook(after) && symbol != ""
    requires IsDiff(us, symbol, sequence, timestamp, before, after)
    ensures Coherent(us)
    ensures us != [] ==> us[0].sequence == sequence && Identified(us[0].venue, us[0].symbol)
  {
    hide Mentions;
    forall k | 0 <= k < |us|
      ensures Labelled(us[k], symbol, sequence, timestamp) && ValidLevel(us[k].price, us[k].quantity)
    {
      assert Earned(us[k], StoredSide(before, us[k].side), StoredSide(after, us[k].side));
    }
  }

  // ---------- a snapshot carries the whole book ----------

  lemma {:induction false} BuiltFrom(levels: seq<PriceLevel>, m: map<real, real>)
    requires forall k :: 0 <= k < |levels| ==>
               levels[k].price in m && levels[k].quantity == m[levels[k].price] && levels[k].quantity > 0.0
    ensures forall p :: p in Built(levels) <==> exists k :: 0 <= k < |levels| && levels[k].price == p
    ensures forall p :: p in Built(levels) ==> p in m && Built(levels)[p] == m[p]
    decreases |levels|
  {
    if levels != [] {
      var n := |levels| - 1;
      var init := levels[..n];
      BuiltFrom(init, m);
      forall p ensures p in Built(levels) <==> exists k :: 0 <= k < |levels| && levels[k].price == p {
        if k :| 0 <= k < n && levels[k].price == p {
          assert init[k].price == p;
        }
        if p in Built(init) {
          var k :| 0 <= k < |init| && init[k].price == p;
          assert levels[k].price == p;
        }
        assert levels[n].price in Built(levels);
      }
    }
  }

  lemma EnumerationBuilds(levels: seq<PriceLevel>, m: map<real, Stored>)
    requires Stocked(m) && Enumerates(levels, m)
    ensures Built(levels) == Quantities(m) && ValidLevels(levels)
  {
    hide Built;
    var plain := Quantities(m);
    BuiltFrom(levels, plain);
    forall p ensures p in Built(levels) <==> p in m {
      if p in m {
        var k :| 0 <= k < |levels| && levels[k].price == p;
      }
    }
    assert Built(levels).Keys == plain.Keys;
    forall p | p in plain ensures Built(levels)[p] == plain[p] {
      assert p in Built(levels);
    }
  }

  // ---------- the pipeline ----------

  datatype Pipeline = Pipeline(normalizer: Normalizer, book: Replica)

  /** A message together with what the normalizer published for it. */
  datatype Event = Event(message: Message, snapshot: DepthSnapshot, updates: seq<Update>)

  function NextNormalizer(n: Normalizer, m: Message, checksumOf: Depths -> nat): Normalizer {
    if m.snapshot then TakeSnapshot(n, m, checksumOf) else TakeUpdate(n, m, checksumOf)
  }

  /** The normalizer could have published this: see the contracts of NormalizeSnapshot and NormalizeUpdate. */
  ghost predicate Genuine(n: Normalizer, e: Event, checksumOf: Depths -> nat) {
    var next := NextNormalizer(n, e.message, checksumOf);
    && ParsedMessage(e.message)
    && (IsSnapshot(e.message) && next.synchronized ==>
          && e.snapshot.venue == VENUE && e.snapshot.symbol == n.symbol && e.snapshot.sequence == 0
          && Enumerates(e.snapshot.bids, next.book.bids) && Enumerates(e.snapshot.asks, next.book.asks))
    && (IsUpdate(e.message) && n.synchronized && next.synchronized ==>
          IsDiff(e.updates, n.symbol, next.sequence, e.message.timestamp, n.book, next.book))
  }

  /** The feed skips ignored messages, gives the connection and its normalizer up when the normalizer throws, drops
      empty diffs and hands everything else to the book. */
  ghost function Receive(p: Pipeline, e: Event, checksumOf: Depths -> nat): Pipeline {
    var next := NextNormalizer(p.normalizer, e.message, checksumOf);
    if e.message.valid && e.message.ignored then p
    else if IsSnapshot(e.message) && next.synchronized then Pipeline(next, ApplySnapshot(p.book, e.snapshot))
    else if IsUpdate(e.message) && p.normalizer.synchronized && next.synchronized then
      Pipeline(next, if e.updates == [] then p.book else ApplyBatch(p.book, e.updates))
    else p.(normalizer := Unsynchronized(p.normalizer))
  }

  function Unsynchronized(n: Normalizer): Normalizer {
    Normalizer(n.symbol, n.depth, 0, false, Depths(map[], map[]))
  }

  ghost predicate InStep(p: Pipeline) {
    && p.book.synchronized && p.book.sequence == p.normalizer.sequence && p.book.levels == Plain(p.normalizer.book)
  }

  ghost predicate Mirrors(p: Pipeline) {
    && p.normalizer.symbol != "" && p.book.buffer == map[] && StockedBook(p.normalizer.book)
    && (p.normalizer.synchronized ==> InStep(p))
  }

  lemma StartMirrors(symbol: string, depth: nat)
    requires symbol != ""
    ensures Mirrors(Pipeline(Normalizer(symbol, depth, 0, false, Depths(map[], map[])), BLANK))
  {
  }

  /** Does the published book make sense to a Level-2 book: not crossed, and if it is a difference, not empty? */
  ghost predicate Publishable(p: Pipeline, e: Event, checksumOf: Depths -> nat) {
    var next := NextNormalizer(p.normalizer, e.message, checksumOf);
    && (IsSnapshot(e.message) && next.synchronized ==> !Crossed(Plain(next.book)))
    && (IsUpdate(e.message) && p.normalizer.synchronized && next.synchronized ==>
          e.updates != [] && !Crossed(Plain(next.book)))
  }

  lemma UpdateMirrors(p: Pipeline, e: Event, checksumOf: Depths -> nat)
    requires Mirrors(p) && Genuine(p.normalizer, e, checksumOf)
    requires IsUpdate(e.message) && p.normalizer.synchronized
    requires NextNormalizer(p.normalizer, e.message, checksumOf).synchronized
    ensures var next := Receive(p, e, checksumOf);
            && next.book.buffer == map[] && StockedBook(next.normalizer.book)
            && (InStep(next) <==> Publishable(p, e, checksumOf))
  {
    hide Absorbed, IsDiff, Plain, PatchAll, Crossed, Coherent, Latest, StockedBook, Identified;
    var n := p.normalizer;
    var next := NextNormalizer(n, e.message, checksumOf);
    AbsorbingKeepsStock(n.book, e.message, n.depth);
    PatchUndoesDiff(e.updates, n.symbol, next.sequence, e.message.timestamp, n.book, next.book);
    DiffIsCoherent(e.updates, n.symbol, next.sequence, e.message.timestamp, n.book, next.book);
  }

  lemma SnapshotMirrors(p: Pipeline, e: Event, checksumOf: Depths -> nat)
    requires Mirrors(p) && Genuine(p.normalizer, e, checksumOf) && Publishable(p, e, checksumOf)
    requires IsSnapshot(e.message) && NextNormalizer(p.normalizer, e.message, checksumOf).synchronized
    ensures Mirrors(Receive(p, e, checksumOf))
  {
    hide Absorbed, Crossed, Built, ApplySnapshot, ValidLevels, Enumerates;
    var next := NextNormalizer(p.normalizer, e.message, checksumOf);
    AbsorbingKeepsStock(Depths(map[], map[]), e.message, p.normalizer.depth);
    EnumerationBuilds(e.snapshot.bids, next.book.bids);
    EnumerationBuilds(e.snapshot.asks, next.book.asks);
    assert LevelsOf(e.snapshot) == Plain(next.book);
    NothingToReplay(p.book, e.snapshot);
  }

  lemma EventMirrors(p: Pipeline, e: Event, checksumOf: Depths -> nat)
    requires Mirrors(p) && Genuine(p.normalizer, e, checksumOf) && Publishable(p, e, checksumOf)
    ensures Mirrors(Receive(p, e, checksumOf))
  {
    hide Absorbed, Publishable, Genuine, ApplySnapshot, ApplyBatch, Plain;
    var next := NextNormalizer(p.normalizer, e.message, checksumOf);
    if e.message.valid && e.message.ignored {
    } else if IsSnapshot(e.message) && next.synchronized {
      SnapshotMirrors(p, e, checksumOf);
    } else if IsUpdate(e.message) && p.normalizer.synchronized && next.synchronized {
      UpdateMirrors(p, e, checksumOf);
    }
  }

  ghost function ReceiveAll(p: Pipeline, es: seq<Event>, checksumOf: Depths -> nat): Pipeline
    decreases |es|
  {
    if es == [] then p else ReceiveAll(Receive(p, es[0], checksumOf), es[1..], checksumOf)
  }

  ghost predicate Orderly(p: Pipeline, es: seq<Event>, checksumOf: Depths -> nat)
    decreases |es|
  {
    es != [] ==>
      && Genuine(p.normalizer, es[0], checksumOf) && Publishable(p, es[0], checksumOf)
      && Orderly(Receive(p, es[0], checksumOf), es[1..], checksumOf)
  }

  /** Over a run of non-empty, uncrossed differences, snapshots, mismatches and reconnects, the book downstream
      equals the normalizer's whenever the normalizer is synchronized. */
  lemma {:induction false} ReplicaMirrorsNormalizer(p: Pipeline, es: seq<Event>, checksumOf: Depths -> nat)
    requires Mirrors(p) && Orderly(p, es, checksumOf)
    ensures Mirrors(ReceiveAll(p, es, checksumOf))
    decreases |es|
  {
    hide Mirrors, Genuine, Publishable, Receive;
    if es != [] {
      EventMirrors(p, es[0], checksumOf);
      ReplicaMirrorsNormalizer(Receive(p, es[0], checksumOf), es[1..], checksumOf);
    }
  }

  /** From a fresh normalizer and a blank book on. */
  lemma FreshReplicaMirrors(symbol: string, depth: nat, es: seq<Event>, checksumOf: Depths -> nat)
    requires symbol != ""
    requires Orderly(Pipeline(Normalizer(symbol, depth, 0, false, Depths(map[], map[])), BLANK), es, checksumOf)
    ensures var start := Pipeline(Normalizer(symbol, depth, 0, false, Depths(map[], map[])), BLANK);
            var p := ReceiveAll(start, es, checksumOf);
            p.normalizer.synchronized ==> InStep(p)
  {
    hide InStep, Orderly, ReceiveAll, StockedBook;
    StartMirrors(symbol, depth);
    ReplicaMirrorsNormalizer(
      Pipeline(Normalizer(symbol, depth, 0, false, Depths(map[], map[])), BLANK), es, checksumOf);
  }
}
