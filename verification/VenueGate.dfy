/** The exchange's gate and its snapshots from outside: which submissions pass, how long a halt lasts and what it stops,
    and which records are rebuilt. */
module VenueGate {
  import opened Options
  import opened Trading
  import opened BookSpec
  import opened BookHash
  import opened BookWalk
  import opened BookSnapshot
  import opened VenueSpec
  import opened Venues

  // ---------- submissions ----------

  /** Both bounds of a band belong to it, and a market order has no price to test. */
  predicate WithinBand(v: Venue, r: OrderRequest) {
    r.kind.Market? || r.symbol !in v.bands ||
    var band := v.bands[r.symbol];
    && band.reference as real * (100.0 - band.percent) <= 100.0 * r.price as real
    && 100.0 * r.price as real <= band.reference as real * (100.0 + band.percent)
  }

  predicate TradingStopped(v: Venue, s: nat) { v.halted || s in v.haltedSymbols }

  lemma BoundsInPercent(centre: real, percent: real, price: real)
    ensures centre * (1.0 - percent / 100.0) <= price <==> centre * (100.0 - percent) <= 100.0 * price
    ensures price <= centre * (1.0 + percent / 100.0) <==> 100.0 * price <= centre * (100.0 + percent)
  {
    var part := percent / 100.0;
    assert 100.0 * part == percent;
    assert centre * (100.0 - percent) == 100.0 * (centre * (1.0 - part));
    assert centre * (100.0 + percent) == 100.0 * (centre * (1.0 + part));
  }

  /** A submission is passed on if and only if neither the venue nor its symbol is halted and its price is within the
      symbol's band. Otherwise nothing changes and one rejection, outside the numbering, says which it was. */
  lemma WhenSubmissionsPass(v: Venue, r: OrderRequest)
    ensures var o := VenueStep(v, TradeAt(SubmitOrder(r)));
            if !TradingStopped(v, r.symbol) && WithinBand(v, r) then
              var here := Submit(BookFor(v, r.symbol), r);
              o == VenueOutcome(v.(books := v.books[r.symbol := here.book]), here.emitted, here.ok)
            else
              var reason := if TradingStopped(v, r.symbol) then TradingHalted else PriceBandViolation;
              o == VenueOutcome(v, [Report(0, r.orderId, Rejected, r.quantity, reason, r.symbol)], false)
  {
    hide Submit, BookFor;
    if r.symbol in v.bands {
      var band := v.bands[r.symbol];
      BoundsInPercent(band.reference as real, band.percent, r.price as real);
    }
  }

  /** Cancellations and replacements go to the book whatever is halted, and no other book is touched. */
  lemma OthersAlwaysPass(v: Venue, c: Command)
    requires !c.SubmitOrder?
    ensures var here := Step(BookFor(v, SymbolOf(c)), c);
            VenueStep(v, TradeAt(c)) ==
              VenueOutcome(v.(books := v.books[SymbolOf(c) := here.book]), here.emitted, here.ok)
  {
    hide Step, BookFor;
  }

  // ---------- how long a halt lasts ----------

  /** Is trading in the symbol stopped, and does no command of the run lift the halt that stops it? */
  predicate StaysStopped(v: Venue, cs: seq<VenueCommand>, s: nat) {
    (v.halted && ResumeAll !in cs) || (s in v.haltedSymbols && ResumeSymbol(s) !in cs)
  }

  predicate Submits(e: BookEvent) { e.Do? && e.command.SubmitOrder? }

  lemma StepStaysStopped(v: Venue, cs: seq<VenueCommand>, s: nat)
    requires cs != [] && StaysStopped(v, cs, s)
    ensures StaysStopped(VenueStep(v, cs[0]).venue, cs[1..], s)
    ensures forall e :: e in EventsFor(v, cs[0], s) ==> !Submits(e)
  {
    hide Step, BookFor, WithPolicy, BandAllowed;
    assert cs[0] in cs && forall c :: c in cs[1..] ==> c in cs;
  }

  /** A halt lasts until it is lifted by name: over any run that does not, trading in the symbol is stopped at the end,
      and no submission has reached the symbol's book. */
  lemma {:induction false} HaltsLast(v: Venue, cs: seq<VenueCommand>, s: nat)
    requires StaysStopped(v, cs, s)
    ensures TradingStopped(VenueRun(v, cs).venue, s)
    ensures forall e :: e in Admitted(v, cs, s) ==> !Submits(e)
    decreases |cs|
  {
    hide VenueStep, EventsFor;
    if cs != [] {
      StepStaysStopped(v, cs, s);
      HaltsLast(VenueStep(v, cs[0]).venue, cs[1..], s);
    }
  }

  predicate Replaces(e: BookEvent) { e.Do? && e.command.ReplaceOrder? }

  lemma {:induction false} OnlyReplacementsTrade(b: Book, es: seq<BookEvent>)
    requires forall e :: e in es ==> !Submits(e) && !Replaces(e)
    ensures forall e :: e in Replay(b, es).emitted ==> !e.Trade?
    decreases |es|
  {
    hide Submit, Replace;
    if es != [] {
      assert es[0] in es && forall e :: e in es[1..] ==> e in es;
      if es[0].Adopt? {
        OnlyReplacementsTrade(b.(policy := es[0].policy), es[1..]);
      } else {
        OnlyReplacementsTrade(Step(b, es[0].command).book, es[1..]);
      }
    }
  }

  lemma {:induction false} NoReplacementAdmitted(v: Venue, cs: seq<VenueCommand>, s: nat)
    requires forall c :: c in cs && c.TradeAt? && c.command.ReplaceOrder? ==> SymbolOf(c.command) != s
    ensures forall e :: e in Admitted(v, cs, s) ==> !Replaces(e)
    decreases |cs|
  {
    hide VenueStep, Passes;
    if cs != [] {
      assert cs[0] in cs && forall c :: c in cs[1..] ==> c in cs;
      NoReplacementAdmitted(VenueStep(v, cs[0]).venue, cs[1..], s);
    }
  }

  /** While trading in a symbol is stopped, and none of its orders is replaced, its book does not trade. */
  lemma StoppedSymbolsDoNotTrade(v: Venue, cs: seq<VenueCommand>, s: nat)
    requires Orderly(v) && StaysStopped(v, cs, s)
    requires forall c :: c in cs && c.TradeAt? && c.command.ReplaceOrder? ==> SymbolOf(c.command) != s
    ensures forall e :: e in FromBook(VenueRun(v, cs).emitted, s) ==> !e.Trade?
  {
    hide Orderly, VenueRun, Admitted, BookFor, Replay, FromBook, StaysStopped;
    HaltsLast(v, cs, s);
    NoReplacementAdmitted(v, cs, s);
    SymbolsAreIsolated(v, cs, s);
    OnlyReplacementsTrade(BookFor(v, s), Admitted(v, cs, s));
  }

  // ---------- records ----------

  /** Every order can rest: it is for the symbol, has a quantity and a price, and an id of its own. */
  ghost predicate AllRestable(symbol: nat, orders: seq<OrderRequest>) {
    && (forall k :: 0 <= k < |orders| ==>
          orders[k].symbol == symbol && orders[k].quantity > 0 && orders[k].price > 0)
    && (forall i, j :: 0 <= i < j < |orders| ==> orders[i].orderId != orders[j].orderId)
  }

  lemma RestingHolds(b: Book, s: Side, o: Resting)
    ensures var b' := RestOrder(b, s, o);
            && (forall id :: b'.Holds(id) <==> b.Holds(id) || id == o.id)
            && |b'.bids| + |b'.asks| == |b.bids| + |b.asks| + 1
            && b'.symbol == b.symbol && b'.capacity == b.capacity
  {
    var q := b.Queue(s);
    var k := InsertionPoint(s, q, o.price);
    var after := Insert(s, q, o);
    assert after[k] == o;
    forall i | 0 <= i < |q| ensures after[if i < k then i else i + 1] == q[i] {
    }
    forall id ensures RestOrder(b, s, o).Holds(id) <==> b.Holds(id) || id == o.id {
    }
  }

  lemma {:induction false} WhenOrdersRest(b: Book, orders: seq<OrderRequest>)
    ensures RestAll(b, orders).Some? <==>
              && AllRestable(b.symbol, orders) && (orders == [] || |b.bids| + |b.asks| + |orders| <= b.capacity)
              && forall k :: 0 <= k < |orders| ==> !b.Holds(orders[k].orderId)
    decreases |orders|
  {
    hide RestOrder, Book.Holds;
    if orders != [] {
      var first, rest := orders[0], orders[1..];
      assert forall k :: 0 < k < |orders| ==> orders[k] == rest[k - 1];
      if Restorable(b, first) {
        RestingHolds(b, first.side, Leftover(first, first.quantity));
        WhenOrdersRest(RestOrder(b, first.side, Leftover(first, first.quantity)), rest);
        FirstAndRest(b.symbol, orders);
      }
    }
  }

  lemma FirstAndRest(symbol: nat, orders: seq<OrderRequest>)
    requires orders != []
    ensures AllRestable(symbol, orders) <==>
              && AllRestable(symbol, [orders[0]]) && AllRestable(symbol, orders[1..])
              && forall k :: 0 <= k < |orders[1..]| ==> orders[1..][k].orderId != orders[0].orderId
  {
    assert orders == [orders[0]] + orders[1..];
    assert forall k :: 0 < k < |orders| ==> orders[k] == orders[1..][k - 1];
  }

  /** A record is rebuilt if and only if its orders fit, each can rest, and the book they make has the hash that was
      recorded; the hash of any other state refuses it. */
  lemma WhenRecordsAreRebuilt(record: BookRecord, capacity: nat, policy: StpPolicy)
    ensures var restored := Restore(Empty(record.symbol, capacity, policy), record.orders, record.sequence);
            && (restored.Some? <==> AllRestable(record.symbol, record.orders) && |record.orders| <= capacity)
            && Rebuilt(record, capacity, policy) ==
                 if restored.Some? && StateHash(restored.value) == record.hash then restored else None
  {
    hide RestAll, StateHash;
    WhenOrdersRest(Cleared(Empty(record.symbol, capacity, policy)), record.orders);
  }

  /** The hash of a book does not tell it from every other: a record with the hash of one well-formed book and the
      orders of another is rebuilt. */
  lemma HashMayMistakeABook()
    ensures var record := RecordOf(TWO_AND_ONE).(orders := RestingOrders(ONE_AND_TWO));
            record.orders != RestingOrders(TWO_AND_ONE) && Rebuilt(record, 8, NoPrevention) == Some(ONE_AND_TWO)
  {
    hide StateHash, RestingOrders, WellFormed, Rebuilt;
    DifferentBooksHashAlike();
    RecordRebuilds(ONE_AND_TWO, 8, NoPrevention);
    RecordRebuilds(TWO_AND_ONE, 8, NoPrevention);
    assert Settled(ONE_AND_TWO, 8, NoPrevention) == ONE_AND_TWO;
    assert Settled(TWO_AND_ONE, 8, NoPrevention) == TWO_AND_ONE;
    assert RecordOf(TWO_AND_ONE).(orders := RestingOrders(ONE_AND_TWO)) == RecordOf(ONE_AND_TWO);
  }

  /** A snapshot is loaded if and only if each of its records is rebuilt. */
  lemma {:induction false} WhenSnapshotsLoad(
    books: map<nat, Book>, records: seq<BookRecord>, capacity: nat, policy: StpPolicy)
    ensures Load(books, records, capacity, policy).ok <==>
              forall k :: 0 <= k < |records| ==> Rebuilt(records[k], capacity, policy).Some?
    decreases |records|
  {
    hide Rebuilt;
    if records != [] && Rebuilt(records[0], capacity, policy).Some? {
      var b := Rebuilt(records[0], capacity, policy).value;
      WhenSnapshotsLoad(if b.symbol in books then books else books[b.symbol := b], records[1..], capacity, policy);
      assert forall k :: 0 < k < |records| ==> records[k] == records[1..][k - 1];
    }
  }

  // ---------- administration ----------

  /** No command but those on orders touches an order or emits anything: every book keeps its queues and its numbering,
      and only a change of policy changes what it does with them. */
  lemma AdministrationTouchesNoOrder(v: Venue, c: VenueCommand)
    requires !c.TradeAt?
    ensures var o := VenueStep(v, c);
            && o.emitted == [] && o.venue.capacity == v.capacity && o.venue.books.Keys == v.books.Keys
            && (forall s :: s in v.books ==>
                  o.venue.books[s] == if c.SetPolicy? then v.books[s].(policy := c.policy) else v.books[s])
            && o.venue.policy == (if c.SetPolicy? then c.policy else v.policy)
  {
  }

  /** Which symbols are stopped after a command, and which have a band. */
  lemma AdministrationTakesEffect(v: Venue, c: VenueCommand, s: nat)
    ensures var o := VenueStep(v, c);
            && (c == HaltSymbol(s) || c == HaltAll ==> TradingStopped(o.venue, s))
            && (c == ResumeSymbol(s) ==> (TradingStopped(o.venue, s) <==> v.halted))
            && (c == ResumeAll ==> (TradingStopped(o.venue, s) <==> s in v.haltedSymbols))
            && (c != HaltSymbol(s) && c != HaltAll && c != ResumeSymbol(s) && c != ResumeAll ==>
                  (TradingStopped(o.venue, s) <==> TradingStopped(v, s)))
            && (if c.SetPriceBand? && c.symbol == s && c.reference > 0 && c.percent > 0.0 then
                  o.ok && s in o.venue.bands && o.venue.bands[s] == Band(c.reference, c.percent)
                else if c == ClearPriceBand(s) then s !in o.venue.bands
                else
                  && (s in o.venue.bands <==> s in v.bands)
                  && (s in v.bands ==> o.venue.bands[s] == v.bands[s])
                  && (c.SetPriceBand? && c.symbol == s ==> !o.ok))
  {
    hide Step, BookFor, WithPolicy, Gate;
  }
}
