/** The exchange as a function of its commands: one book per symbol, a gate of halts and price bands in front
    of submissions, one self-trade policy for every book. */
module VenueSpec {
  import opened Options
  import opened Trading
  import opened BookSpec
  import opened BookInvariants
  import opened BookPriority
  import opened BookSnapshot

  datatype Band = Band(reference: int, percent: real)
  {
    predicate Admits(price: int) {
      var centre := reference as real;
      centre * (1.0 - percent / 100.0) <= price as real <= centre * (1.0 + percent / 100.0)
    }
  }

  datatype Venue = Venue(
    capacity: nat, policy: StpPolicy, books: map<nat, Book>,
    halted: bool, haltedSymbols: set<nat>, bands: map<nat, Band>)

  datatype VenueOutcome = VenueOutcome(venue: Venue, emitted: seq<Emission>, ok: bool)

  datatype VenueCommand =
    | TradeAt(command: Command)
    | HaltAll
    | ResumeAll
    | HaltSymbol(symbol: nat)
    | ResumeSymbol(symbol: nat)
    | SetPriceBand(symbol: nat, reference: int, percent: real)
    | ClearPriceBand(symbol: nat)
    | SetPolicy(policy: StpPolicy)

  function SymbolOf(c: Command): nat {
    match c
    case SubmitOrder(r) => r.symbol
    case CancelOrder(r) => r.symbol
    case ReplaceOrder(r) => r.symbol
  }

  /** The book of a symbol, created on first use. */
  function BookFor(v: Venue, symbol: nat): Book {
    if symbol in v.books then v.books[symbol] else Empty(symbol, v.capacity, v.policy)
  }

  function Gate(v: Venue, r: OrderRequest): RejectReason {
    if v.halted || r.symbol in v.haltedSymbols then TradingHalted
    else if !r.kind.Market? && r.symbol in v.bands && !v.bands[r.symbol].Admits(r.price) then PriceBandViolation
    else NoReason
  }

  /** A refusal at the gate is reported outside every book's numbering. */
  function GateReport(r: OrderRequest, reason: RejectReason): Emission {
    Report(0, r.orderId, Rejected, r.quantity, reason, r.symbol)
  }

  function ToBook(v: Venue, c: Command): VenueOutcome {
    var o := Step(BookFor(v, SymbolOf(c)), c);
    VenueOutcome(v.(books := v.books[SymbolOf(c) := o.book]), o.emitted, o.ok)
  }

  predicate Passes(v: Venue, c: Command) { c.SubmitOrder? ==> Gate(v, c.order) == NoReason }

  function TradeOn(v: Venue, c: Command): VenueOutcome {
    if Passes(v, c) then ToBook(v, c)
    else VenueOutcome(v, [GateReport(c.order, Gate(v, c.order))], false)
  }

  function WithPolicy(books: map<nat, Book>, policy: StpPolicy): map<nat, Book> {
    map s | s in books :: books[s].(policy := policy)
  }

  predicate BandAllowed(reference: int, percent: real) { reference > 0 && percent > 0.0 }

  function VenueStep(v: Venue, c: VenueCommand): VenueOutcome {
    match c
    case TradeAt(command) => TradeOn(v, command)
    case HaltAll => VenueOutcome(v.(halted := true), [], true)
    case ResumeAll => VenueOutcome(v.(halted := false), [], true)
    case HaltSymbol(s) => VenueOutcome(v.(haltedSymbols := v.haltedSymbols + {s}), [], true)
    case ResumeSymbol(s) => VenueOutcome(v.(haltedSymbols := v.haltedSymbols - {s}), [], true)
    case SetPriceBand(s, reference, percent) =>
      if BandAllowed(reference, percent) then VenueOutcome(v.(bands := v.bands[s := Band(reference, percent)]), [],
          true)
      else VenueOutcome(v, [], false)
    case ClearPriceBand(s) => VenueOutcome(v.(bands := v.bands - {s}), [], true)
    case SetPolicy(policy) => VenueOutcome(v.(policy := policy, books := WithPolicy(v.books, policy)), [], true)
  }

  function VenueRun(v: Venue, cs: seq<VenueCommand>): VenueOutcome
    decreases |cs|
  {
    if cs == [] then VenueOutcome(v, [], true)
    else
      var first := VenueStep(v, cs[0]);
      var rest := VenueRun(first.venue, cs[1..]);
      rest.(emitted := first.emitted + rest.emitted)
  }

  /** Every book is filed under its own symbol, has the venue's settings, and is a reachable book. */
  ghost predicate Orderly(v: Venue) {
    forall s :: s in v.books ==>
      && v.books[s].symbol == s && v.books[s].capacity == v.capacity && v.books[s].policy == v.policy
      && WellFormed(v.books[s])
  }

  lemma NewBookIsOrderly(v: Venue, s: nat)
    requires Orderly(v)
    ensures var b := BookFor(v, s);
            b.symbol == s && b.capacity == v.capacity && b.policy == v.policy && WellFormed(b)
  {
  }

  lemma PolicyIsFree(b: Book, policy: StpPolicy)
    ensures WellFormed(b) <==> WellFormed(b.(policy := policy))
  {
  }

  lemma StepKeepsOrder(v: Venue, c: VenueCommand)
    requires Orderly(v)
    ensures Orderly(VenueStep(v, c).venue)
  {
    hide WellFormed, Step, Gate, BookFor;
    match c
    case TradeAt(command) =>
      NewBookIsOrderly(v, SymbolOf(command));
      var b := BookFor(v, SymbolOf(command));
      StepKeepsBook(b, command);
      StepKeepsSettings(b, command);
    case SetPolicy(policy) =>
      forall s | s in v.books ensures WellFormed(v.books[s].(policy := policy)) {
        PolicyIsFree(v.books[s], policy);
      }
    case HaltAll => case ResumeAll => case HaltSymbol(s) => case ResumeSymbol(s) =>
    case SetPriceBand(s, reference, percent) => case ClearPriceBand(s) =>
  }

  // ---------- symbols do not interfere ----------

  /** What one symbol's book gets to see of a run. */
  datatype BookEvent = Do(command: Command) | Adopt(policy: StpPolicy)

  function Replay(b: Book, es: seq<BookEvent>): Outcome
    decreases |es|
  {
    if es == [] then Outcome(b, [], true)
    else if es[0].Adopt? then Replay(b.(policy := es[0].policy), es[1..])
    else
      var first := Step(b, es[0].command);
      var rest := Replay(first.book, es[1..]);
      rest.(emitted := first.emitted + rest.emitted)
  }

  function EventsFor(v: Venue, c: VenueCommand, s: nat): seq<BookEvent> {
    match c
    case TradeAt(command) => if SymbolOf(command) == s && Passes(v, command) then [Do(command)] else []
    case SetPolicy(policy) => [Adopt(policy)]
    case HaltAll => [] case ResumeAll => [] case HaltSymbol(_) => [] case ResumeSymbol(_) => []
    case SetPriceBand(_, _, _) => [] case ClearPriceBand(_) => []
  }

  function Admitted(v: Venue, cs: seq<VenueCommand>, s: nat): seq<BookEvent>
    decreases |cs|
  {
    if cs == [] then [] else EventsFor(v, cs[0], s) + Admitted(VenueStep(v, cs[0]).venue, cs[1..], s)
  }

  /** The emissions that come from the book of symbol `s`: everything numbered that names it. */
  function FromBook(es: seq<Emission>, s: nat): seq<Emission>
    decreases |es|
  {
    if es == [] then []
    else (if es[0].symbol == s && es[0].sequence > 0 then [es[0]] else []) + FromBook(es[1..], s)
  }

  lemma {:induction false} FromBookJoins(a: seq<Emission>, b: seq<Emission>, s: nat)
    ensures FromBook(a + b, s) == FromBook(a, s) + FromBook(b, s)
    decreases |a|
  {
    if a == [] {
      assert a + b == b;
    } else {
      assert (a + b)[1..] == a[1..] + b;
      FromBookJoins(a[1..], b, s);
    }
  }

  ghost predicate AllNamed(es: seq<Emission>, s: nat) {
    forall k :: 0 <= k < |es| ==> es[k].symbol == s
  }

  lemma {:induction false} AllOrNothingFrom(es: seq<Emission>, s: nat, mine: nat, sequence: nat)
    requires AllNamed(es, mine) && Consecutive(es, sequence)
    ensures FromBook(es, s) == if s == mine then es else []
    decreases |es|
  {
    if es != [] {
      AllOrNothingFrom(es[1..], s, mine, sequence + 1);
    }
  }

  lemma {:induction false} WalkNamesSymbol(
      q: seq<Resting>, r: OrderRequest, size: nat, policy: StpPolicy, sequence: nat)
    ensures AllNamed(Match(q, r, size, policy, sequence).emitted, r.symbol)
    decreases |q|
  {
    if !Idle(q, r, size) {
      var meeting := Meet(q[0], r, size, policy, sequence);
      assert AllNamed(meeting.emitted, r.symbol);
      if meeting.Gone? {
        WalkNamesSymbol(q[1..], r, meeting.remaining, policy, sequence + |meeting.emitted|);
      }
    }
  }

  lemma SubmitNamesSymbol(b: Book, r: OrderRequest)
    ensures AllNamed(Submit(b, r).emitted, b.symbol)
  {
    hide Match, TotalCrossing, Insert;
    if Refusal(b, r) == NoReason {
      WalkNamesSymbol(b.Queue(r.side.Opposite()), r, r.quantity, b.policy, b.sequence + 1);
      ConclusionNamesSymbol(AfterWalk(b, r), r, WalkOf(b, r).remaining);
    }
  }

  lemma ConclusionNamesSymbol(b: Book, r: OrderRequest, remaining: nat)
    ensures AllNamed(Conclude(b, r, remaining).emitted, b.symbol)
  {
    hide Insert;
  }

  lemma StepNamesSymbol(b: Book, c: Command)
    ensures AllNamed(Step(b, c).emitted, b.symbol)
  {
    hide Submit, Removed, Reduced;
    match c
    case SubmitOrder(r) => SubmitNamesSymbol(b, r);
    case CancelOrder(r) =>
    case ReplaceOrder(r) =>
      var found := Find(b, r.orderId);
      if found.Some? {
        var p := found.value;
        RemovalKeepsSymbol(b, p);
        SubmitNamesSymbol(Removed(b, p).(sequence := b.sequence + 1), Resubmission(b, p.side, r));
      }
  }

  lemma RemovalKeepsSymbol(b: Book, p: Place)
    requires p.at < |b.Queue(p.side)|
    ensures Removed(b, p).symbol == b.symbol
  {
  }

  /** One command at the venue is one event, or none, for each symbol's book. */
  lemma StepIsolated(v: Venue, c: VenueCommand, s: nat)
    requires Orderly(v)
    ensures var o := VenueStep(v, c);
            var here := Replay(BookFor(v, s), EventsFor(v, c, s));
            BookFor(o.venue, s) == here.book && FromBook(o.emitted, s) == here.emitted
  {
    hide WellFormed, Step, Gate;
    if c.TradeAt? {
      TradeIsolated(v, c.command, s);
    }
  }

  lemma OneEvent(b: Book, e: BookEvent)
    ensures e.Do? ==> Replay(b, [e]) == Outcome(Step(b, e.command).book, Step(b, e.command).emitted, true)
  {
    hide Step;
    assert [e][1..] == [];
    if e.Do? {
      assert Step(b, e.command).emitted + [] == Step(b, e.command).emitted;
    }
  }

  lemma TradeIsolated(v: Venue, c: Command, s: nat)
    requires Orderly(v)
    ensures var o := TradeOn(v, c);
            var here := Replay(BookFor(v, s), EventsFor(v, TradeAt(c), s));
            BookFor(o.venue, s) == here.book && FromBook(o.emitted, s) == here.emitted
  {
    hide WellFormed, Step, Gate;
    var mine := SymbolOf(c);
    if Passes(v, c) {
      var b := BookFor(v, mine);
      NewBookIsOrderly(v, mine);
      StepNamesSymbol(b, c);
      StepNumbersConsecutively(b, c);
      AllOrNothingFrom(Step(b, c).emitted, s, mine, b.sequence);
      OneEvent(b, Do(c));
    } else {
      assert FromBook(TradeOn(v, c).emitted[1..], s) == [];
    }
  }

  lemma {:induction false} ReplayJoins(b: Book, x: seq<BookEvent>, y: seq<BookEvent>)
    ensures var first := Replay(b, x);
            var second := Replay(first.book, y);
            Replay(b, x + y).book == second.book && Replay(b, x + y).emitted == first.emitted + second.emitted
    decreases |x|
  {
    hide Step;
    if x == [] {
      assert x + y == y;
    } else {
      assert (x + y)[1..] == x[1..] + y;
      ReplayJoins(if x[0].Adopt? then b.(policy := x[0].policy) else Step(b, x[0].command).book, x[1..], y);
    }
  }

  /** Isolation: over any run, what a symbol's book becomes and emits is what it would have become and emitted
      on its own, given only the commands for its symbol that pass the gate and the changes of policy. */
  lemma {:induction false} SymbolsAreIsolated(v: Venue, cs: seq<VenueCommand>, s: nat)
    requires Orderly(v)
    ensures var o := VenueRun(v, cs);
            var alone := Replay(BookFor(v, s), Admitted(v, cs, s));
            && Orderly(o.venue)
            && BookFor(o.venue, s) == alone.book
            && FromBook(o.emitted, s) == alone.emitted
    decreases |cs|
  {
    hide Orderly, VenueStep, EventsFor, BookFor, Step;
    if cs == [] {
    } else {
      var first := VenueStep(v, cs[0]);
      StepKeepsOrder(v, cs[0]);
      StepIsolated(v, cs[0], s);
      SymbolsAreIsolated(first.venue, cs[1..], s);
      ReplayJoins(BookFor(v, s), EventsFor(v, cs[0], s), Admitted(first.venue, cs[1..], s));
      FromBookJoins(first.emitted, VenueRun(first.venue, cs[1..]).emitted, s);
    }
  }

  lemma {:induction false} ReplayNumbersConsecutively(b: Book, es: seq<BookEvent>)
    ensures Consecutive(Replay(b, es).emitted, b.sequence)
    decreases |es|
  {
    hide Step;
    if es != [] {
      if es[0].Adopt? {
        ReplayNumbersConsecutively(b.(policy := es[0].policy), es[1..]);
      } else {
        var first := Step(b, es[0].command);
        StepNumbersConsecutively(b, es[0].command);
        ReplayNumbersConsecutively(first.book, es[1..]);
        ConsecutiveJoin(first.emitted, Replay(first.book, es[1..]).emitted, b.sequence);
      }
    }
  }

  /** However the symbols interleave, each book's own emissions are numbered without a gap. */
  lemma EachBookNumbersConsecutively(v: Venue, cs: seq<VenueCommand>, s: nat)
    requires Orderly(v)
    ensures Consecutive(FromBook(VenueRun(v, cs).emitted, s), BookFor(v, s).sequence)
  {
    hide Orderly, VenueRun, Admitted, BookFor, Replay;
    SymbolsAreIsolated(v, cs, s);
    ReplayNumbersConsecutively(BookFor(v, s), Admitted(v, cs, s));
  }

  // ---------- what a halt stops ----------

  predicate Trades(es: seq<Emission>) { exists e :: e in es && e.Trade? }

  /** A replacement the book carries out by taking the order off and submitting it anew. */
  predicate Requeues(b: Book, r: ReplaceRequest) {
    var found := Find(b, r.orderId);
    && found.Some? && b.Queue(found.value.side)[found.value.at].client == r.clientId
    && r.newPrice > 0 && r.newQuantity > 0 && !InPlace(b.Queue(found.value.side)[found.value.at], r)
  }

  /** Is there liquidity on the other side that the policy lets the order trade with? */
  predicate Reaches(b: Book, r: OrderRequest) { Fillable(b.Queue(r.side.Opposite()), r, b.policy) > 0 }

  /** What a book has to look like for a command to trade on it. */
  predicate FindsLiquidity(b: Book, c: Command) {
    match c
    case SubmitOrder(r) => Refusal(b, r) == NoReason && Reaches(b, r)
    case CancelOrder(_) => false
    case ReplaceOrder(r) => Requeues(b, r) && Reaches(b, Resubmission(b, Find(b, r.orderId).value.side, r))
  }

  lemma {:induction false} TradesExecute(es: seq<Emission>)
    ensures Trades(es) <==> Executions(es) != []
    decreases |es|
  {
    if es != [] {
      assert es == [es[0]] + es[1..];
      TradesExecute(es[1..]);
    }
  }

  /** Price-time priority prescribes something from `k` on when something is on offer there. */
  lemma {:induction false} SomethingPrescribed(q: seq<Resting>, k: nat, r: OrderRequest, size: nat, policy: StpPolicy)
    requires k <= Reach(q, r, policy) && Ahead(q, k, r, policy) == 0 && size > 0
    ensures Prescribed(q, k, r, size, policy) != [] <==> Fillable(q, r, policy) > 0
    decreases |q| - k
  {
    if k == Reach(q, r, policy) {
      NothingPrescribed(q, k, r, size, policy);
    } else {
      AheadGrows(q, k, r, policy);
      if Offer(q[k], r, policy) > 0 {
        AheadGrowsTo(q, k + 1, Reach(q, r, policy), r, policy);
      } else {
        SomethingPrescribed(q, k + 1, r, size, policy);
      }
    }
  }

  /** An admitted order trades exactly when it reaches liquidity. */
  lemma AdmittedOrderTrades(b: Book, r: OrderRequest)
    requires Positive(b.Queue(r.side.Opposite())) && Refusal(b, r) == NoReason
    ensures Trades(Submit(b, r).emitted) <==> Reaches(b, r)
  {
    hide Match, Executions, Prescribed, Reach, Insert, TotalCrossing;
    var q := b.Queue(r.side.Opposite());
    var walk := WalkOf(b, r);
    TradesFollowPriority(q, r, r.quantity, b.policy, b.sequence + 1);
    SomethingPrescribed(q, 0, r, r.quantity, b.policy);
    TradesExecute(walk.emitted);
    ConclusionOnlyReports(AfterWalk(b, r), r, walk.remaining);
    var es := Submit(b, r).emitted;
    assert es[0].Report? && es[1..][..|walk.emitted|] == walk.emitted;
    assert forall e :: e in walk.emitted ==> e in es;
  }

  lemma ConclusionOnlyReports(b: Book, r: OrderRequest, remaining: nat)
    ensures forall e :: e in Conclude(b, r, remaining).emitted ==> e.Report?
  {
    hide Insert;
  }

  /** A command trades on a book if and only if it finds liquidity there. */
  lemma WhenCommandsTrade(b: Book, c: Command)
    requires WellFormed(b)
    ensures Trades(Step(b, c).emitted) <==> FindsLiquidity(b, c)
  {
    hide Execute, Fillable, Refusal, Insert, Book.Holds, Without;
    match c
    case SubmitOrder(r) =>
      if Refusal(b, r) == NoReason {
        AdmittedOrderTrades(b, r);
      }
    case CancelOrder(r) =>
    case ReplaceOrder(r) =>
      if Requeues(b, r) {
        RequeueTrades(b, r);
      }
  }

  lemma RequeueTrades(b: Book, r: ReplaceRequest)
    requires WellFormed(b) && Requeues(b, r)
    ensures Trades(Replace(b, r).emitted) <==> Reaches(b, Resubmission(b, Find(b, r.orderId).value.side, r))
  {
    hide Execute, Fillable, Refusal, Insert, Without;
    var p := Find(b, r.orderId).value;
    var left := Removed(b, p).(sequence := b.sequence + 1);
    ResubmissionIsAdmitted(b, p, r);
    AdmittedOrderTrades(left, Resubmission(b, p.side, r));
    var again := Requeue(b, p, r).emitted;
    assert Replace(b, r).emitted[1..] == again;
    assert forall e :: e in again ==> e in Replace(b, r).emitted;
  }

  /** A command trades at the venue if and only if the gate lets it pass, which it does for everything but
      submissions, and it finds liquidity in its book. */
  lemma WhenVenuesTrade(v: Venue, c: Command)
    requires Orderly(v)
    ensures Trades(TradeOn(v, c).emitted) <==> Passes(v, c) && FindsLiquidity(BookFor(v, SymbolOf(c)), c)
  {
    hide WellFormed, Step, Gate, FindsLiquidity;
    if Passes(v, c) {
      NewBookIsOrderly(v, SymbolOf(c));
      WhenCommandsTrade(BookFor(v, SymbolOf(c)), c);
    }
  }

  /** At a halted venue exactly the replacements still trade that give up their place and then reach liquidity. */
  lemma WhenHaltedVenuesTrade(v: Venue, c: Command)
    requires Orderly(v) && v.halted
    ensures Trades(TradeOn(v, c).emitted) <==>
              && c.ReplaceOrder?
              && var r := c.replacement;
                 var b := BookFor(v, r.symbol);
                 Requeues(b, r) && Reaches(b, Resubmission(b, Find(b, r.orderId).value.side, r))
  {
    hide Orderly, Requeues, Reaches, TradeOn, BookFor;
    WhenVenuesTrade(v, c);
  }

  const HALTED_BOOK: Book := Book(1, 8, NoPrevention, [Resting(1, 7, 90, 5)], [Resting(2, 9, 100, 5)], 4)
  const HALTED_VENUE: Venue := Venue(8, NoPrevention, map[1 := HALTED_BOOK], true, {}, map[])

  /** A halted venue on which raising a bid from 90 to 100 buys what is offered there. */
  lemma HaltedVenueCanTrade()
    ensures Orderly(HALTED_VENUE) && HALTED_VENUE.halted
    ensures Trades(TradeOn(HALTED_VENUE, ReplaceOrder(ReplaceRequest(1, 7, 100, 5, 1))).emitted)
  {
    var r := ReplaceRequest(1, 7, 100, 5, 1);
    var q := HALTED_BOOK.asks;
    assert BookFor(HALTED_VENUE, 1) == HALTED_BOOK;
    assert Find(HALTED_BOOK, 1) == Some(Place(Buy, 0));
    assert q[1..] == [];
    assert Reach(q, Resubmission(HALTED_BOOK, Buy, r), NoPrevention) == 1;
    WhenHaltedVenuesTrade(HALTED_VENUE, ReplaceOrder(r));
  }
}
