/** What a client may rely on, in plain comparisons: its limit price, its place in the queue, and when its orders,
    cancellations and replacements are carried out. */
module BookLimits {
  import opened Options
  import opened Trading
  import opened BookSpec
  import opened BookInvariants
  import opened BookPriority

  // ---------- limit prices ----------

  /** No worse than the order allows. */
  predicate WithinLimit(side: Side, limit: int, price: int) { if side.Buy? then price <= limit else price >= limit }

  predicate Allows(r: OrderRequest, price: int) { r.kind.Market? || WithinLimit(r.side, r.price, price) }

  /** There is nothing on the queue, or the best of it is beyond the order's limit. */
  predicate FacesNothing(q: seq<Resting>, r: OrderRequest) {
    q == [] || (!r.kind.Market? && if r.side.Buy? then q[0].price > r.price else q[0].price < r.price)
  }

  /** The trade takes some of an order that was on the queue, at that order's price, for this taker. */
  ghost predicate TakesFrom(e: Emission, q: seq<Resting>, r: OrderRequest) {
    && e.Trade? && e.taker == r.orderId && e.takerSide == r.side && e.symbol == r.symbol && Allows(r, e.price)
    && exists k :: 0 <= k < |q| && q[k].id == e.maker && q[k].price == e.price && 0 < e.quantity <= q[k].remaining
  }

  lemma MeetingTakes(maker: Resting, r: OrderRequest, size: nat, policy: StpPolicy, sequence: nat)
    requires maker.remaining > 0 && size > 0 && Crosses(r, maker.price)
    ensures forall e :: e in Meet(maker, r, size, policy, sequence).emitted && e.Trade? ==> TakesFrom(e, [maker], r)
  {
    assert [maker][0] == maker;
  }

  lemma MoreToTakeFrom(e: Emission, maker: Resting, q: seq<Resting>, r: OrderRequest)
    requires q != [] && q[0] == maker
    ensures TakesFrom(e, [maker], r) ==> TakesFrom(e, q, r)
    ensures TakesFrom(e, q[1..], r) ==> TakesFrom(e, q, r)
  {
    assert forall k :: 0 <= k < |q[1..]| ==> q[1..][k] == q[k + 1];
  }

  lemma {:induction false} WalkTakes(q: seq<Resting>, r: OrderRequest, size: nat, policy: StpPolicy, sequence: nat)
    requires Positive(q)
    ensures forall e :: e in Match(q, r, size, policy, sequence).emitted && e.Trade? ==> TakesFrom(e, q, r)
    decreases |q|
  {
    hide Meet, TakesFrom;
    if !Idle(q, r, size) {
      var meeting := Meet(q[0], r, size, policy, sequence);
      MeetingTakes(q[0], r, size, policy, sequence);
      if meeting.Gone? {
        WalkTakes(q[1..], r, meeting.remaining, policy, sequence + |meeting.emitted|);
      }
      forall e | e in Match(q, r, size, policy, sequence).emitted && e.Trade? ensures TakesFrom(e, q, r) {
        MoreToTakeFrom(e, q[0], q, r);
      }
    }
  }

  lemma {:induction false} WalkExhausts(q: seq<Resting>, r: OrderRequest, size: nat, policy: StpPolicy, sequence: nat)
    ensures var m := Match(q, r, size, policy, sequence);
            m.remaining > 0 && !m.takerCancelled ==> FacesNothing(m.queue, r)
    decreases |q|
  {
    hide FillEmissions;
    if !Idle(q, r, size) {
      var meeting := Meet(q[0], r, size, policy, sequence);
      if meeting.Gone? {
        WalkExhausts(q[1..], r, meeting.remaining, policy, sequence + |meeting.emitted|);
      }
    }
  }

  /** Every trade of an order is at a price its limit allows, with an order that was resting on the other side. */
  lemma OrdersTradeWithinLimit(b: Book, r: OrderRequest)
    requires WellFormed(b)
    ensures forall e :: e in Submit(b, r).emitted && e.Trade? ==> TakesFrom(e, b.Queue(r.side.Opposite()), r)
  {
    hide Match, TotalCrossing, TakesFrom, Insert;
    if Refusal(b, r) == NoReason {
      WalkTakes(b.Queue(r.side.Opposite()), r, r.quantity, b.policy, b.sequence + 1);
    }
  }

  lemma {:induction false} WalkNamesOthers(
    q: seq<Resting>, r: OrderRequest, size: nat, policy: StpPolicy, sequence: nat)
    ensures forall e :: e in Match(q, r, size, policy, sequence).emitted && e.Report? ==> !e.status.Expired?
    decreases |q|
  {
    if !Idle(q, r, size) {
      var meeting := Meet(q[0], r, size, policy, sequence);
      assert forall e :: e in meeting.emitted && e.Report? ==> !e.status.Expired?;
      if meeting.Gone? {
        WalkNamesOthers(q[1..], r, meeting.remaining, policy, sequence + |meeting.emitted|);
      }
    }
  }

  /** An order that has something left, and was not cancelled by a policy, has nothing left to trade with: the other
      side is empty or beyond its limit, and empty for a market order. Whatever expires is such an order, and so is
      whatever rests. */
  lemma LeftoversFaceNothing(b: Book, r: OrderRequest)
    requires WellFormed(b)
    ensures var o := Submit(b, r);
            var facing := o.book.Queue(r.side.Opposite());
            && (o.ok && WalkOf(b, r).remaining > 0 && !WalkOf(b, r).takerCancelled ==> FacesNothing(facing, r))
            && ((exists e :: e in o.emitted && e.Report? && e.status.Expired?) ==> FacesNothing(facing, r))
            && (o.ok && o.book.Holds(r.orderId) ==> FacesNothing(facing, r))
  {
    hide Match, TotalCrossing, Insert, Book.Holds;
    if Refusal(b, r) == NoReason {
      var q := b.Queue(r.side.Opposite());
      WalkExhausts(q, r, r.quantity, b.policy, b.sequence + 1);
      WalkNamesOthers(q, r, r.quantity, b.policy, b.sequence + 1);
      WalkKeepsBook(b, r);
      HeldWhateverItsNumber(AfterWalk(b, r), r.orderId);
    }
  }

  lemma HeldWhateverItsNumber(b: Book, id: nat)
    ensures forall n: nat :: b.(sequence := n).Holds(id) == b.Holds(id)
  {
  }

  // ---------- commands and runs ----------

  /** Does the command ask for a trade like this one: the same taker and side, at a price it allows? */
  predicate Authorizes(c: Command, e: Emission)
    requires e.Trade?
  {
    match c
    case SubmitOrder(r) => e.taker == r.orderId && e.takerSide == r.side && Allows(r, e.price)
    case CancelOrder(_) => false
    case ReplaceOrder(r) => e.taker == r.orderId && WithinLimit(e.takerSide, r.newPrice, e.price)
  }

  lemma StepTradesWithinLimit(b: Book, c: Command)
    requires WellFormed(b)
    ensures forall e :: e in Step(b, c).emitted && e.Trade? ==> Authorizes(c, e)
  {
    hide WellFormed, Submit, Removed, Reduced;
    match c
    case SubmitOrder(r) => OrdersTradeWithinLimit(b, r);
    case CancelOrder(r) =>
    case ReplaceOrder(r) =>
      if Find(b, r.orderId).Some? {
        var p := Find(b, r.orderId).value;
        RemovalKeepsBook(b, p);
        SequenceIsFree(Removed(b, p), b.sequence + 1);
        OrdersTradeWithinLimit(Removed(b, p).(sequence := b.sequence + 1), Resubmission(b, p.side, r));
      }
  }

  /** Over any run every trade was asked for by a command of the run whose limit allows its price. */
  lemma {:induction false} RunTradesWithinLimit(b: Book, cs: seq<Command>)
    requires WellFormed(b)
    ensures forall e :: e in Run(b, cs).emitted && e.Trade? ==> exists k :: 0 <= k < |cs| && Authorizes(cs[k], e)
    decreases |cs|
  {
    hide WellFormed, Step, Authorizes;
    if cs != [] {
      var next := Step(b, cs[0]).book;
      StepTradesWithinLimit(b, cs[0]);
      StepKeepsBook(b, cs[0]);
      RunTradesWithinLimit(next, cs[1..]);
      forall e | e in Run(b, cs).emitted && e.Trade? ensures exists k :: 0 <= k < |cs| && Authorizes(cs[k], e) {
        if e !in Step(b, cs[0]).emitted {
          var k :| 0 <= k < |cs[1..]| && Authorizes(cs[1..][k], e);
          assert cs[k + 1] == cs[1..][k];
        }
      }
    }
  }

  /** What is left of the order a command brings to the book faces nothing it could trade with. */
  ghost predicate LeavesNothingOpen(b: Book, c: Command) {
    var o := Step(b, c);
    match c
    case SubmitOrder(r) =>
      o.ok && ((WalkOf(b, r).remaining > 0 && !WalkOf(b, r).takerCancelled) || o.book.Holds(r.orderId)) ==>
        FacesNothing(o.book.Queue(r.side.Opposite()), r)
    case CancelOrder(_) => true
    case ReplaceOrder(r) =>
      o.ok && Find(b, r.orderId).Some? && o.book.Holds(r.orderId) ==>
        var p := Find(b, r.orderId).value;
        FacesNothing(o.book.Queue(p.side.Opposite()), Resubmission(b, p.side, r))
  }

  lemma StepLeavesNothingOpen(b: Book, c: Command)
    requires WellFormed(b)
    ensures LeavesNothingOpen(b, c)
  {
    hide WellFormed, Submit, Removed, Reduced, Book.Holds;
    match c
    case SubmitOrder(r) => LeftoversFaceNothing(b, r);
    case CancelOrder(r) =>
    case ReplaceOrder(r) =>
      if Find(b, r.orderId).Some? && Replace(b, r).ok {
        var p := Find(b, r.orderId).value;
        if InPlace(b.Queue(p.side)[p.at], r) {
          ReducedFacesNothing(b, p, r);
        } else {
          RemovalKeepsBook(b, p);
          SequenceIsFree(Removed(b, p), b.sequence + 1);
          LeftoversFaceNothing(Removed(b, p).(sequence := b.sequence + 1), Resubmission(b, p.side, r));
        }
      }
  }

  lemma ReducedFacesNothing(b: Book, p: Place, r: ReplaceRequest)
    requires WellFormed(b) && p.at < |b.Queue(p.side)| && r.newPrice == b.Queue(p.side)[p.at].price
    ensures FacesNothing(Reduced(b, p, r.newQuantity).Queue(p.side.Opposite()), Resubmission(b, p.side, r))
  {
  }

  /** At every command of every run. */
  lemma RunLeavesNothingOpen(b: Book, cs: seq<Command>, k: nat)
    requires WellFormed(b) && k < |cs|
    ensures LeavesNothingOpen(Run(b, cs[..k]).book, cs[k])
  {
    hide WellFormed, LeavesNothingOpen, Run;
    RunKeepsBook(b, cs[..k]);
    StepLeavesNothingOpen(Run(b, cs[..k]).book, cs[k]);
  }

  // ---------- acceptance ----------

  ghost predicate InBook(b: Book, id: nat) { exists o :: (o in b.bids || o in b.asks) && o.id == id }

  lemma InBookIsHeld(b: Book, id: nat)
    ensures InBook(b, id) <==> b.Holds(id)
  {
    if InBook(b, id) {
      var o :| (o in b.bids || o in b.asks) && o.id == id;
    }
    if k :| 0 <= k < |b.bids| && b.bids[k].id == id {
      assert b.bids[k] in b.bids;
    }
    if k :| 0 <= k < |b.asks| && b.asks[k].id == id {
      assert b.asks[k] in b.asks;
    }
  }

  /** When an order is accepted, and that a refusal tells its sender and changes nothing else. */
  lemma WhenOrdersAreAccepted(b: Book, r: OrderRequest)
    ensures var facing := b.Queue(r.side.Opposite());
            Submit(b, r).ok <==>
              && r.symbol == b.symbol && r.quantity > 0
              && (if r.kind.Market? then r.price == 0 else r.price > 0)
              && !InBook(b, r.orderId) && |b.bids| + |b.asks| < b.capacity
              && (r.kind.PostOnly? ==> FacesNothing(facing, r))
              && (r.kind.FOK? ==> Fillable(facing, r, NoPrevention) >= r.quantity)
    ensures !Submit(b, r).ok ==>
              && Submit(b, r).book == b.(sequence := b.sequence + 1) && |Submit(b, r).emitted| == 1
              && var e := Submit(b, r).emitted[0];
                 e.Report? && e.orderId == r.orderId && e.status.Rejected? && e.remaining == r.quantity
                 && e.reason != NoReason && e.sequence == b.sequence + 1
    ensures Submit(b, r).ok ==>
              Submit(b, r).emitted != [] &&
              Submit(b, r).emitted[0] == Report(b.sequence + 1, r.orderId, Accepted, r.quantity, NoReason, b.symbol)
  {
    hide Match, Insert, TotalCrossing, Fillable, Book.Holds, InBook;
    InBookIsHeld(b, r.orderId);
    CrossingIsFillable(b.Queue(r.side.Opposite()), r);
    ExecutionIsOk(b, r);
  }

  // ---------- places in the queue ----------

  /** The queue without the order of that id. */
  function Others(q: seq<Resting>, id: nat): seq<Resting> {
    if q == [] then [] else (if q[0].id == id then [] else [q[0]]) + Others(q[1..], id)
  }

  lemma {:induction false} NobodyLeaves(q: seq<Resting>, id: nat)
    requires forall k :: 0 <= k < |q| ==> q[k].id != id
    ensures Others(q, id) == q
    decreases |q|
  {
    if q != [] {
      NobodyLeaves(q[1..], id);
    }
  }

  lemma {:induction false} OthersJoin(a: seq<Resting>, b: seq<Resting>, id: nat)
    ensures Others(a + b, id) == Others(a, id) + Others(b, id)
    decreases |a|
  {
    if a == [] {
      assert a + b == b;
    } else {
      assert (a + b)[1..] == a[1..] + b;
      OthersJoin(a[1..], b, id);
    }
  }

  lemma OnlyOneLeaves(a: seq<Resting>, o: Resting, b: seq<Resting>)
    requires (forall k :: 0 <= k < |a| ==> a[k].id != o.id) && forall k :: 0 <= k < |b| ==> b[k].id != o.id
    ensures Others(a + [o] + b, o.id) == a + b
  {
    hide Others;
    NobodyLeaves(a, o.id);
    NobodyLeaves(b, o.id);
    JoinedWithout(a, o, b);
  }

  lemma JoinedWithout(a: seq<Resting>, o: Resting, b: seq<Resting>)
    requires Others(a, o.id) == a && Others(b, o.id) == b
    ensures Others(a + [o] + b, o.id) == a + b
  {
    hide Others;
    OthersJoin(a + [o], b, o.id);
    OthersJoin(a, [o], o.id);
    NoOthers(o);
    assert a + [] == a;
  }

  lemma NoOthers(o: Resting)
    ensures Others([o], o.id) == []
  {
    assert [o][1..] == [];
  }

  lemma WithoutIsOthers(q: seq<Resting>, k: nat)
    requires DistinctIds(q) && k < |q|
    ensures Without(q, k) == Others(q, q[k].id)
  {
    hide Others;
    assert q == q[..k] + [q[k]] + q[k + 1..];
    OnlyOneLeaves(q[..k], q[k], q[k + 1..]);
  }

  predicate BetterOrEqual(side: Side, a: int, b: int) { if side.Buy? then a >= b else a <= b }

  /** The order stands behind everything at its price or better, and before everything worse. */
  ghost predicate StandsLast(side: Side, q: seq<Resting>, k: nat)
    requires k < |q|
  {
    && (forall i :: 0 <= i < k ==> BetterOrEqual(side, q[i].price, q[k].price))
    && (forall i :: k < i < |q| ==> !BetterOrEqual(side, q[i].price, q[k].price))
  }

  lemma InsertedBetween(s: Side, q: seq<Resting>, o: Resting)
    requires Sorted(s, q)
    ensures var k := InsertionPoint(s, q, o.price);
            var q' := Insert(s, q, o);
            && k < |q'| && q'[k] == o && StandsLast(s, q', k)
            && (forall i :: 0 <= i < k ==> q'[i] == q[i]) && (forall i :: k < i < |q'| ==> q'[i] == q[i - 1])
  {
    hide InsertionPoint;
    var k := InsertionPoint(s, q, o.price);
    var q' := Insert(s, q, o);
    forall i | 0 <= i < |q'| ensures q'[i] == if i < k then q[i] else if i == k then o else q[i - 1] {
    }
  }

  lemma InsertedStandsLast(s: Side, q: seq<Resting>, o: Resting)
    requires Sorted(s, q) && forall k :: 0 <= k < |q| ==> q[k].id != o.id
    ensures var q' := Insert(s, q, o);
            var k := InsertionPoint(s, q, o.price);
            k < |q'| && q'[k] == o && StandsLast(s, q', k) && Others(q', o.id) == q && IndexOfId(q', o.id) == k
  {
    hide Others, InsertionPoint, IndexOfId;
    var k := InsertionPoint(s, q, o.price);
    var q' := Insert(s, q, o);
    InsertedBetween(s, q, o);
    OnlyOneLeaves(q[..k], o, q[k..]);
    assert q[..k] + q[k..] == q;
    FirstWithId(q', o.id, k);
  }

  lemma FirstWithId(q: seq<Resting>, id: nat, k: nat)
    requires k < |q| && q[k].id == id && forall i :: 0 <= i < k ==> q[i].id != id
    ensures IndexOfId(q, id) == k
  {
  }

  /** Time priority: an order that rests stands behind everything at its price or better, and moves nobody. */
  lemma NewcomersStandLast(b: Book, r: OrderRequest)
    requires WellFormed(b) && Submit(b, r).ok && Submit(b, r).book.Holds(r.orderId)
    ensures var q := Submit(b, r).book.Queue(r.side);
            var k := IndexOfId(q, r.orderId);
            && k < |q| && q[k] == Resting(r.orderId, r.clientId, r.price, WalkOf(b, r).remaining)
            && StandsLast(r.side, q, k) && Others(q, r.orderId) == b.Queue(r.side)
  {
    hide Match, TotalCrossing, Insert, Book.Holds, StandsLast;
    WalkKeepsBook(b, r);
    HeldWhateverItsNumber(AfterWalk(b, r), r.orderId);
    NotThere(b, r);
    InsertedStandsLast(r.side, b.Queue(r.side), Leftover(r, WalkOf(b, r).remaining));
  }

  lemma NotThere(b: Book, r: OrderRequest)
    requires Submit(b, r).ok
    ensures !b.Holds(r.orderId) && forall k :: 0 <= k < |b.Queue(r.side)| ==> b.Queue(r.side)[k].id != r.orderId
  {
    hide Match, TotalCrossing, Insert;
  }

  // ---------- cancelling and replacing ----------

  /** The order of that id, if it rests: where, and what. */
  ghost predicate RestsAt(b: Book, s: Side, k: nat, id: nat) { k < |b.Queue(s)| && b.Queue(s)[k].id == id }

  lemma FoundWhereItRests(b: Book, s: Side, k: nat, id: nat)
    requires WellFormed(b)
    ensures RestsAt(b, s, k, id) <==> Find(b, id) == Some(Place(s, k))
  {
    if RestsAt(b, s, k, id) {
      FirstWithId(b.Queue(s), id, k);
    }
  }

  /** A cancellation is carried out exactly for the order's own client; then that order, and no other, is gone and
      reported with what it had left. Otherwise nothing changes and the reason says why. */
  lemma WhenCancellationsWork(b: Book, r: CancelRequest)
    requires WellFormed(b)
    ensures var o := Cancel(b, r);
            && (o.ok <==> exists s, k: nat :: RestsAt(b, s, k, r.orderId) && b.Queue(s)[k].client == r.clientId)
            && (o.ok ==>
                  && o.book.bids == Others(b.bids, r.orderId) && o.book.asks == Others(b.asks, r.orderId)
                  && exists s, k: nat :: RestsAt(b, s, k, r.orderId) && o.emitted ==
                       [Report(b.sequence + 1, r.orderId, Cancelled, b.Queue(s)[k].remaining, NoReason, b.symbol)])
            && (!o.ok ==>
                  && o.book == b.(sequence := b.sequence + 1) && |o.emitted| == 1
                  && o.emitted[0].Report? && o.emitted[0].orderId == r.orderId && o.emitted[0].status.Rejected?
                  && o.emitted[0].reason == if InBook(b, r.orderId) then ClientMismatch else UnknownOrder)
  {
    hide Without, Others, InBook;
    InBookIsHeld(b, r.orderId);
    forall s, k: nat ensures RestsAt(b, s, k, r.orderId) <==> Find(b, r.orderId) == Some(Place(s, k)) {
      FoundWhereItRests(b, s, k, r.orderId);
    }
    if Find(b, r.orderId).Some? {
      var p := Find(b, r.orderId).value;
      assert RestsAt(b, p.side, p.at, r.orderId);
      WithoutIsOthers(b.Queue(p.side), p.at);
      NobodyLeaves(b.Queue(p.side.Opposite()), r.orderId);
    }
  }

  /** A replacement keeps its place exactly when its price stays and its quantity does not grow: then nothing but its
      quantity changes. Otherwise it leaves, nobody else on its side moves, and if it rests again it stands last. */
  lemma WhenReplacementsKeepTheirPlace(b: Book, r: ReplaceRequest, p: Place)
    requires WellFormed(b) && Find(b, r.orderId) == Some(p) && Replace(b, r).ok
    ensures var q := b.Queue(p.side);
            var o := Replace(b, r);
            var q' := o.book.Queue(p.side);
            var replaced := Report(b.sequence + 1, r.orderId, Replaced, r.newQuantity, NoReason, b.symbol);
            if r.newPrice == q[p.at].price && r.newQuantity <= q[p.at].remaining
            then
              && o.emitted == [replaced] && q' == q[p.at := q[p.at].(remaining := r.newQuantity)]
              && o.book.Queue(p.side.Opposite()) == b.Queue(p.side.Opposite())
            else
              && |o.emitted| >= 2 && o.emitted[0] == replaced && Others(q', r.orderId) == Others(q, r.orderId)
              && (o.book.Holds(r.orderId) ==>
                    var k := IndexOfId(q', r.orderId);
                    k < |q'| && q'[k].price == r.newPrice && q'[k].client == r.clientId && StandsLast(p.side, q', k))
  {
    hide WellFormed, Submit, Without, Others, StandsLast, Book.Holds;
    if !InPlace(b.Queue(p.side)[p.at], r) {
      var left := Removed(b, p).(sequence := b.sequence + 1);
      var again := Resubmission(b, p.side, r);
      RemovalKeepsBook(b, p);
      SequenceIsFree(Removed(b, p), b.sequence + 1);
      DistinctOn(b, p.side);
      WithoutIsOthers(b.Queue(p.side), p.at);
      WhenOrdersAreAccepted(left, again);
      if Submit(left, again).book.Holds(r.orderId) {
        NewcomersStandLast(left, again);
      } else {
        GoneFromItsSide(left, again);
      }
    }
  }

  lemma DistinctOn(b: Book, s: Side)
    requires WellFormed(b)
    ensures DistinctIds(b.Queue(s))
  {
  }

  lemma GoneFromItsSide(b: Book, r: OrderRequest)
    requires Submit(b, r).ok && !Submit(b, r).book.Holds(r.orderId)
    ensures Others(Submit(b, r).book.Queue(r.side), r.orderId) == b.Queue(r.side)
  {
    hide Match, TotalCrossing, Others;
    NotThere(b, r);
    NobodyLeaves(b.Queue(r.side), r.orderId);
    InsertedIsHeld(AfterWalk(b, r), r.side, Leftover(r, WalkOf(b, r).remaining));
  }

  lemma InsertedIsHeld(b: Book, s: Side, o: Resting)
    ensures forall n: nat :: RestOrder(b.(sequence := n), s, o).Holds(o.id)
  {
    var k := InsertionPoint(s, b.Queue(s), o.price);
    assert Insert(s, b.Queue(s), o)[k] == o;
  }

  /** The reason of a refusal is true of the order. */
  lemma RefusalsAreTrue(b: Book, r: OrderRequest)
    requires !Submit(b, r).ok
    ensures var facing := b.Queue(r.side.Opposite());
            match Submit(b, r).emitted[0].reason
            case InvalidPrice =>
              r.symbol != b.symbol || (if r.kind.Market? then r.price != 0 else r.price <= 0)
            case InvalidQuantity => r.quantity == 0
            case DuplicateOrderId => InBook(b, r.orderId)
            case CapacityExceeded => |b.bids| + |b.asks| >= b.capacity
            case WouldTrade => r.kind.PostOnly? && !FacesNothing(facing, r)
            case InsufficientLiquidity => r.kind.FOK? && Fillable(facing, r, NoPrevention) < r.quantity
            case _ => false
  {
    hide Match, Insert, TotalCrossing, Fillable, Book.Holds, InBook;
    InBookIsHeld(b, r.orderId);
    CrossingIsFillable(b.Queue(r.side.Opposite()), r);
  }
}
