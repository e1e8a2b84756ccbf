/** Snapshots. A book is written as its resting orders and its sequence, and rebuilt by resting them one
    after the other into an empty pool. Node layout is lost; everything a later command can see is not. */
module BookSnapshot {
  import opened Options
  import opened Trading
  import opened BookSpec
  import opened BookInvariants
  import opened BookWalk

  function RestingOrders(b: Book): seq<OrderRequest> {
    RequestsOf(b.bids, Buy, b.symbol) + RequestsOf(b.asks, Sell, b.symbol)
  }

  /** What reset leaves. */
  function Cleared(b: Book): Book { b.(bids := [], asks := [], sequence := 0) }

  predicate Restorable(b: Book, r: OrderRequest) {
    r.symbol == b.symbol && r.quantity != 0 && r.price > 0 && !b.Holds(r.orderId) && !b.Full()
  }

  /** Rest the orders in turn; None stands for the exception thrown at the first that cannot be restored. */
  function RestAll(b: Book, orders: seq<OrderRequest>): Option<Book>
    decreases |orders|
  {
    if orders == [] then Some(b)
    else if !Restorable(b, orders[0]) then None
    else RestAll(RestOrder(b, orders[0].side, Leftover(orders[0], orders[0].quantity)), orders[1..])
  }

  function Restore(b: Book, orders: seq<OrderRequest>, sequence: nat): Option<Book> {
    match RestAll(Cleared(b), orders)
    case None => None
    case Some(b') => Some(b'.(sequence := sequence))
  }

  lemma {:induction false} BehindAll(s: Side, q: seq<Resting>, p: int)
    requires forall k :: 0 <= k < |q| ==> AtLeastAsGood(s, q[k].price, p)
    ensures InsertionPoint(s, q, p) == |q|
  {
    if q != [] {
      BehindAll(s, q[1..], p);
    }
  }

  /** Resting the next order of a sorted queue extends the queue by it. */
  lemma InsertNext(s: Side, q: seq<Resting>, k: nat)
    requires Sorted(s, q) && k < |q|
    ensures Insert(s, q[..k], q[k]) == q[..k + 1]
  {
    BehindAll(s, q[..k], q[k].price);
  }

  lemma {:induction false} RestSide(b: Book, s: Side, q: seq<Resting>, k: nat, more: seq<OrderRequest>)
    requires Sorted(s, q) && Positive(q) && DistinctIds(q) && k <= |q|
    requires b.Queue(s) == q[..k] && DisjointIds(q, b.Queue(s.Opposite()))
    requires |q| + |b.Queue(s.Opposite())| <= b.capacity
    ensures RestAll(b, RequestsOf(q, s, b.symbol)[k..] + more) == RestAll(b.WithQueue(s, q), more)
    decreases |q| - k
  {
    hide Insert;
    var orders := RequestsOf(q, s, b.symbol)[k..] + more;
    if k == |q| {
      assert orders == more;
      assert q[..k] == q;
      assert b.WithQueue(s, q) == b;
    } else {
      assert orders[0] == RequestOf(q[k], s, b.symbol);
      assert orders[1..] == RequestsOf(q, s, b.symbol)[k + 1..] + more;
      InsertNext(s, q, k);
      NextIsRestorable(b, s, q, k);
      var b' := RestOrder(b, s, q[k]);
      assert Leftover(orders[0], orders[0].quantity) == q[k];
      assert b' == b.WithQueue(s, q[..k + 1]);
      RestSide(b', s, q, k + 1, more);
      assert b'.WithQueue(s, q) == b.WithQueue(s, q);
    }
  }

  lemma NextIsRestorable(b: Book, s: Side, q: seq<Resting>, k: nat)
    requires Positive(q) && DistinctIds(q) && k < |q|
    requires b.Queue(s) == q[..k] && DisjointIds(q, b.Queue(s.Opposite()))
    requires |q| + |b.Queue(s.Opposite())| <= b.capacity
    ensures Restorable(b, RequestOf(q[k], s, b.symbol))
  {
  }

  /** Restoring a well-formed book from its own resting orders and sequence gives that book back. */
  lemma RestoreOwnSnapshot(b: Book, into: Book)
    requires WellFormed(b) && into.symbol == b.symbol && into.capacity == b.capacity && into.policy == b.policy
    ensures Restore(into, RestingOrders(b), b.sequence) == Some(b)
  {
    hide RestAll, RequestsOf, Sorted, Positive, DistinctIds;
    var start := Cleared(into);
    var bids, asks := RequestsOf(b.bids, Buy, b.symbol), RequestsOf(b.asks, Sell, b.symbol);
    assert b.bids[..0] == [] && b.asks[..0] == [];
    assert bids[0..] == bids && asks[0..] == asks && asks + [] == asks;
    RestSide(start, Buy, b.bids, 0, asks);
    RestSide(start.WithQueue(Buy, b.bids), Sell, b.asks, 0, []);
    NothingToRest(b.(sequence := 0));
    assert start.WithQueue(Buy, b.bids).WithQueue(Sell, b.asks) == b.(sequence := 0);
  }

  lemma NothingToRest(b: Book)
    ensures RestAll(b, []) == Some(b)
  {
  }

  /** Bisimulation: whatever reachable book is written and restored, into a book in any state, the state
      hash is the same and every later list of commands is answered identically. */
  lemma RestoredBookBehavesTheSame(
    symbol: nat, capacity: nat, policy: StpPolicy, past: seq<Command>, into: Book, future: seq<Command>)
    requires into.symbol == symbol && into.capacity == capacity && into.policy == policy
    ensures var b := Run(Empty(symbol, capacity, policy), past).book;
            var restored := Restore(into, RestingOrders(b), b.sequence);
            && restored.Some?
            && StateHash(restored.value) == StateHash(b)
            && Run(restored.value, future) == Run(b, future)
  {
    hide Run, WellFormed, RestingOrders, Restore, StateHash;
    var b := Run(Empty(symbol, capacity, policy), past).book;
    ReachableBooksAreUncrossed(symbol, capacity, policy, past);
    RunKeepsSettings(Empty(symbol, capacity, policy), past);
    RestoreOwnSnapshot(b, into);
  }

  lemma StepKeepsSettings(b: Book, c: Command)
    ensures var b' := Step(b, c).book;
            b'.symbol == b.symbol && b'.capacity == b.capacity && b'.policy == b.policy
  {
    hide Match, Insert, Refusal, Find;
  }

  lemma {:induction false} RunKeepsSettings(b: Book, cs: seq<Command>)
    ensures var b' := Run(b, cs).book;
            b'.symbol == b.symbol && b'.capacity == b.capacity && b'.policy == b.policy
    decreases |cs|
  {
    hide Step;
    if cs != [] {
      StepKeepsSettings(b, cs[0]);
      RunKeepsSettings(Step(b, cs[0]).book, cs[1..]);
    }
  }
}
