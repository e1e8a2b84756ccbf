/** The abstract order book: each side is one sequence of resting orders in priority order (best price
    first, first come first served within a price), and every operation is a function on it. The class
    OrderBook refines these functions; the price-time, conservation and snapshot results are about them. */
module BookSpec {
  import opened Options
  import opened Trading

  datatype Resting = Resting(id: nat, client: nat, price: int, remaining: nat)

  datatype Book = Book(
    symbol: nat, capacity: nat, policy: StpPolicy, bids: seq<Resting>, asks: seq<Resting>, sequence: nat)
  {
    function Queue(s: Side): seq<Resting> { if s.Buy? then bids else asks }

    function WithQueue(s: Side, q: seq<Resting>): Book {
      if s.Buy? then this.(bids := q) else this.(asks := q)
    }

    predicate Holds(id: nat) {
      (exists k :: 0 <= k < |bids| && bids[k].id == id) || (exists k :: 0 <= k < |asks| && asks[k].id == id)
    }

    predicate Full() { |bids| + |asks| >= capacity }
  }

  datatype Outcome = Outcome(book: Book, emitted: seq<Emission>, ok: bool)

  /** Sorted by price, best first; equal prices in any order. */
  ghost predicate Sorted(s: Side, q: seq<Resting>) {
    forall i, j :: 0 <= i < j < |q| ==> AtLeastAsGood(s, q[i].price, q[j].price)
  }

  ghost predicate Positive(q: seq<Resting>) {
    forall k :: 0 <= k < |q| ==> q[k].remaining > 0 && q[k].price > 0
  }

  ghost predicate DistinctIds(q: seq<Resting>) {
    forall i, j :: 0 <= i < j < |q| ==> q[i].id != q[j].id
  }

  ghost predicate DisjointIds(a: seq<Resting>, b: seq<Resting>) {
    forall i, j :: 0 <= i < |a| && 0 <= j < |b| ==> a[i].id != b[j].id
  }

  /** Best bid strictly below best ask, stated over all pairs. */
  ghost predicate Uncrossed(b: Book) {
    forall i, j :: 0 <= i < |b.bids| && 0 <= j < |b.asks| ==> b.bids[i].price < b.asks[j].price
  }

  /** What holds of every book a run can reach. */
  ghost predicate WellFormed(b: Book) {
    && Sorted(Buy, b.bids) && Sorted(Sell, b.asks)
    && Positive(b.bids) && Positive(b.asks)
    && DistinctIds(b.bids) && DistinctIds(b.asks) && DisjointIds(b.bids, b.asks)
    && |b.bids| + |b.asks| <= b.capacity
    && Uncrossed(b)
  }

  // ---------- levels seen through the queue ----------

  function TotalAt(q: seq<Resting>, p: int): nat {
    if q == [] then 0 else (if q[0].price == p then q[0].remaining else 0) + TotalAt(q[1..], p)
  }

  function CountAt(q: seq<Resting>, p: int): nat {
    if q == [] then 0 else (if q[0].price == p then 1 else 0) + CountAt(q[1..], p)
  }

  lemma {:induction false} TotalAtConcat(a: seq<Resting>, b: seq<Resting>, p: int)
    ensures TotalAt(a + b, p) == TotalAt(a, p) + TotalAt(b, p)
    ensures CountAt(a + b, p) == CountAt(a, p) + CountAt(b, p)
  {
    if a == [] {
      assert a + b == b;
    } else {
      assert (a + b)[1..] == a[1..] + b;
      TotalAtConcat(a[1..], b, p);
    }
  }

  // ---------- the operations ----------

  function ReportOf(b: Book, offset: nat, id: nat, status: Status, remaining: nat, reason: RejectReason): Emission {
    Report(b.sequence + offset, id, status, remaining, reason, b.symbol)
  }

  function Reject(b: Book, id: nat, remaining: nat, reason: RejectReason): Outcome {
    Outcome(b.(sequence := b.sequence + 1), [ReportOf(b, 1, id, Rejected, remaining, reason)], false)
  }

  function Validate(b: Book, r: OrderRequest): RejectReason {
    if r.symbol != b.symbol then InvalidPrice
    else if r.quantity == 0 then InvalidQuantity
    else if !r.kind.Market? && r.price <= 0 then InvalidPrice
    else if r.kind.Market? && r.price != MARKET_PRICE then InvalidPrice
    else if b.Holds(r.orderId) then DuplicateOrderId
    else if b.Full() then CapacityExceeded
    else NoReason
  }

  /** What walking the opposing queue leaves behind: the queue, the taker's unfilled quantity, the
      emissions in order, and whether the self-trade policy cancelled the taker. */
  datatype MatchResult = MatchResult(
    queue: seq<Resting>, remaining: nat, emitted: seq<Emission>, takerCancelled: bool)

  function Prepend(es: seq<Emission>, m: MatchResult): MatchResult {
    m.(emitted := es + m.emitted)
  }

  predicate OwnOrder(policy: StpPolicy, maker: Resting, taker: OrderRequest) {
    policy != NoPrevention && maker.client == taker.clientId
  }

  function FillEmissions(maker: Resting, taker: OrderRequest, fill: nat, sequence: nat): seq<Emission>
    requires fill <= maker.remaining
  {
    var left := maker.remaining - fill;
    [Trade(sequence + 1, maker.id, taker.orderId, maker.price, fill, taker.side, taker.symbol),
     Report(sequence + 2, maker.id, if left == 0 then Filled else PartiallyFilled, left, NoReason, taker.symbol)]
  }

  /** What the taker's meeting with the first opposing order leads to: the maker leaves the book and the
      walk goes on with what the taker has left, or the walk ends with `left` in the maker's place. */
  datatype Meeting =
    | Gone(remaining: nat, emitted: seq<Emission>)
    | Last(left: seq<Resting>, remaining: nat, emitted: seq<Emission>, takerCancelled: bool)

  function CancelledBy(sequence: nat, id: nat, remaining: nat, symbol: nat): Emission {
    Report(sequence, id, Cancelled, remaining, NoReason, symbol)
  }

  function Meet(maker: Resting, taker: OrderRequest, remaining: nat, policy: StpPolicy, sequence: nat): Meeting {
    if OwnOrder(policy, maker, taker) then
      if policy.CancelNewest? then
        Last([maker], remaining, [CancelledBy(sequence + 1, taker.orderId, remaining, taker.symbol)], true)
      else if policy.CancelBoth? then
        Last([], remaining,
             [CancelledBy(sequence + 1, maker.id, maker.remaining, taker.symbol),
              CancelledBy(sequence + 2, taker.orderId, remaining, taker.symbol)], true)
      else
        Gone(remaining, [CancelledBy(sequence + 1, maker.id, maker.remaining, taker.symbol)])
    else if maker.remaining <= remaining then
      Gone(remaining - maker.remaining, FillEmissions(maker, taker, maker.remaining, sequence))
    else
      Last([maker.(remaining := maker.remaining - remaining)], 0,
           FillEmissions(maker, taker, remaining, sequence), false)
  }

  /** Is there nothing more for the taker to do against this queue? */
  predicate Idle(q: seq<Resting>, taker: OrderRequest, remaining: nat) {
    remaining == 0 || q == [] || !Crosses(taker, q[0].price)
  }

  /** Walk the opposing orders by priority: trade at maker prices, let the policy decide about own orders,
      stop when the taker is exhausted, is cancelled, or no longer crosses. */
  function Match(q: seq<Resting>, taker: OrderRequest, remaining: nat, policy: StpPolicy, sequence: nat): MatchResult
    decreases |q|
  {
    if Idle(q, taker, remaining) then MatchResult(q, remaining, [], false)
    else
      match Meet(q[0], taker, remaining, policy, sequence)
      case Gone(left, es) => Prepend(es, Match(q[1..], taker, left, policy, sequence + |es|))
      case Last(left, unfilled, es, cancelled) => MatchResult(left + q[1..], unfilled, es, cancelled)
  }

  /** Where a new order at price `p` goes: behind everything at least as good. */
  function InsertionPoint(s: Side, q: seq<Resting>, p: int): (k: nat)
    ensures k <= |q|
    ensures forall i :: 0 <= i < k ==> AtLeastAsGood(s, q[i].price, p)
    ensures k < |q| ==> !AtLeastAsGood(s, q[k].price, p)
  {
    if q == [] || !AtLeastAsGood(s, q[0].price, p) then 0 else 1 + InsertionPoint(s, q[1..], p)
  }

  function Insert(s: Side, q: seq<Resting>, o: Resting): seq<Resting> {
    var k := InsertionPoint(s, q, o.price);
    q[..k] + [o] + q[k..]
  }

  function Without(q: seq<Resting>, k: nat): seq<Resting>
    requires k < |q|
  {
    q[..k] + q[k + 1..]
  }

  function TotalCrossing(q: seq<Resting>, r: OrderRequest): nat {
    if q == [] || !Crosses(r, q[0].price) then 0 else q[0].remaining + TotalCrossing(q[1..], r)
  }

  function TakerReport(b: Book, r: OrderRequest, remaining: nat): seq<Emission> {
    if remaining == 0 then [ReportOf(b, 1, r.orderId, Filled, 0, NoReason)]
    else if remaining < r.quantity then [ReportOf(b, 1, r.orderId, PartiallyFilled, remaining, NoReason)]
    else []
  }

  predicate MayRest(r: OrderRequest) { r.kind.Limit? || r.kind.PostOnly? }

  function Leftover(r: OrderRequest, remaining: nat): Resting {
    Resting(r.orderId, r.clientId, r.price, remaining)
  }

  function RestOrder(b: Book, s: Side, o: Resting): Book {
    b.WithQueue(s, Insert(s, b.Queue(s), o))
  }

  /** After the walk: report the taker's state, then rest or expire what is left of it. */
  function Conclude(b: Book, r: OrderRequest, remaining: nat): Outcome {
    var es := TakerReport(b, r, remaining);
    var b1 := b.(sequence := b.sequence + |es|);
    if remaining == 0 then Outcome(b1, es, true)
    else if MayRest(r) then Outcome(RestOrder(b1, r.side, Leftover(r, remaining)), es, true)
    else Outcome(b1.(sequence := b1.sequence + 1), es + [ReportOf(b1, 1, r.orderId, Expired, remaining, NoReason)],
           true)
  }

  function Refusal(b: Book, r: OrderRequest): RejectReason {
    var opposing := b.Queue(r.side.Opposite());
    if Validate(b, r) != NoReason then Validate(b, r)
    else if r.kind.PostOnly? && opposing != [] && Crosses(r, opposing[0].price) then WouldTrade
    else if r.kind.FOK? && TotalCrossing(opposing, r) < r.quantity then InsufficientLiquidity
    else NoReason
  }

  function WalkOf(b: Book, r: OrderRequest): MatchResult {
    Match(b.Queue(r.side.Opposite()), r, r.quantity, b.policy, b.sequence + 1)
  }

  function AfterWalk(b: Book, r: OrderRequest): Book {
    var m := WalkOf(b, r);
    b.WithQueue(r.side.Opposite(), m.queue).(sequence := b.sequence + 1 + |m.emitted|)
  }

  function Execute(b: Book, r: OrderRequest): Outcome {
    var m := WalkOf(b, r);
    var sofar := [ReportOf(b, 1, r.orderId, Accepted, r.quantity, NoReason)] + m.emitted;
    if m.takerCancelled then Outcome(AfterWalk(b, r), sofar, true)
    else
      var end := Conclude(AfterWalk(b, r), r, m.remaining);
      Outcome(end.book, sofar + end.emitted, true)
  }

  function Submit(b: Book, r: OrderRequest): Outcome {
    if Refusal(b, r) != NoReason then Reject(b, r.orderId, r.quantity, Refusal(b, r)) else Execute(b, r)
  }

  /** The side and place of a resting order. */
  datatype Place = Place(side: Side, at: nat)

  function IndexOfId(q: seq<Resting>, id: nat): (k: nat)
    ensures k <= |q|
    ensures k < |q| ==> q[k].id == id
    ensures forall i :: 0 <= i < k ==> q[i].id != id
  {
    if q == [] || q[0].id == id then 0 else 1 + IndexOfId(q[1..], id)
  }

  function Find(b: Book, id: nat): (p: Option<Place>)
    ensures p.Some? ==> p.value.at < |b.Queue(p.value.side)| && b.Queue(p.value.side)[p.value.at].id == id
    ensures p.None? <==> !b.Holds(id)
  {
    var i, j := IndexOfId(b.bids, id), IndexOfId(b.asks, id);
    if i < |b.bids| then Some(Place(Buy, i)) else if j < |b.asks| then Some(Place(Sell, j)) else None
  }

  function Removed(b: Book, p: Place): Book
    requires p.at < |b.Queue(p.side)|
  {
    b.WithQueue(p.side, Without(b.Queue(p.side), p.at))
  }

  function Reduced(b: Book, p: Place, left: nat): Book
    requires p.at < |b.Queue(p.side)|
  {
    var q := b.Queue(p.side);
    b.WithQueue(p.side, q[p.at := q[p.at].(remaining := left)])
  }

  function Cancel(b: Book, r: CancelRequest): Outcome {
    match Find(b, r.orderId)
    case None => Reject(b, r.orderId, 0, UnknownOrder)
    case Some(p) =>
      var o := b.Queue(p.side)[p.at];
      if o.client != r.clientId then Reject(b, r.orderId, o.remaining, ClientMismatch)
      else Outcome(Removed(b, p).(sequence := b.sequence + 1),
                   [ReportOf(b, 1, r.orderId, Cancelled, o.remaining, NoReason)], true)
  }

  predicate InPlace(o: Resting, r: ReplaceRequest) {
    r.newPrice == o.price && r.newQuantity <= o.remaining
  }

  function Resubmission(b: Book, s: Side, r: ReplaceRequest): OrderRequest {
    OrderRequest(r.orderId, r.clientId, s, Limit, r.newPrice, r.newQuantity, b.symbol)
  }

  /** A replacement that gives up its place: leave the book, then come back as a new limit order. */
  function Requeue(b: Book, p: Place, r: ReplaceRequest): Outcome
    requires p.at < |b.Queue(p.side)|
  {
    Submit(Removed(b, p).(sequence := b.sequence + 1), Resubmission(b, p.side, r))
  }

  function Replace(b: Book, r: ReplaceRequest): Outcome {
    match Find(b, r.orderId)
    case None => Reject(b, r.orderId, 0, UnknownOrder)
    case Some(p) =>
      var o := b.Queue(p.side)[p.at];
      if o.client != r.clientId then Reject(b, r.orderId, o.remaining, ClientMismatch)
      else if r.newPrice <= 0 || r.newQuantity == 0 then Reject(b, r.orderId, o.remaining, InvalidReplacement)
      else
        var replaced := ReportOf(b, 1, r.orderId, Replaced, r.newQuantity, NoReason);
        if InPlace(o, r) then Outcome(Reduced(b, p, r.newQuantity).(sequence := b.sequence + 1), [replaced], true)
        else
          var again := Requeue(b, p, r);
          Outcome(again.book, [replaced] + again.emitted, again.ok)
  }

  // ---------- runs ----------

  datatype Command =
    | SubmitOrder(order: OrderRequest)
    | CancelOrder(cancellation: CancelRequest)
    | ReplaceOrder(replacement: ReplaceRequest)

  function Step(b: Book, c: Command): Outcome {
    match c
    case SubmitOrder(r) => Submit(b, r)
    case CancelOrder(r) => Cancel(b, r)
    case ReplaceOrder(r) => Replace(b, r)
  }

  function Run(b: Book, cs: seq<Command>): Outcome
    decreases |cs|
  {
    if cs == [] then Outcome(b, [], true)
    else
      var first := Step(b, cs[0]);
      var rest := Run(first.book, cs[1..]);
      rest.(emitted := first.emitted + rest.emitted)
  }

  function Empty(symbol: nat, capacity: nat, policy: StpPolicy): Book {
    Book(symbol, capacity, policy, [], [], 0)
  }
}
