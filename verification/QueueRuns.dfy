/** Following one resting order through a run: while other orders come, trade, are cancelled or replaced, the
    queue-position model fed by what the book emits equals the order's true place in the book. */
module QueueRuns {
  import opened Trading
  import opened BookSpec
  import opened BookInvariants
  import opened QueueModel

  // ---------- how the queue moves around the order ----------

  lemma OneAt(o: Resting, p: int)
    ensures TotalAt([o], p) == if o.price == p then o.remaining else 0
  {
    assert [o][1..] == [];
  }

  /** A newcomer goes behind its price, so it is never ahead of the order at the order's own price. */
  lemma InsertKeepsPlace(s: Side, q: seq<Resting>, o: Resting, k: nat, m: QueueState)
    requires Sorted(s, q) && Tracks(m, q, k)
    ensures var q' := Insert(s, q, o);
            var k' := if InsertionPoint(s, q, o.price) <= k then k + 1 else k;
            Tracks(m, q', k') && q'[k'] == q[k]
  {
    hide TotalAt, InsertionPoint;
    var n := InsertionPoint(s, q, o.price);
    var q' := q[..n] + [o] + q[n..];
    var p := q[k].price;
    if n <= k {
      assert q'[..k + 1] == q[..n] + [o] + q[n..k];
      assert q[..k] == q[..n] + q[n..k];
      TotalAtConcat(q[..n] + [o], q[n..k], p);
      TotalAtConcat(q[..n], [o], p);
      TotalAtConcat(q[..n], q[n..k], p);
      OneAt(o, p);
    } else {
      assert q'[..k] == q[..k];
    }
  }

  function CutBy(q: seq<Resting>, j: nat, k: nat, quantity: nat): seq<Signal>
    requires j < |q| && k < |q|
  {
    if j < k && q[j].price == q[k].price then [CancelAhead(quantity)] else []
  }

  lemma CutIsHeard(m: QueueState, q: seq<Resting>, j: nat, k: nat, quantity: nat)
    requires j < |q| && k < |q|
    ensures var m' := Feed(m, CutBy(q, j, k, quantity));
            && m'.ownRemaining == m.ownRemaining
            && (if j < k && q[j].price == q[k].price then m'.ahead == m.ahead - Min(m.ahead, quantity)
                else m'.ahead == m.ahead)
  {
    FeedOne(m, CancelAhead(quantity));
    FeedNothing(m);
  }

  lemma SplitAround(q: seq<Resting>, j: nat, k: nat, p: int)
    requires j < k <= |q|
    ensures TotalAt(q[..k], p) ==
              TotalAt(q[..j], p) + (if q[j].price == p then q[j].remaining else 0) + TotalAt(q[j + 1..k], p)
  {
    hide TotalAt;
    assert q[..k] == q[..j] + [q[j]] + q[j + 1..k];
    TotalAtConcat(q[..j] + [q[j]], q[j + 1..k], p);
    TotalAtConcat(q[..j], [q[j]], p);
    OneAt(q[j], p);
  }

  lemma RemovalKeepsPlace(q: seq<Resting>, j: nat, k: nat, m: QueueState)
    requires j < |q| && Tracks(m, q, k) && j != k
    ensures var k' := if j < k then k - 1 else k;
            var q' := Without(q, j);
            Tracks(Feed(m, CutBy(q, j, k, q[j].remaining)), q', k') && q'[k'] == q[k]
  {
    hide TotalAt, Feed, CutBy;
    CutIsHeard(m, q, j, k, q[j].remaining);
    var p := q[k].price;
    if j < k {
      SplitAround(q, j, k, p);
      assert Without(q, j)[..k - 1] == q[..j] + q[j + 1..k];
      TotalAtConcat(q[..j], q[j + 1..k], p);
    } else {
      assert Without(q, j)[..k] == q[..k];
    }
  }

  lemma ReductionKeepsPlace(q: seq<Resting>, j: nat, k: nat, left: nat, m: QueueState)
    requires j < |q| && Tracks(m, q, k) && j != k && left <= q[j].remaining
    ensures var q' := q[j := q[j].(remaining := left)];
            Tracks(Feed(m, CutBy(q, j, k, q[j].remaining - left)), q', k) && q'[k] == q[k]
  {
    hide TotalAt, Feed, CutBy;
    CutIsHeard(m, q, j, k, q[j].remaining - left);
    var p := q[k].price;
    var q' := q[j := q[j].(remaining := left)];
    if j < k {
      SplitAround(q, j, k, p);
      SplitAround(q', j, k, p);
      assert q'[..j] == q[..j] && q'[j + 1..k] == q[j + 1..k];
    } else {
      assert q'[..k] == q[..k];
    }
  }

  lemma {:induction false} PlaceOfId(q: seq<Resting>, k: nat)
    requires k < |q| && DistinctIds(q)
    ensures IndexOfId(q, q[k].id) == k
  {
  }

  // ---------- what is heard ----------

  /** Nothing in `es` concerns the order at position `k` of side `s`. */
  ghost predicate Silent(es: seq<Emission>, q: seq<Resting>, s: Side) {
    forall e :: e in es ==>
      && (e.Trade? ==> e.takerSide == s)
      && (e.Report? && e.status.Cancelled? ==> forall i :: 0 <= i < |q| ==> q[i].id != e.orderId)
  }

  lemma {:induction false} SilenceIsNotHeard(es: seq<Emission>, q: seq<Resting>, k: nat, s: Side)
    requires k < |q| && Silent(es, q, s)
    ensures SignalsOfAll(es, q, k, s) == []
    decreases |es|
  {
    if es != [] {
      assert es[0] in es && forall e :: e in es[1..] ==> e in es;
      SilenceIsNotHeard(es[1..], q, k, s);
      if es[0].Report? {
        StrangerIsNotHeard(es[0], q, k, s);
      }
    }
  }

  lemma StrangerIsNotHeard(e: Emission, q: seq<Resting>, k: nat, s: Side)
    requires k < |q| && e.Report?
    requires e.status.Cancelled? ==> forall i :: 0 <= i < |q| ==> q[i].id != e.orderId
    ensures SignalsOf(e, q, k, s) == []
  {
  }

  lemma {:induction false} WalkTradesForTaker(
      q: seq<Resting>, r: OrderRequest, size: nat, policy: StpPolicy, sequence: nat)
    ensures forall e :: e in Match(q, r, size, policy, sequence).emitted && e.Trade? ==> e.takerSide == r.side
    decreases |q|
  {
    if !Idle(q, r, size) {
      var meeting := Meet(q[0], r, size, policy, sequence);
      if meeting.Gone? {
        WalkTradesForTaker(q[1..], r, meeting.remaining, policy, sequence + |meeting.emitted|);
      }
    }
  }

  /** A walk on the other side of the book is not heard on this side. */
  lemma WalkOnOtherSideIsSilent(b: Book, r: OrderRequest)
    requires WellFormed(b) && !b.Holds(r.orderId)
    ensures Silent(WalkOf(b, r).emitted, b.Queue(r.side), r.side)
  {
    hide Match;
    WalkTradesForTaker(b.Queue(r.side.Opposite()), r, r.quantity, b.policy, b.sequence + 1);
    WalkCancels(b.Queue(r.side.Opposite()), r, r.quantity, b.policy, b.sequence + 1);
  }

  lemma ConclusionIsSilent(b: Book, r: OrderRequest, remaining: nat, q: seq<Resting>, s: Side)
    ensures Silent(Conclude(b, r, remaining).emitted, q, s)
  {
    hide RestOrder;
  }

  // ---------- following the order ----------

  /** The order `x` on side `s` is where the model says it is, or has been filled as the model says, or has
      been taken off the book by a self-trade policy. */
  ghost predicate Follows(m: QueueState, b: Book, s: Side, x: nat, es: seq<Emission>) {
    var q := b.Queue(s);
    var k := IndexOfId(q, x);
    if k < |q| then Tracks(m, q, k)
    else m.ownRemaining == 0 || TakenOff(es, x)
  }

  ghost predicate TakenOff(es: seq<Emission>, x: nat) {
    exists e :: e in es && e.Report? && e.status.Cancelled? && e.orderId == x
  }

  predicate Rests(b: Book, s: Side, x: nat) { IndexOfId(b.Queue(s), x) < |b.Queue(s)| }

  /** What an observer feeds the model for the emissions `es` of a book that looked like `b` before them. */
  ghost function Heard(b: Book, s: Side, x: nat, es: seq<Emission>): seq<Signal>
    requires Rests(b, s, x)
  {
    SignalsOfAll(es, b.Queue(s), IndexOfId(b.Queue(s), x), s)
  }

  lemma FollowsFrom(m: QueueState, b: Book, s: Side, x: nat, k: nat, es: seq<Emission>)
    requires WellFormed(b) && Tracks(m, b.Queue(s), k) && b.Queue(s)[k].id == x
    ensures Follows(m, b, s, x, es) && Rests(b, s, x) && IndexOfId(b.Queue(s), x) == k
  {
    PlaceOfId(b.Queue(s), k);
  }

  /** An order on the taker's own side only ever sees newcomers. */
  lemma ConclusionIsFollowed(b: Book, r: OrderRequest, remaining: nat, s: Side, x: nat, m: QueueState)
    requires WellFormed(b) && WellFormed(Conclude(b, r, remaining).book)
    requires Rests(b, s, x) && Follows(m, b, s, x, [])
    ensures Follows(m, Conclude(b, r, remaining).book, s, x, []) && Rests(Conclude(b, r, remaining).book, s, x)
  {
    hide Insert, Tracks, WellFormed;
    var k := IndexOfId(b.Queue(s), x);
    var b' := Conclude(b, r, remaining).book;
    if b'.Queue(s) != b.Queue(s) {
      var o := Leftover(r, remaining);
      assert b'.Queue(s) == Insert(s, b.Queue(s), o);
      SortedQueue(b, s);
      InsertKeepsPlace(s, b.Queue(s), o, k, m);
      FollowsFrom(m, b', s, x, if InsertionPoint(s, b.Queue(s), o.price) <= k then k + 1 else k, []);
    }
  }

  lemma SortedQueue(b: Book, s: Side)
    requires WellFormed(b)
    ensures Sorted(s, b.Queue(s)) && DistinctIds(b.Queue(s)) && Positive(b.Queue(s))
  {
  }

  lemma ConsumedIsGone(s: Side, q: seq<Resting>, after: seq<Resting>, k: nat)
    requires Sorted(s, q) && Positive(q) && DistinctIds(q) && ConsumesPrefix(q, after) && k < |q|
    ensures k < |q| - |after| ==> IndexOfId(after, q[k].id) == |after|
    ensures DistinctIds(after)
  {
    ConsumedKeepsQueue(s, q, after);
    var i := IndexOfId(after, q[k].id);
    if i < |after| {
      assert after[i].id == q[|q| - |after| + i].id;
    }
  }

  /** The walk over the order's own queue. */
  lemma WalkIsFollowed(b: Book, r: OrderRequest, x: nat, m: QueueState)
    requires WellFormed(b) && !b.Holds(r.orderId)
    requires Rests(b, r.side.Opposite(), x) && Follows(m, b, r.side.Opposite(), x, [])
    ensures var s := r.side.Opposite();
            Follows(Feed(m, Heard(b, s, x, WalkOf(b, r).emitted)), AfterWalk(b, r), s, x, WalkOf(b, r).emitted)
  {
    hide Match, Tracks, WellFormed, ConsumesPrefix, SignalsOfAll, Feed, TotalAt;
    var s := r.side.Opposite();
    var q := b.Queue(s);
    var k := IndexOfId(q, x);
    SortedQueue(b, s);
    FullWhenNotHeld(b, r.orderId);
    WalkIsTracked(q, k, r, r.quantity, b.policy, b.sequence + 1, m);
    MatchConsumesPrefix(q, r, r.quantity, b.policy, b.sequence + 1);
    var walk := WalkOf(b, r);
    ConsumedIsGone(s, q, walk.queue, k);
    var j := k - (|q| - |walk.queue|);
    if j >= 0 {
      InRange(Feed(m, Heard(b, s, x, walk.emitted)), walk.queue, j);
      PlaceOfId(walk.queue, j);
    }
  }

  lemma InRange(m: QueueState, q: seq<Resting>, k: nat)
    ensures Tracks(m, q, k) ==> k < |q|
  {
  }

  lemma AfterWalkIsFollowed(b: Book, r: OrderRequest, s: Side, x: nat, m: QueueState)
    requires WellFormed(b) && !b.Holds(r.orderId)
    requires Rests(b, s, x) && Follows(m, b, s, x, [])
    ensures Follows(Feed(m, Heard(b, s, x, WalkOf(b, r).emitted)), AfterWalk(b, r), s, x, WalkOf(b, r).emitted)
  {
    hide Match, WellFormed, SignalsOfAll, Tracks, Feed;
    if s == r.side {
      WalkOnOtherSideIsSilent(b, r);
      SilenceIsNotHeard(WalkOf(b, r).emitted, b.Queue(s), IndexOfId(b.Queue(s), x), s);
      FeedNothing(m);
    } else {
      WalkIsFollowed(b, r, x, m);
    }
  }

  /** The acceptance before the walk and the conclusion after it are not heard. */
  lemma OnlyTheWalkIsHeard(b: Book, r: OrderRequest, s: Side, x: nat, accepted: Emission, end: seq<Emission>)
    requires Rests(b, s, x) && accepted.Report? && !accepted.status.Cancelled?
    requires Silent(end, b.Queue(s), s)
    ensures Heard(b, s, x, [accepted] + WalkOf(b, r).emitted + end) == Heard(b, s, x, WalkOf(b, r).emitted)
  {
    hide WalkOf, SignalsOfAll;
    var q := b.Queue(s);
    var k := IndexOfId(q, x);
    SignalsJoin([accepted] + WalkOf(b, r).emitted, end, q, k, s);
    SignalsJoin([accepted], WalkOf(b, r).emitted, q, k, s);
    SilenceIsNotHeard([accepted], q, k, s);
    SilenceIsNotHeard(end, q, k, s);
  }

  lemma TakenOffGrows(a: seq<Emission>, es: seq<Emission>, b: seq<Emission>, x: nat)
    requires TakenOff(es, x)
    ensures TakenOff(a + es + b, x)
  {
    var e :| e in es && e.Report? && e.status.Cancelled? && e.orderId == x;
    assert e in a + es + b;
  }

  lemma ExecutionIsFollowed(b: Book, r: OrderRequest, s: Side, x: nat, m: QueueState)
    requires WellFormed(b) && Refusal(b, r) == NoReason && x != r.orderId
    requires Rests(b, s, x) && Follows(m, b, s, x, [])
    ensures Follows(Feed(m, Heard(b, s, x, Execute(b, r).emitted)), Execute(b, r).book, s, x, Execute(b, r).emitted)
  {
    hide Match, WellFormed, Conclude, Tracks, Feed, Heard, TotalCrossing, TakenOff;
    AfterWalkIsFollowed(b, r, s, x, m);
    var walk := WalkOf(b, r);
    var m' := Feed(m, Heard(b, s, x, walk.emitted));
    var accepted := ReportOf(b, 1, r.orderId, Accepted, r.quantity, NoReason);
    var end := if walk.takerCancelled then [] else Conclude(AfterWalk(b, r), r, walk.remaining).emitted;
    ConclusionIsSilent(AfterWalk(b, r), r, walk.remaining, b.Queue(s), s);
    OnlyTheWalkIsHeard(b, r, s, x, accepted, end);
    assert Execute(b, r).emitted == [accepted] + walk.emitted + end;
    if TakenOff(walk.emitted, x) {
      TakenOffGrows([accepted], walk.emitted, end, x);
    }
    if !walk.takerCancelled {
      ExecutionConcludes(b, r, s, x, m');
    }
  }

  lemma ExecutionConcludes(b: Book, r: OrderRequest, s: Side, x: nat, m: QueueState)
    requires WellFormed(b) && Refusal(b, r) == NoReason && !WalkOf(b, r).takerCancelled
    requires x != r.orderId
    requires Follows(m, AfterWalk(b, r), s, x, WalkOf(b, r).emitted)
    ensures Follows(m, Execute(b, r).book, s, x, WalkOf(b, r).emitted)
  {
    hide Match, WellFormed, Conclude, Tracks, TotalCrossing, TakenOff;
    var walk := WalkOf(b, r);
    WalkKeepsBook(b, r);
    SubmitKeepsBook(b, r);
    if Rests(AfterWalk(b, r), s, x) {
      ConclusionIsFollowed(AfterWalk(b, r), r, walk.remaining, s, x, m);
    } else {
      ConclusionAddsOnly(AfterWalk(b, r), r, walk.remaining, s, x);
    }
  }

  lemma ConclusionAddsOnly(b: Book, r: OrderRequest, remaining: nat, s: Side, x: nat)
    requires x != r.orderId && !Rests(b, s, x)
    ensures !Rests(Conclude(b, r, remaining).book, s, x)
  {
    hide Insert;
    var q := b.Queue(s);
    var q' := Conclude(b, r, remaining).book.Queue(s);
    if q' != q {
      var o := Leftover(r, remaining);
      assert q' == Insert(s, q, o);
      InsertAddsOnly(s, q, o, x);
      InsertGrows(s, q, o);
    }
  }

  lemma InsertGrows(s: Side, q: seq<Resting>, o: Resting)
    ensures |Insert(s, q, o)| == |q| + 1
  {
  }

  lemma InsertAddsOnly(s: Side, q: seq<Resting>, o: Resting, x: nat)
    requires o.id != x && IndexOfId(q, x) == |q|
    ensures IndexOfId(Insert(s, q, o), x) == |q| + 1
  {
    var n := InsertionPoint(s, q, o.price);
    var q' := Insert(s, q, o);
    assert forall i :: 0 <= i < |q| ==> q[i].id != x;
    forall i | 0 <= i < |q'| ensures q'[i].id != x {
      assert q'[i] == if i < n then q[i] else if i == n then o else q[i - 1];
    }
  }

  lemma RefusalIsFollowed(b: Book, s: Side, x: nat, m: QueueState, id: nat, remaining: nat, reason: RejectReason)
    requires Rests(b, s, x) && Follows(m, b, s, x, [])
    ensures var o := Reject(b, id, remaining, reason);
            Follows(Feed(m, Heard(b, s, x, o.emitted)), o.book, s, x, o.emitted)
  {
    hide SignalsOfAll, Feed, Tracks;
    var o := Reject(b, id, remaining, reason);
    SilenceIsNotHeard(o.emitted, b.Queue(s), IndexOfId(b.Queue(s), x), s);
    FeedNothing(m);
  }

  lemma SubmitIsFollowed(b: Book, r: OrderRequest, s: Side, x: nat, m: QueueState)
    requires WellFormed(b) && x != r.orderId && Rests(b, s, x) && Follows(m, b, s, x, [])
    ensures Follows(Feed(m, Heard(b, s, x, Submit(b, r).emitted)), Submit(b, r).book, s, x, Submit(b, r).emitted)
  {
    hide WellFormed, Refusal, Execute, Follows, Heard, Feed;
    if Refusal(b, r) == NoReason {
      ExecutionIsFollowed(b, r, s, x, m);
    } else {
      RefusalIsFollowed(b, s, x, m, r.orderId, r.quantity, Refusal(b, r));
    }
  }

  /** What is heard when the order at `p` leaves the book or shrinks by `quantity`. */
  function CutAt(b: Book, p: Place, s: Side, x: nat, quantity: nat): seq<Signal>
    requires p.at < |b.Queue(p.side)| && Rests(b, s, x)
  {
    if p.side == s then CutBy(b.Queue(s), p.at, IndexOfId(b.Queue(s), x), quantity) else []
  }

  lemma RemovalIsFollowed(b: Book, p: Place, s: Side, x: nat, m: QueueState)
    requires WellFormed(b) && p.at < |b.Queue(p.side)| && b.Queue(p.side)[p.at].id != x
    requires Rests(b, s, x) && Follows(m, b, s, x, [])
    ensures var m' := Feed(m, CutAt(b, p, s, x, b.Queue(p.side)[p.at].remaining));
            Follows(m', Removed(b, p), s, x, []) && Rests(Removed(b, p), s, x)
  {
    hide WellFormed, Tracks, Without, Feed, CutBy;
    var k := IndexOfId(b.Queue(s), x);
    if p.side == s {
      RemovalKeepsPlace(b.Queue(s), p.at, k, m);
      RemovalKeepsBook(b, p);
      WithoutGrows(b.Queue(s), p.at);
      FollowsFrom(Feed(m, CutAt(b, p, s, x, b.Queue(s)[p.at].remaining)), Removed(b, p), s, x,
          if p.at < k then k - 1 else k, []);
    } else {
      FeedNothing(m);
    }
  }

  lemma WithoutGrows(q: seq<Resting>, k: nat)
    requires k < |q|
    ensures |Without(q, k)| == |q| - 1
  {
  }

  lemma ReductionIsFollowed(b: Book, p: Place, left: nat, s: Side, x: nat, m: QueueState)
    requires WellFormed(b) && p.at < |b.Queue(p.side)| && b.Queue(p.side)[p.at].id != x
    requires 0 < left <= b.Queue(p.side)[p.at].remaining
    requires Rests(b, s, x) && Follows(m, b, s, x, [])
    ensures var m' := Feed(m, CutAt(b, p, s, x, b.Queue(p.side)[p.at].remaining - left));
            Follows(m', Reduced(b, p, left), s, x, [])
  {
    hide WellFormed, Tracks, Feed, CutBy;
    var k := IndexOfId(b.Queue(s), x);
    if p.side == s {
      ReductionKeepsPlace(b.Queue(s), p.at, k, left, m);
      ReductionKeepsBook(b, p, left);
      FollowsFrom(Feed(m, CutAt(b, p, s, x, b.Queue(s)[p.at].remaining - left)), Reduced(b, p, left), s, x, k, []);
    } else {
      FeedNothing(m);
    }
  }

  // ---------- one command ----------

  predicate Targets(c: Command, x: nat) {
    match c
    case SubmitOrder(r) => r.orderId == x
    case CancelOrder(r) => r.orderId == x
    case ReplaceOrder(r) => r.orderId == x
  }

  /** What an observer who sees the book before each command feeds the model: every trade at the order's price
      against its side, every cancellation ahead of it at its price, and, for a replacement ahead of it, the
      quantity that leaves its place. */
  ghost function StepSignals(b: Book, c: Command, s: Side, x: nat): seq<Signal>
    requires Rests(b, s, x)
  {
    match c
    case SubmitOrder(r) => Heard(b, s, x, Submit(b, r).emitted)
    case CancelOrder(r) => Heard(b, s, x, Cancel(b, r).emitted)
    case ReplaceOrder(r) => ReplaceSignals(b, r, s, x)
  }

  ghost function ReplaceSignals(b: Book, r: ReplaceRequest, s: Side, x: nat): seq<Signal>
    requires Rests(b, s, x)
  {
    if !Replace(b, r).ok || Find(b, r.orderId).None? then []
    else
      var p := Find(b, r.orderId).value;
      var o := b.Queue(p.side)[p.at];
      if InPlace(o, r) then CutAt(b, p, s, x, o.remaining - r.newQuantity)
      else if !Rests(Removed(b, p), s, x) then []
      else CutAt(b, p, s, x, o.remaining)
           + Heard(Removed(b, p).(sequence := b.sequence + 1), s, x, Requeue(b, p, r).emitted)
  }

  lemma CancelIsHeard(b: Book, r: CancelRequest, s: Side, x: nat)
    requires WellFormed(b) && Rests(b, s, x) && Cancel(b, r).ok
    ensures var p := Find(b, r.orderId).value;
            Heard(b, s, x, Cancel(b, r).emitted) == CutAt(b, p, s, x, b.Queue(p.side)[p.at].remaining)
  {
    hide Removed;
    var p := Find(b, r.orderId).value;
    var q := b.Queue(s);
    var k := IndexOfId(q, x);
    var e := Cancel(b, r).emitted[0];
    OneSignal(e, q, k, s);
    FrontOfPlace(b, p, s, k);
  }

  lemma FrontOfPlace(b: Book, p: Place, s: Side, k: nat)
    requires WellFormed(b) && p.at < |b.Queue(p.side)| && k < |b.Queue(s)|
    ensures InFront(b.Queue(s), k, b.Queue(p.side)[p.at].id)
       <==> p.side == s && p.at < k && b.Queue(s)[p.at].price == b.Queue(s)[k].price
  {
    hide Sorted, Positive, Uncrossed;
  }

  lemma CancelIsFollowed(b: Book, r: CancelRequest, s: Side, x: nat, m: QueueState)
    requires WellFormed(b) && x != r.orderId && Rests(b, s, x) && Follows(m, b, s, x, [])
    ensures Follows(Feed(m, Heard(b, s, x, Cancel(b, r).emitted)), Cancel(b, r).book, s, x, Cancel(b, r).emitted)
  {
    hide WellFormed, Follows, Heard, Feed, Removed, CutAt;
    var found := Find(b, r.orderId);
    if found.None? {
      RefusalIsFollowed(b, s, x, m, r.orderId, 0, UnknownOrder);
    } else {
      var p := found.value;
      var o := b.Queue(p.side)[p.at];
      if o.client != r.clientId {
        RefusalIsFollowed(b, s, x, m, r.orderId, o.remaining, ClientMismatch);
      } else {
        CancelIsHeard(b, r, s, x);
        RemovalIsFollowed(b, p, s, x, m);
        FollowsAnyway(Feed(m, CutAt(b, p, s, x, o.remaining)), Removed(b, p), s, x, Cancel(b, r).book,
            Cancel(b, r).emitted);
      }
    }
  }

  lemma FollowsAnyway(m: QueueState, b: Book, s: Side, x: nat, b': Book, es: seq<Emission>)
    requires Follows(m, b, s, x, []) && b'.Queue(s) == b.Queue(s)
    ensures Follows(m, b', s, x, es) && (Rests(b, s, x) <==> Rests(b', s, x))
  {
  }

  lemma ReplaceIsFollowed(b: Book, r: ReplaceRequest, s: Side, x: nat, m: QueueState)
    requires WellFormed(b) && x != r.orderId && Rests(b, s, x) && Follows(m, b, s, x, [])
    ensures Follows(Feed(m, ReplaceSignals(b, r, s, x)), Replace(b, r).book, s, x, Replace(b, r).emitted)
  {
    hide WellFormed, Follows, Heard, Feed, Removed, Reduced, CutAt, Submit;
    ReplaceNeverLosesTheOrder(b, r);
    if Replace(b, r).ok {
      var p := Find(b, r.orderId).value;
      var o := b.Queue(p.side)[p.at];
      if InPlace(o, r) {
        ReductionIsFollowed(b, p, r.newQuantity, s, x, m);
        FollowsAnyway(Feed(m, CutAt(b, p, s, x, o.remaining - r.newQuantity)), Reduced(b, p, r.newQuantity), s, x,
                      Replace(b, r).book, Replace(b, r).emitted);
      } else {
        RequeueIsFollowed(b, p, r, s, x, m);
        FollowsLater(Feed(m, ReplaceSignals(b, r, s, x)), Replace(b, r).book, s, x, Requeue(b, p, r).emitted,
                     ReportOf(b, 1, r.orderId, Replaced, r.newQuantity, NoReason));
      }
    } else {
      FeedNothing(m);
      FollowsAnyway(m, b, s, x, Replace(b, r).book, Replace(b, r).emitted);
    }
  }

  lemma FollowsLater(m: QueueState, b: Book, s: Side, x: nat, es: seq<Emission>, first: Emission)
    requires Follows(m, b, s, x, es)
    ensures Follows(m, b, s, x, [first] + es)
  {
    hide Tracks, TakenOff;
    if TakenOff(es, x) {
      TakenOffGrows([first], es, [], x);
      assert [first] + es + [] == [first] + es;
    }
  }

  lemma RequeueIsFollowed(b: Book, p: Place, r: ReplaceRequest, s: Side, x: nat, m: QueueState)
    requires WellFormed(b) && x != r.orderId && Rests(b, s, x) && Follows(m, b, s, x, [])
    requires p.at < |b.Queue(p.side)| && b.Queue(p.side)[p.at].id == r.orderId
    ensures Rests(Removed(b, p), s, x)
    ensures var left := Removed(b, p).(sequence := b.sequence + 1);
            var signals := CutAt(b, p, s, x, b.Queue(p.side)[p.at].remaining) + Heard(left, s, x,
                             Requeue(b, p, r).emitted);
            Follows(Feed(m, signals), Requeue(b, p, r).book, s, x, Requeue(b, p, r).emitted)
  {
    hide WellFormed, Follows, Heard, Feed, Removed, CutAt, Submit;
    RemovalIsFollowed(b, p, s, x, m);
    RemovalKeepsBook(b, p);
    var left := Removed(b, p).(sequence := b.sequence + 1);
    SequenceIsFree(Removed(b, p), b.sequence + 1);
    var cut := CutAt(b, p, s, x, b.Queue(p.side)[p.at].remaining);
    FollowsAnyway(Feed(m, cut), Removed(b, p), s, x, left, []);
    SubmitIsFollowed(left, Resubmission(b, p.side, r), s, x, Feed(m, cut));
    FeedJoins(m, cut, Heard(left, s, x, Requeue(b, p, r).emitted));
  }

  lemma StepIsFollowed(b: Book, c: Command, s: Side, x: nat, m: QueueState)
    requires WellFormed(b) && !Targets(c, x) && Rests(b, s, x) && Follows(m, b, s, x, [])
    ensures Follows(Feed(m, StepSignals(b, c, s, x)), Step(b, c).book, s, x, Step(b, c).emitted)
  {
    hide WellFormed, Follows, Heard, Feed, Submit, Cancel, Replace, ReplaceSignals;
    match c
    case SubmitOrder(r) => SubmitIsFollowed(b, r, s, x, m);
    case CancelOrder(r) => CancelIsFollowed(b, r, s, x, m);
    case ReplaceOrder(r) => ReplaceIsFollowed(b, r, s, x, m);
  }

  // ---------- a whole run ----------

  /** The model after a run, fed for as long as the order rests. */
  ghost function Observed(m: QueueState, b: Book, s: Side, x: nat, cs: seq<Command>): QueueState
    decreases |cs|
  {
    if cs == [] || !Rests(b, s, x) then m
    else Observed(Feed(m, StepSignals(b, cs[0], s, x)), Step(b, cs[0]).book, s, x, cs[1..])
  }

  /** The part of a run during which the order rests, including the command that takes it off. */
  ghost function WhileResting(b: Book, s: Side, x: nat, cs: seq<Command>): Outcome
    decreases |cs|
  {
    if cs == [] || !Rests(b, s, x) then Outcome(b, [], true)
    else
      var first := Step(b, cs[0]);
      var rest := WhileResting(first.book, s, x, cs[1..]);
      rest.(emitted := first.emitted + rest.emitted)
  }

  lemma {:induction false} RunIsFollowed(b: Book, cs: seq<Command>, s: Side, x: nat, m: QueueState)
    requires WellFormed(b) && Rests(b, s, x) && Follows(m, b, s, x, [])
    requires forall c :: c in cs ==> !Targets(c, x)
    ensures var end := WhileResting(b, s, x, cs);
            Follows(Observed(m, b, s, x, cs), end.book, s, x, end.emitted)
    decreases |cs|
  {
    hide WellFormed, Feed, Step, StepSignals, Tracks, TakenOff, Targets;
    if cs != [] {
      var first := Step(b, cs[0]);
      var m' := Feed(m, StepSignals(b, cs[0], s, x));
      StepIsFollowed(b, cs[0], s, x, m);
      StepKeepsBook(b, cs[0]);
      if Rests(first.book, s, x) {
        RunIsFollowed(first.book, cs[1..], s, x, m');
        var rest := WhileResting(first.book, s, x, cs[1..]);
        if TakenOff(rest.emitted, x) {
          TakenOffGrows(first.emitted, rest.emitted, [], x);
          assert first.emitted + rest.emitted + [] == first.emitted + rest.emitted;
        }
      } else {
        assert first.emitted + [] == first.emitted;
      }
    }
  }

  // ---------- what has left does not come back ----------

  ghost predicate Away(q: seq<Resting>, x: nat) { forall k :: 0 <= k < |q| ==> q[k].id != x }

  lemma {:induction false} WalkKeepsAway(
    q: seq<Resting>, r: OrderRequest, size: nat, policy: StpPolicy, sequence: nat, x: nat)
    requires Away(q, x)
    ensures Away(Match(q, r, size, policy, sequence).queue, x)
    decreases |q|
  {
    hide FillEmissions;
    if !Idle(q, r, size) {
      var meeting := Meet(q[0], r, size, policy, sequence);
      if meeting.Gone? {
        WalkKeepsAway(q[1..], r, meeting.remaining, policy, sequence + |meeting.emitted|, x);
      }
    }
  }

  lemma SubmitKeepsAway(b: Book, r: OrderRequest, s: Side, x: nat)
    requires Away(b.Queue(s), x) && r.orderId != x
    ensures Away(Submit(b, r).book.Queue(s), x)
  {
    hide Match, TotalCrossing, Validate;
    if s == r.side.Opposite() {
      WalkKeepsAway(b.Queue(s), r, r.quantity, b.policy, b.sequence + 1, x);
    }
  }

  lemma StepKeepsAway(b: Book, c: Command, s: Side, x: nat)
    requires Away(b.Queue(s), x) && !Targets(c, x)
    ensures Away(Step(b, c).book.Queue(s), x)
  {
    hide Submit, IndexOfId;
    match c
    case SubmitOrder(r) => SubmitKeepsAway(b, r, s, x);
    case CancelOrder(r) =>
    case ReplaceOrder(r) =>
      if Find(b, r.orderId).Some? {
        var p := Find(b, r.orderId).value;
        SubmitKeepsAway(Removed(b, p).(sequence := b.sequence + 1), Resubmission(b, p.side, r), s, x);
      }
  }

  lemma {:induction false} RunKeepsAway(b: Book, cs: seq<Command>, s: Side, x: nat)
    requires Away(b.Queue(s), x) && forall c :: c in cs ==> !Targets(c, x)
    ensures Away(Run(b, cs).book.Queue(s), x)
    decreases |cs|
  {
    hide Step, Away, Targets;
    if cs != [] {
      StepKeepsAway(b, cs[0], s, x);
      RunKeepsAway(Step(b, cs[0]).book, cs[1..], s, x);
    }
  }

  /** If the order still rests at the end, it rested all the time, and all of the run was observed. */
  lemma {:induction false} AllOfTheRun(b: Book, cs: seq<Command>, s: Side, x: nat)
    requires Rests(Run(b, cs).book, s, x) && forall c :: c in cs ==> !Targets(c, x)
    ensures WhileResting(b, s, x, cs) == Run(b, cs)
    decreases |cs|
  {
    hide Step, Targets;
    if cs != [] {
      if !Rests(b, s, x) {
        RunKeepsAway(b, cs, s, x);
      }
      AllOfTheRun(Step(b, cs[0]).book, cs[1..], s, x);
    }
  }

  /** Queue-model simulation: started from a resting order's true place and fed what the book does, the model's
      `ahead` and `ownRemaining` are the book's at the end of any run the order survives; otherwise, when the order
      has left the book without a self-trade policy taking it off, the model says it is filled. */
  lemma QueueModelIsExact(b: Book, cs: seq<Command>, s: Side, k: nat)
    requires WellFormed(b) && k < |b.Queue(s)|
    requires forall c :: c in cs ==> !Targets(c, b.Queue(s)[k].id)
    ensures var x := b.Queue(s)[k].id;
            var m := Observed(QueueState(TrueAhead(b.Queue(s), k), b.Queue(s)[k].remaining, 0, 0), b, s, x, cs);
            var q := Run(b, cs).book.Queue(s);
            var j := IndexOfId(q, x);
            if j < |q| then m.ahead == TrueAhead(q, j) && m.ownRemaining == q[j].remaining
            else m.ownRemaining == 0 || TakenOff(WhileResting(b, s, x, cs).emitted, x)
  {
    hide WellFormed, Observed, WhileResting, TrueAhead, Targets, Run, TakenOff;
    var x := b.Queue(s)[k].id;
    var m := QueueState(TrueAhead(b.Queue(s), k), b.Queue(s)[k].remaining, 0, 0);
    FollowsFrom(m, b, s, x, k, []);
    RunIsFollowed(b, cs, s, x, m);
    if Rests(Run(b, cs).book, s, x) {
      AllOfTheRun(b, cs, s, x);
    } else {
      EndsWithTheOrder(b, cs, s, x);
    }
  }

  /** What was observed ends with the run, or with the order. */
  lemma {:induction false} EndsWithTheOrder(b: Book, cs: seq<Command>, s: Side, x: nat)
    ensures Rests(WhileResting(b, s, x, cs).book, s, x) ==> WhileResting(b, s, x, cs) == Run(b, cs)
    decreases |cs|
  {
    hide Step, Rests;
    if cs != [] {
      EndsWithTheOrder(Step(b, cs[0]).book, cs[1..], s, x);
    }
  }
}
