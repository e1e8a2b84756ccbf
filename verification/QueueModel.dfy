/** QueuePositionModel: an estimate of one resting order's place in its price level, driven by the trades at
    that level and the cancels ahead. The results say that, driven by what the order book does, it is no
    estimate: it stays equal to the order's true place for as long as the order rests. */
module QueueModel {
  import opened Trading
  import opened BookSpec
  import opened BookInvariants

  datatype QueueState = QueueState(ahead: nat, ownRemaining: nat, filled: nat, events: nat)

  function Traded(s: QueueState, quantity: nat): QueueState {
    var consumed := Min(s.ahead, quantity);
    var fill := Min(s.ownRemaining, quantity - consumed);
    QueueState(s.ahead - consumed, s.ownRemaining - fill, s.filled + fill, s.events + 1)
  }

  function CutAhead(s: QueueState, quantity: nat): QueueState {
    s.(ahead := s.ahead - Min(s.ahead, quantity), events := s.events + 1)
  }

  class QueuePositionModel {
    var state: QueueState

    constructor (ahead: nat, ownQuantity: nat)
      ensures state == QueueState(ahead, ownQuantity, 0, 0)
    {
      state := QueueState(ahead, ownQuantity, 0, 0);
    }

    method OnTrade(tradedAtLevel: nat)
      modifies this
      ensures state == Traded(old(state), tradedAtLevel)
    {
      state := state.(events := state.events + 1);
      var consumeAhead := Min(state.ahead, tradedAtLevel);
      state := state.(ahead := state.ahead - consumeAhead);
      var residual := tradedAtLevel - consumeAhead;
      var ownFill := Min(state.ownRemaining, residual);
      state := state.(ownRemaining := state.ownRemaining - ownFill, filled := state.filled + ownFill);
    }

    method OnCancelAhead(cancelledAhead: nat)
      modifies this
      ensures state == CutAhead(old(state), cancelledAhead)
    {
      state := state.(events := state.events + 1);
      state := state.(ahead := state.ahead - Min(state.ahead, cancelledAhead));
    }
  }

  /** One print of a + b moves the model exactly as a print of a and a print of b, but for the event count;
      what is filled is what the order has lost. */
  lemma TradesAdd(s: QueueState, a: nat, b: nat)
    ensures Traded(Traded(s, a), b) == Traded(s, a + b).(events := s.events + 2)
    ensures var t := Traded(s, a); t.filled + t.ownRemaining == s.filled + s.ownRemaining
  {
  }

  // ---------- what an observer of the book feeds the model ----------

  datatype Signal = TradeAtLevel(quantity: nat) | CancelAhead(quantity: nat)

  function Hear(s: QueueState, signal: Signal): QueueState {
    match signal
    case TradeAtLevel(n) => Traded(s, n)
    case CancelAhead(n) => CutAhead(s, n)
  }

  function Feed(s: QueueState, signals: seq<Signal>): QueueState
    decreases |signals|
  {
    if signals == [] then s
    else Feed(Hear(s, signals[0]), signals[1..])
  }

  /** Does order `id` stand in front of position `k` at the same price? */
  ghost predicate InFront(q: seq<Resting>, k: nat, id: nat)
    requires k < |q|
  {
    exists i :: 0 <= i < k && q[i].id == id && q[i].price == q[k].price
  }

  /** What one emission means for the order at position `k` of side `s`. */
  ghost function SignalsOf(e: Emission, q: seq<Resting>, k: nat, s: Side): seq<Signal>
    requires k < |q|
  {
    if e.Trade? then
      if e.takerSide != s && e.price == q[k].price then [TradeAtLevel(e.quantity)] else []
    else
      if e.status.Cancelled? && InFront(q, k, e.orderId) then [CancelAhead(e.remaining)] else []
  }

  ghost function SignalsOfAll(es: seq<Emission>, q: seq<Resting>, k: nat, s: Side): seq<Signal>
    requires k < |q|
    decreases |es|
  {
    if es == [] then [] else SignalsOf(es[0], q, k, s) + SignalsOfAll(es[1..], q, k, s)
  }

  lemma {:induction false} FeedJoins(s: QueueState, a: seq<Signal>, b: seq<Signal>)
    ensures Feed(s, a + b) == Feed(Feed(s, a), b)
    decreases |a|
  {
    if a == [] {
      assert a + b == b;
    } else {
      assert (a + b)[1..] == a[1..] + b;
      FeedJoins(Hear(s, a[0]), a[1..], b);
    }
  }

  lemma {:induction false} SignalsJoin(a: seq<Emission>, b: seq<Emission>, q: seq<Resting>, k: nat, s: Side)
    requires k < |q|
    ensures SignalsOfAll(a + b, q, k, s) == SignalsOfAll(a, q, k, s) + SignalsOfAll(b, q, k, s)
    decreases |a|
  {
    hide SignalsOf;
    if a == [] {
      assert a + b == b;
    } else {
      assert (a + b)[1..] == a[1..] + b;
      SignalsJoin(a[1..], b, q, k, s);
    }
  }

  /** The true place of the order at position `k`. */
  function TrueAhead(q: seq<Resting>, k: nat): nat
    requires k < |q|
  {
    TotalAt(q[..k], q[k].price)
  }

  ghost predicate Tracks(m: QueueState, q: seq<Resting>, k: nat) {
    k < |q| && m.ahead == TrueAhead(q, k) && m.ownRemaining == q[k].remaining
  }

  // ---------- one meeting ----------

  lemma {:induction false} SignalsForgetHead(es: seq<Emission>, q: seq<Resting>, k: nat, s: Side)
    requires 0 < k < |q|
    requires forall e :: e in es && e.Report? && e.status.Cancelled? ==> e.orderId != q[0].id
    ensures SignalsOfAll(es, q, k, s) == SignalsOfAll(es, q[1..], k - 1, s)
    decreases |es|
  {
    if es != [] {
      assert es[0] in es && forall e :: e in es[1..] ==> e in es;
      SignalsForgetHead(es[1..], q, k, s);
      var e := es[0];
      if e.Report? && e.status.Cancelled? {
        FrontForgetsHead(q, k, e.orderId);
      }
    }
  }

  lemma FrontForgetsHead(q: seq<Resting>, k: nat, id: nat)
    requires 0 < k < |q| && id != q[0].id
    ensures InFront(q, k, id) <==> InFront(q[1..], k - 1, id)
  {
    if InFront(q, k, id) {
      var i :| 0 <= i < k && q[i].id == id && q[i].price == q[k].price;
      assert q[1..][i - 1] == q[i];
    }
    if InFront(q[1..], k - 1, id) {
      var i :| 0 <= i < k - 1 && q[1..][i].id == id && q[1..][i].price == q[1..][k - 1].price;
      assert q[i + 1] == q[1..][i];
    }
  }

  /** Only the taker and orders of the queue are ever cancelled by a walk. */
  lemma {:induction false} WalkCancels(q: seq<Resting>, r: OrderRequest, size: nat, policy: StpPolicy, sequence: nat)
    ensures forall e :: e in Match(q, r, size, policy, sequence).emitted && e.Report? && e.status.Cancelled? ==>
              e.orderId == r.orderId || exists i :: 0 <= i < |q| && q[i].id == e.orderId
    decreases |q|
  {
    if !Idle(q, r, size) {
      var meeting := Meet(q[0], r, size, policy, sequence);
      if meeting.Gone? {
        WalkCancels(q[1..], r, meeting.remaining, policy, sequence + |meeting.emitted|);
        assert forall i :: 0 <= i < |q| - 1 ==> q[1..][i] == q[i + 1];
      }
    }
  }

  lemma AheadAfterHead(q: seq<Resting>, k: nat)
    requires 0 < k < |q|
    ensures TrueAhead(q, k) == (if q[0].price == q[k].price then q[0].remaining else 0) + TrueAhead(q[1..], k - 1)
  {
    assert q[..k][1..] == q[1..][..k - 1];
  }

  lemma FeedOne(m: QueueState, signal: Signal)
    ensures Feed(m, [signal]) == Hear(m, signal)
  {
    assert [signal][1..] == [];
  }

  lemma OneSignal(e: Emission, q: seq<Resting>, k: nat, s: Side)
    requires k < |q|
    ensures SignalsOfAll([e], q, k, s) == SignalsOf(e, q, k, s)
  {
    hide SignalsOf;
    assert [e][1..] == [];
  }

  lemma TwoSignals(e: Emission, f: Emission, q: seq<Resting>, k: nat, s: Side)
    requires k < |q|
    ensures SignalsOfAll([e, f], q, k, s) == SignalsOf(e, q, k, s) + SignalsOf(f, q, k, s)
  {
    hide SignalsOf;
    assert [e, f][1..] == [f];
    OneSignal(f, q, k, s);
  }

  /** A trade with the first order, seen from position `k`. */
  lemma FillSignals(q: seq<Resting>, k: nat, r: OrderRequest, fill: nat, sequence: nat, s: Side)
    requires k < |q| && fill <= q[0].remaining && s != r.side
    ensures SignalsOfAll(FillEmissions(q[0], r, fill, sequence), q, k, s)
         == if q[0].price == q[k].price then [TradeAtLevel(fill)] else []
  {
    var es := FillEmissions(q[0], r, fill, sequence);
    TwoSignals(es[0], es[1], q, k, s);
  }

  lemma CancelSignals(q: seq<Resting>, k: nat, s: Side, sequence: nat, id: nat, remaining: nat, symbol: nat)
    requires k < |q|
    ensures SignalsOf(CancelledBy(sequence, id, remaining, symbol), q, k, s)
         == if InFront(q, k, id) then [CancelAhead(remaining)] else []
  {
  }

  /** The first order meets the taker while the tracked order stands behind it. */
  lemma MeetingBehind(
      q: seq<Resting>, k: nat, r: OrderRequest, size: nat, policy: StpPolicy, sequence: nat, m: QueueState)
    requires 0 < k < |q| && DistinctIds(q) && Tracks(m, q, k) && size > 0
    requires forall i :: 0 <= i < |q| ==> q[i].id != r.orderId
    ensures var meeting := Meet(q[0], r, size, policy, sequence);
            var m' := Feed(m, SignalsOfAll(meeting.emitted, q, k, r.side.Opposite()));
            if meeting.Gone? then Tracks(m', q[1..], k - 1)
            else
              var q' := meeting.left + q[1..];
              Tracks(m', q', k - 1 + |meeting.left|) && q'[k - 1 + |meeting.left|] == q[k]
  {
    hide FillEmissions, Feed, SignalsOfAll, TrueAhead;
    AheadAfterHead(q, k);
    var meeting := Meet(q[0], r, size, policy, sequence);
    var s := r.side.Opposite();
    if OwnOrder(policy, q[0], r) {
      MeetingBehindOwn(q, k, r, size, policy, sequence, m);
    } else {
      var fill := Min(q[0].remaining, size);
      FillSignals(q, k, r, fill, sequence, s);
      FeedOne(m, TradeAtLevel(fill));
      FeedNothing(m);
      if meeting.Last? {
        AheadAfterHead(meeting.left + q[1..], k);
        assert (meeting.left + q[1..])[1..] == q[1..];
      }
    }
  }

  lemma FeedNothing(m: QueueState)
    ensures Feed(m, []) == m
  {
  }

  /** The first order belongs to the taker's client: only its own removal can be heard. */
  lemma OwnSignals(q: seq<Resting>, k: nat, r: OrderRequest, size: nat, policy: StpPolicy, sequence: nat, s: Side)
    requires 0 < k < |q| && DistinctIds(q) && OwnOrder(policy, q[0], r)
    requires forall i :: 0 <= i < |q| ==> q[i].id != r.orderId
    ensures SignalsOfAll(Meet(q[0], r, size, policy, sequence).emitted, q, k, s)
         == if !policy.CancelNewest? && q[0].price == q[k].price then [CancelAhead(q[0].remaining)] else []
  {
    hide SignalsOfAll, SignalsOf, InFront;
    var es := Meet(q[0], r, size, policy, sequence).emitted;
    CancelSignals(q, k, s, sequence + 1, q[0].id, q[0].remaining, r.symbol);
    CancelSignals(q, k, s, sequence + 1, r.orderId, size, r.symbol);
    CancelSignals(q, k, s, sequence + 2, r.orderId, size, r.symbol);
    StrangerNotInFront(q, k, r.orderId);
    HeadInFront(q, k);
    if policy.CancelBoth? {
      TwoSignals(es[0], es[1], q, k, s);
    } else {
      OneSignal(es[0], q, k, s);
    }
  }

  lemma StrangerNotInFront(q: seq<Resting>, k: nat, id: nat)
    requires k < |q| && forall i :: 0 <= i < |q| ==> q[i].id != id
    ensures !InFront(q, k, id)
  {
  }

  lemma MeetingBehindOwn(
      q: seq<Resting>, k: nat, r: OrderRequest, size: nat, policy: StpPolicy, sequence: nat, m: QueueState)
    requires 0 < k < |q| && DistinctIds(q) && Tracks(m, q, k) && size > 0 && OwnOrder(policy, q[0], r)
    requires forall i :: 0 <= i < |q| ==> q[i].id != r.orderId
    ensures var meeting := Meet(q[0], r, size, policy, sequence);
            var m' := Feed(m, SignalsOfAll(meeting.emitted, q, k, r.side.Opposite()));
            if meeting.Gone? then Tracks(m', q[1..], k - 1)
            else
              var q' := meeting.left + q[1..];
              Tracks(m', q', k - 1 + |meeting.left|) && q'[k - 1 + |meeting.left|] == q[k]
  {
    hide Feed, SignalsOfAll, TrueAhead, SignalsOf;
    AheadAfterHead(q, k);
    OwnSignals(q, k, r, size, policy, sequence, r.side.Opposite());
    FeedOne(m, CancelAhead(q[0].remaining));
    FeedNothing(m);
    assert [] + q[1..] == q[1..];
    assert [q[0]] + q[1..] == q;
  }

  lemma HeadInFront(q: seq<Resting>, k: nat)
    requires 0 < k < |q| && DistinctIds(q)
    ensures InFront(q, k, q[0].id) <==> q[0].price == q[k].price
  {
  }

  // ---------- a whole walk ----------

  /** After a walk the order is where the model says, or filled as the model says, or evicted. */
  ghost predicate Accounted(m: QueueState, q: seq<Resting>, after: seq<Resting>, k: nat, es: seq<Emission>)
    requires k < |q|
  {
    var j := k - (|q| - |after|);
    if j >= 0 then Tracks(m, after, j) && after[j].id == q[k].id && after[j].price == q[k].price
    else m.ownRemaining == 0 || exists e :: e in es && e.Report? && e.status.Cancelled? && e.orderId == q[k].id
  }

  /** Nothing brings a filled order back. */
  lemma {:induction false} FilledStaysFilled(m: QueueState, signals: seq<Signal>)
    ensures m.ownRemaining == 0 ==> Feed(m, signals).ownRemaining == 0
    decreases |signals|
  {
    if signals != [] {
      FilledStaysFilled(Hear(m, signals[0]), signals[1..]);
    }
  }

  lemma {:induction false} WalkIsTracked(
    q: seq<Resting>, k: nat, r: OrderRequest, size: nat, policy: StpPolicy, sequence: nat, m: QueueState)
    requires k < |q| && DistinctIds(q) && Tracks(m, q, k)
    requires forall i :: 0 <= i < |q| ==> q[i].id != r.orderId
    ensures var walk := Match(q, r, size, policy, sequence);
            Accounted(Feed(m, SignalsOfAll(walk.emitted, q, k, r.side.Opposite())), q, walk.queue, k, walk.emitted)
    decreases |q|
  {
    hide Meet, SignalsOf, TrueAhead;
    var s := r.side.Opposite();
    if Idle(q, r, size) {
    } else if k == 0 {
      WalkHitsOrder(q, r, size, policy, sequence, m);
    } else {
      var meeting := Meet(q[0], r, size, policy, sequence);
      MeetingBehind(q, k, r, size, policy, sequence, m);
      if meeting.Gone? {
        WalkGoesOnBehind(q, k, r, size, policy, sequence, m);
      } else {
        LastLength(q[0], r, size, policy, sequence);
      }
    }
  }

  lemma LastLength(maker: Resting, r: OrderRequest, size: nat, policy: StpPolicy, sequence: nat)
    ensures var meeting := Meet(maker, r, size, policy, sequence);
            meeting.Last? ==> |meeting.left| <= 1
  {
  }

  lemma {:induction false} WalkGoesOnBehind(
    q: seq<Resting>, k: nat, r: OrderRequest, size: nat, policy: StpPolicy, sequence: nat, m: QueueState)
    requires 0 < k < |q| && DistinctIds(q) && Tracks(m, q, k) && !Idle(q, r, size)
    requires Meet(q[0], r, size, policy, sequence).Gone?
    requires forall i :: 0 <= i < |q| ==> q[i].id != r.orderId
    ensures var walk := Match(q, r, size, policy, sequence);
            Accounted(Feed(m, SignalsOfAll(walk.emitted, q, k, r.side.Opposite())), q, walk.queue, k, walk.emitted)
    decreases |q|, 0
  {
    hide Meet, SignalsOf, TrueAhead, Feed, SignalsOfAll;
    var s := r.side.Opposite();
    var meeting := Meet(q[0], r, size, policy, sequence);
    var rest := Match(q[1..], r, meeting.remaining, policy, sequence + |meeting.emitted|);
    MeetingBehind(q, k, r, size, policy, sequence, m);
    var m1 := Feed(m, SignalsOfAll(meeting.emitted, q, k, s));
    WalkIsTracked(q[1..], k - 1, r, meeting.remaining, policy, sequence + |meeting.emitted|, m1);
    WalkCancels(q[1..], r, meeting.remaining, policy, sequence + |meeting.emitted|);
    SignalsForgetHead(rest.emitted, q, k, s);
    SignalsJoin(meeting.emitted, rest.emitted, q, k, s);
    FeedJoins(m, SignalsOfAll(meeting.emitted, q, k, s), SignalsOfAll(rest.emitted, q, k, s));
  }

  /** The tracked order is first: it trades, or the policy removes it. */
  lemma WalkHitsOrder(q: seq<Resting>, r: OrderRequest, size: nat, policy: StpPolicy, sequence: nat, m: QueueState)
    requires q != [] && DistinctIds(q) && Tracks(m, q, 0) && !Idle(q, r, size)
    requires forall i :: 0 <= i < |q| ==> q[i].id != r.orderId
    ensures var walk := Match(q, r, size, policy, sequence);
            Accounted(Feed(m, SignalsOfAll(walk.emitted, q, 0, r.side.Opposite())), q, walk.queue, 0, walk.emitted)
  {
    hide FillEmissions, Feed, SignalsOfAll, SignalsOf;
    var s := r.side.Opposite();
    var meeting := Meet(q[0], r, size, policy, sequence);
    var walk := Match(q, r, size, policy, sequence);
    assert q[..0] == [];
    if OwnOrder(policy, q[0], r) {
      if policy.CancelNewest? {
        assert walk.emitted == [CancelledBy(sequence + 1, r.orderId, size, r.symbol)];
        OneSignal(walk.emitted[0], q, 0, s);
        CancelSignals(q, 0, s, sequence + 1, r.orderId, size, r.symbol);
        FeedNothing(m);
        assert [q[0]] + q[1..] == q;
      } else {
        assert walk.emitted[0] == CancelledBy(sequence + 1, q[0].id, q[0].remaining, r.symbol);
        assert |walk.queue| < |q| by { WalkShortens(q, r, size, policy, sequence); }
        assert walk.emitted[0] in walk.emitted;
      }
    } else {
      var fill := Min(q[0].remaining, size);
      FillSignals(q, 0, r, fill, sequence, s);
      FeedOne(m, TradeAtLevel(fill));
      if meeting.Gone? {
        var rest := Match(q[1..], r, meeting.remaining, policy, sequence + |meeting.emitted|);
        SignalsJoin(meeting.emitted, rest.emitted, q, 0, s);
        FeedJoins(m, SignalsOfAll(meeting.emitted, q, 0, s), SignalsOfAll(rest.emitted, q, 0, s));
        FilledStaysFilled(Traded(m, fill), SignalsOfAll(rest.emitted, q, 0, s));
        WalkShortens(q, r, size, policy, sequence);
      } else {
        assert (meeting.left + q[1..])[..0] == [];
      }
    }
  }

  lemma WalkShortens(q: seq<Resting>, r: OrderRequest, size: nat, policy: StpPolicy, sequence: nat)
    requires !Idle(q, r, size)
    ensures var meeting := Meet(q[0], r, size, policy, sequence);
            (meeting.Gone? || meeting.left == []) ==> |Match(q, r, size, policy, sequence).queue| < |q|
  {
    hide Meet;
    var meeting := Meet(q[0], r, size, policy, sequence);
    if meeting.Gone? {
      MatchConsumesPrefix(q[1..], r, meeting.remaining, policy, sequence + |meeting.emitted|);
    }
  }
}
