/** Price-time priority, in closed form. The walk of BookSpec.Match carries the taker's unfilled quantity
    from maker to maker; here every maker's share is given directly by the quantity on offer ahead of it,
    and the walk is proved to produce exactly those shares, in queue order and at maker prices. */
module BookPriority {
  import opened Trading
  import opened BookSpec
  import opened BookInvariants

  /** An own order the policy does not let the taker walk past. */
  predicate Barrier(policy: StpPolicy, maker: Resting, taker: OrderRequest) {
    OwnOrder(policy, maker, taker) && !policy.CancelOldest?
  }

  /** How many orders at the front the taker may reach, if it is large enough. */
  function Reach(q: seq<Resting>, r: OrderRequest, policy: StpPolicy): (n: nat)
    ensures n <= |q|
  {
    if q == [] || !Crosses(r, q[0].price) || Barrier(policy, q[0], r) then 0 else 1 + Reach(q[1..], r, policy)
  }

  /** What one order has to offer this taker. */
  function Offer(maker: Resting, r: OrderRequest, policy: StpPolicy): nat {
    if OwnOrder(policy, maker, r) then 0 else maker.remaining
  }

  /** The quantity on offer in front of position `k`. */
  function Ahead(q: seq<Resting>, k: nat, r: OrderRequest, policy: StpPolicy): nat
    requires k <= |q|
  {
    if k == 0 then 0 else Offer(q[0], r, policy) + Ahead(q[1..], k - 1, r, policy)
  }

  function Fillable(q: seq<Resting>, r: OrderRequest, policy: StpPolicy): nat {
    Ahead(q, Reach(q, r, policy), r, policy)
  }

  /** The share of a taker of size `size` that price-time priority gives to position `k`. */
  function Share(q: seq<Resting>, k: nat, r: OrderRequest, size: nat, policy: StpPolicy): nat
    requires k < |q|
  {
    var ahead := Ahead(q, k, r, policy);
    if k < Reach(q, r, policy) && ahead < size then Min(Offer(q[k], r, policy), size - ahead) else 0
  }

  datatype Execution = Execution(maker: nat, price: int, quantity: nat)

  function ExecutionOf(e: Emission): seq<Execution> {
    if e.Trade? then [Execution(e.maker, e.price, e.quantity)] else []
  }

  /** The trades among some emissions, without their sequence numbers. */
  function Executions(es: seq<Emission>): seq<Execution> {
    if es == [] then [] else ExecutionOf(es[0]) + Executions(es[1..])
  }

  /** The trades price-time priority prescribes from position `k` on. */
  function Prescribed(q: seq<Resting>, k: nat, r: OrderRequest, size: nat, policy: StpPolicy): seq<Execution>
    requires k <= |q|
    decreases |q| - k
  {
    if k == |q| then []
    else
      var share := Share(q, k, r, size, policy);
      (if share > 0 then [Execution(q[k].id, q[k].price, share)] else []) + Prescribed(q, k + 1, r, size, policy)
  }

  lemma {:induction false} ExecutionsJoin(a: seq<Emission>, b: seq<Emission>)
    ensures Executions(a + b) == Executions(a) + Executions(b)
  {
    hide ExecutionOf;
    if a == [] {
      assert a + b == b;
    } else {
      assert (a + b)[1..] == a[1..] + b;
      ExecutionsJoin(a[1..], b);
    }
  }

  /** Once the first maker has gone, everyone behind it sees the same walk with a smaller taker. */
  lemma ShareShifts(q: seq<Resting>, k: nat, r: OrderRequest, size: nat, policy: StpPolicy)
    requires 0 < k < |q| && Reach(q, r, policy) > 0 && Offer(q[0], r, policy) <= size
    ensures Share(q, k, r, size, policy) == Share(q[1..], k - 1, r, size - Offer(q[0], r, policy), policy)
  {
  }

  lemma {:induction false} PrescribedShifts(q: seq<Resting>, k: nat, r: OrderRequest, size: nat, policy: StpPolicy)
    requires 0 < k <= |q| && Reach(q, r, policy) > 0 && Offer(q[0], r, policy) <= size
    ensures Prescribed(q, k, r, size, policy)
         == Prescribed(q[1..], k - 1, r, size - Offer(q[0], r, policy), policy)
    decreases |q| - k
  {
    if k < |q| {
      ShareShifts(q, k, r, size, policy);
      PrescribedShifts(q, k + 1, r, size, policy);
    }
  }

  lemma {:induction false} NothingPrescribed(q: seq<Resting>, k: nat, r: OrderRequest, size: nat, policy: StpPolicy)
    requires k <= |q|
    requires k >= Reach(q, r, policy) || Ahead(q, k, r, policy) >= size
    ensures Prescribed(q, k, r, size, policy) == []
    decreases |q| - k
  {
    if k < |q| {
      AheadGrows(q, k, r, policy);
      NothingPrescribed(q, k + 1, r, size, policy);
    }
  }

  lemma {:induction false} AheadGrows(q: seq<Resting>, k: nat, r: OrderRequest, policy: StpPolicy)
    requires k < |q|
    ensures Ahead(q, k + 1, r, policy) == Ahead(q, k, r, policy) + Offer(q[k], r, policy)
  {
    if k > 0 {
      AheadGrows(q[1..], k - 1, r, policy);
    }
  }

  lemma {:induction false} AheadGrowsTo(q: seq<Resting>, k: nat, n: nat, r: OrderRequest, policy: StpPolicy)
    requires k <= n <= |q|
    ensures Ahead(q, k, r, policy) <= Ahead(q, n, r, policy)
    decreases n
  {
    if k < n {
      AheadGrows(q, n - 1, r, policy);
      AheadGrowsTo(q, k, n - 1, r, policy);
    }
  }

  lemma FillTrades(maker: Resting, r: OrderRequest, fill: nat, sequence: nat)
    requires fill <= maker.remaining
    ensures Executions(FillEmissions(maker, r, fill, sequence)) == [Execution(maker.id, maker.price, fill)]
  {
    var es := FillEmissions(maker, r, fill, sequence);
    assert Executions(es[1..]) == [] by {
      assert es[1..] == [es[1]] && es[1..][1..] == [];
    }
  }

  lemma ReportsTradeNothing(es: seq<Emission>)
    requires forall e :: e in es ==> e.Report?
    ensures Executions(es) == []
  {
    if es != [] {
      assert es[0] in es && forall e :: e in es[1..] ==> e in es;
      ReportsTradeNothing(es[1..]);
    }
  }

  lemma MeetingTrades(maker: Resting, r: OrderRequest, size: nat, policy: StpPolicy, sequence: nat)
    requires size > 0 && maker.remaining > 0
    ensures var meeting := Meet(maker, r, size, policy, sequence);
            && meeting.remaining == size - Min(Offer(maker, r, policy), size)
            && Executions(meeting.emitted) ==
                 (if Offer(maker, r, policy) > 0
                  then [Execution(maker.id, maker.price, Min(maker.remaining, size))] else [])
            && (meeting.Gone? ==> Offer(maker, r, policy) <= size && !Barrier(policy, maker, r))
            && (meeting.Last? ==> Barrier(policy, maker, r) || Offer(maker, r, policy) > size)
  {
    hide FillEmissions, Executions;
    if OwnOrder(policy, maker, r) {
      ReportsTradeNothing(Meet(maker, r, size, policy, sequence).emitted);
    } else {
      FillTrades(maker, r, Min(maker.remaining, size), sequence);
    }
  }

  /** Who is at the front gets everything it offers, up to the size of the taker. */
  lemma FirstShare(q: seq<Resting>, r: OrderRequest, size: nat, policy: StpPolicy)
    requires Positive(q) && !Idle(q, r, size) && !Barrier(policy, q[0], r)
    ensures Reach(q, r, policy) > 0
    ensures Share(q, 0, r, size, policy) == Min(Offer(q[0], r, policy), size)
    ensures Ahead(q, 1, r, policy) == Offer(q[0], r, policy)
  {
  }

  lemma IdleExecutesNothing(q: seq<Resting>, r: OrderRequest, size: nat, policy: StpPolicy)
    requires Idle(q, r, size)
    ensures Prescribed(q, 0, r, size, policy) == []
  {
    NothingPrescribed(q, 0, r, size, policy);
  }

  /** The walk trades exactly what price-time priority prescribes, in that order and at maker prices. */
  lemma {:induction false} TradesFollowPriority(
    q: seq<Resting>, r: OrderRequest, size: nat, policy: StpPolicy, sequence: nat)
    requires Positive(q)
    ensures Executions(Match(q, r, size, policy, sequence).emitted) == Prescribed(q, 0, r, size, policy)
    decreases |q|
  {
    hide Meet, Share;
    if Idle(q, r, size) {
      IdleExecutesNothing(q, r, size, policy);
    } else {
      MeetingTrades(q[0], r, size, policy, sequence);
      var meeting := Meet(q[0], r, size, policy, sequence);
      if Barrier(policy, q[0], r) {
        NothingPrescribed(q, 0, r, size, policy);
      } else {
        FirstShare(q, r, size, policy);
        if meeting.Gone? {
          var rest := Match(q[1..], r, meeting.remaining, policy, sequence + |meeting.emitted|);
          TradesFollowPriority(q[1..], r, meeting.remaining, policy, sequence + |meeting.emitted|);
          ExecutionsJoin(meeting.emitted, rest.emitted);
          PrescribedShifts(q, 1, r, size, policy);
        } else {
          NothingPrescribed(q, 1, r, size, policy);
        }
      }
    }
  }

  /** The walk stops for one of three reasons only, and each leaves a definite remainder. */
  lemma {:induction false} WalkRemainder(
    q: seq<Resting>, r: OrderRequest, size: nat, policy: StpPolicy, sequence: nat)
    requires Positive(q)
    ensures var m := Match(q, r, size, policy, sequence);
            var n := Reach(q, r, policy);
            && m.remaining == size - Min(size, Fillable(q, r, policy))
            && (m.takerCancelled <==>
                  n < |q| && Crosses(r, q[n].price) && Barrier(policy, q[n], r) && Fillable(q, r, policy) < size)
    decreases |q|
  {
    hide Meet;
    if Idle(q, r, size) {
    } else {
      MeetingTrades(q[0], r, size, policy, sequence);
      BarrierCancelsTaker(q[0], r, size, policy, sequence);
      var meeting := Meet(q[0], r, size, policy, sequence);
      if meeting.Gone? {
        FillableBehind(q, r, policy);
        WalkRemainder(q[1..], r, meeting.remaining, policy, sequence + |meeting.emitted|);
      } else if !Barrier(policy, q[0], r) {
        AheadGrows(q, 0, r, policy);
        AheadGrowsTo(q, 1, Reach(q, r, policy), r, policy);
      }
    }
  }

  lemma FillableBehind(q: seq<Resting>, r: OrderRequest, policy: StpPolicy)
    requires q != [] && Crosses(r, q[0].price) && !Barrier(policy, q[0], r)
    ensures Reach(q, r, policy) == 1 + Reach(q[1..], r, policy)
    ensures Fillable(q, r, policy) == Offer(q[0], r, policy) + Fillable(q[1..], r, policy)
  {
  }

  lemma BarrierCancelsTaker(maker: Resting, r: OrderRequest, size: nat, policy: StpPolicy, sequence: nat)
    ensures var meeting := Meet(maker, r, size, policy, sequence);
            meeting.Last? ==> (meeting.takerCancelled <==> Barrier(policy, maker, r))
  {
  }

  // ---------- what the walk leaves ----------

  /** Does the policy take position `k` off the book without a trade? */
  predicate Evicted(q: seq<Resting>, k: nat, r: OrderRequest, size: nat, policy: StpPolicy)
    requires k < |q|
  {
    && OwnOrder(policy, q[k], r) && Crosses(r, q[k].price) && Ahead(q, k, r, policy) < size
    && ((policy.CancelOldest? && k < Reach(q, r, policy)) || (policy.CancelBoth? && k == Reach(q, r, policy)))
  }

  function Left(q: seq<Resting>, k: nat, r: OrderRequest, size: nat, policy: StpPolicy): nat
    requires k < |q|
  {
    if Evicted(q, k, r, size, policy) then 0 else q[k].remaining - Min(q[k].remaining, Share(q, k, r, size, policy))
  }

  /** The queue price-time priority leaves, from position `k` on. */
  function Survivors(q: seq<Resting>, k: nat, r: OrderRequest, size: nat, policy: StpPolicy): seq<Resting>
    requires k <= |q|
    decreases |q| - k
  {
    if k == |q| then []
    else
      var left := Left(q, k, r, size, policy);
      (if left > 0 then [q[k].(remaining := left)] else []) + Survivors(q, k + 1, r, size, policy)
  }

  lemma LeftShifts(q: seq<Resting>, k: nat, r: OrderRequest, size: nat, policy: StpPolicy)
    requires 0 < k < |q| && Reach(q, r, policy) > 0 && Offer(q[0], r, policy) <= size
    ensures Left(q, k, r, size, policy) == Left(q[1..], k - 1, r, size - Offer(q[0], r, policy), policy)
  {
    ShareShifts(q, k, r, size, policy);
  }

  lemma {:induction false} SurvivorsShift(q: seq<Resting>, k: nat, r: OrderRequest, size: nat, policy: StpPolicy)
    requires 0 < k <= |q| && Reach(q, r, policy) > 0 && Offer(q[0], r, policy) <= size
    ensures Survivors(q, k, r, size, policy) == Survivors(q[1..], k - 1, r, size - Offer(q[0], r, policy), policy)
    decreases |q| - k
  {
    hide Left;
    if k < |q| {
      LeftShifts(q, k, r, size, policy);
      SurvivorsShift(q, k + 1, r, size, policy);
    }
  }

  /** An order the walk does not come to, or stops in front of, keeps all it has. */
  lemma KeepsAll(q: seq<Resting>, k: nat, r: OrderRequest, size: nat, policy: StpPolicy)
    requires k < |q|
    requires Ahead(q, k, r, policy) >= size || k > Reach(q, r, policy) ||
             (k == Reach(q, r, policy) && !Evicted(q, k, r, size, policy))
    ensures Left(q, k, r, size, policy) == q[k].remaining
  {
    hide Ahead, Reach, Offer;
  }

  lemma {:induction false} AllSurvive(q: seq<Resting>, k: nat, r: OrderRequest, size: nat, policy: StpPolicy)
    requires Positive(q) && k <= |q|
    requires Ahead(q, k, r, policy) >= size || k > Reach(q, r, policy) ||
             (k == Reach(q, r, policy) && (k < |q| ==> !Evicted(q, k, r, size, policy)))
    ensures Survivors(q, k, r, size, policy) == q[k..]
    decreases |q| - k
  {
    hide Ahead, Reach, Offer, Left, Evicted;
    if k < |q| {
      KeepsAll(q, k, r, size, policy);
      AheadGrows(q, k, r, policy);
      AllSurvive(q, k + 1, r, size, policy);
      assert q[k].(remaining := q[k].remaining) == q[k];
      assert q[k..] == [q[k]] + q[k + 1..];
    }
  }

  /** What the walk leaves of the first maker when it ends there; nobody behind it is reached. */
  lemma LeftOfFirst(q: seq<Resting>, r: OrderRequest, size: nat, policy: StpPolicy, sequence: nat)
    requires Positive(q) && !Idle(q, r, size) && Meet(q[0], r, size, policy, sequence).Last?
    ensures var left := Left(q, 0, r, size, policy);
            Meet(q[0], r, size, policy, sequence).left == if left > 0 then [q[0].(remaining := left)] else []
    ensures Reach(q, r, policy) == 0 || Ahead(q, 1, r, policy) >= size
  {
    hide FillEmissions;
    AheadGrows(q, 0, r, policy);
  }

  /** Survivors of a walk that ends at the first maker. */
  lemma LastSurvivors(q: seq<Resting>, r: OrderRequest, size: nat, policy: StpPolicy, sequence: nat)
    requires Positive(q) && !Idle(q, r, size) && Meet(q[0], r, size, policy, sequence).Last?
    ensures Survivors(q, 0, r, size, policy) == Meet(q[0], r, size, policy, sequence).left + q[1..]
  {
    hide Meet, Left, Reach, Ahead, Evicted;
    LeftOfFirst(q, r, size, policy, sequence);
    AllSurvive(q, 1, r, size, policy);
  }

  lemma IdleSurvivors(q: seq<Resting>, r: OrderRequest, size: nat, policy: StpPolicy)
    requires Positive(q) && Idle(q, r, size)
    ensures Survivors(q, 0, r, size, policy) == q
  {
    AllSurvive(q, 0, r, size, policy);
  }

  lemma FirstLeaves(q: seq<Resting>, r: OrderRequest, size: nat, policy: StpPolicy, sequence: nat)
    requires Positive(q) && !Idle(q, r, size) && Meet(q[0], r, size, policy, sequence).Gone?
    ensures Left(q, 0, r, size, policy) == 0 && Reach(q, r, policy) > 0
  {
  }

  lemma NothingLeftOfFirst(q: seq<Resting>, r: OrderRequest, size: nat, policy: StpPolicy)
    requires q != [] && Left(q, 0, r, size, policy) == 0
    ensures Survivors(q, 0, r, size, policy) == Survivors(q, 1, r, size, policy)
  {
    hide Left;
  }

  /** The walk leaves exactly the orders priority leaves: those not reached untouched, those reached
      reduced by their share or evicted by the policy. */
  lemma {:induction false} QueueAfterWalk(
    q: seq<Resting>, r: OrderRequest, size: nat, policy: StpPolicy, sequence: nat)
    requires Positive(q)
    ensures Match(q, r, size, policy, sequence).queue == Survivors(q, 0, r, size, policy)
    decreases |q|
  {
    hide Meet, Left, Reach, Offer, Idle, Survivors, Share, Ahead;
    if Idle(q, r, size) {
      IdleSurvivors(q, r, size, policy);
    } else {
      IdleNot(q, r, size);
      var meeting := Meet(q[0], r, size, policy, sequence);
      if meeting.Gone? {
        MeetingTrades(q[0], r, size, policy, sequence);
        FirstLeaves(q, r, size, policy, sequence);
        NothingLeftOfFirst(q, r, size, policy);
        QueueAfterWalk(q[1..], r, meeting.remaining, policy, sequence + |meeting.emitted|);
        SurvivorsShift(q, 1, r, size, policy);
      } else {
        LastSurvivors(q, r, size, policy, sequence);
      }
    }
  }

  lemma IdleNot(q: seq<Resting>, r: OrderRequest, size: nat)
    ensures !Idle(q, r, size) ==> size > 0 && q != []
  {
  }

  // ---------- consequences for whole submissions ----------

  lemma {:induction false} PrescribedNamesMakers(
    q: seq<Resting>, k: nat, r: OrderRequest, size: nat, policy: StpPolicy)
    requires k <= |q|
    ensures forall x :: x in Prescribed(q, k, r, size, policy) ==>
              exists i :: k <= i < |q| && x == Execution(q[i].id, q[i].price, Share(q, i, r, size, policy))
                          && x.quantity > 0
    decreases |q| - k
  {
    if k < |q| {
      PrescribedNamesMakers(q, k + 1, r, size, policy);
    }
  }

  /** With a self-trade policy set, no trade has the same client on both sides. */
  lemma NoSelfTrade(q: seq<Resting>, r: OrderRequest, size: nat, policy: StpPolicy, sequence: nat)
    requires Positive(q) && policy != NoPrevention
    ensures forall x :: x in Executions(Match(q, r, size, policy, sequence).emitted) ==>
              exists i :: 0 <= i < |q| && q[i].id == x.maker && q[i].client != r.clientId
                          && q[i].price == x.price && Crosses(r, x.price)
  {
    TradesFollowPriority(q, r, size, policy, sequence);
    PrescribedNamesMakers(q, 0, r, size, policy);
    forall x | x in Executions(Match(q, r, size, policy, sequence).emitted)
      ensures exists i :: 0 <= i < |q| && q[i].id == x.maker && q[i].client != r.clientId
                          && q[i].price == x.price && Crosses(r, x.price)
    {
      var i :| 0 <= i < |q| && x == Execution(q[i].id, q[i].price, Share(q, i, r, size, policy)) && x.quantity > 0;
      ReachedOrdersCross(q, i, r, policy);
    }
  }

  lemma {:induction false} ReachedOrdersCross(q: seq<Resting>, k: nat, r: OrderRequest, policy: StpPolicy)
    requires k < Reach(q, r, policy)
    ensures Crosses(r, q[k].price)
  {
    if k > 0 {
      ReachedOrdersCross(q[1..], k - 1, r, policy);
    }
  }

  lemma {:induction false} CrossingIsFillable(q: seq<Resting>, r: OrderRequest)
    ensures TotalCrossing(q, r) == Fillable(q, r, NoPrevention)
  {
    if q != [] && Crosses(r, q[0].price) {
      CrossingIsFillable(q[1..], r);
    }
  }

  /** Fill-or-kill: a valid order is accepted exactly when all crossing liquidity covers it, which is what it could
      reach without a policy; if it is refused every level is left alone; and if it is accepted it is filled
      completely exactly when the liquidity its policy lets it reach covers it. */
  lemma FokFillsExactlyWhenReachable(b: Book, r: OrderRequest)
    requires WellFormed(b) && r.kind.FOK?
    ensures var q := b.Queue(r.side.Opposite());
            && (Validate(b, r) == NoReason ==> (Submit(b, r).ok <==> Fillable(q, r, NoPrevention) >= r.quantity))
            && (!Submit(b, r).ok ==> Submit(b, r).book == b.(sequence := b.sequence + 1))
            && (Submit(b, r).ok ==> (WalkOf(b, r).remaining == 0 <==> Fillable(q, r, b.policy) >= r.quantity))
    ensures Submit(b, r).ok && b.policy.NoPrevention? ==> WalkOf(b, r).remaining == 0
    ensures Submit(b, r).ok && (forall o :: o in b.Queue(r.side.Opposite()) ==> o.client != r.clientId) ==>
              WalkOf(b, r).remaining == 0
  {
    hide Execute, Match, Fillable, TotalCrossing;
    var q := b.Queue(r.side.Opposite());
    WalkRemainder(q, r, r.quantity, b.policy, b.sequence + 1);
    CrossingIsFillable(q, r);
    ExecutionIsOk(b, r);
    if forall o :: o in q ==> o.client != r.clientId {
      StrangersIgnorePolicy(q, r, b.policy);
    }
  }

  lemma {:induction false} StrangersIgnorePolicy(q: seq<Resting>, r: OrderRequest, policy: StpPolicy)
    requires forall o :: o in q ==> o.client != r.clientId
    ensures Fillable(q, r, policy) == Fillable(q, r, NoPrevention)
  {
    if q != [] {
      StrangersIgnorePolicy(q[1..], r, policy);
    }
  }

  lemma TwoOrders(q: seq<Resting>, r: OrderRequest)
    requires |q| == 2 && Crosses(r, q[0].price) && Crosses(r, q[1].price)
    ensures TotalCrossing(q, r) == q[0].remaining + q[1].remaining
    ensures OwnOrder(CancelOldest, q[1], r) ==> Fillable(q, r, CancelOldest) == Offer(q[0], r, CancelOldest)
  {
    assert q[1..] == [q[1]] && q[1..][1..] == [];
    assert TotalCrossing(q[1..], r) == q[1].remaining;
    assert Reach(q[1..], r, CancelOldest) == 1;
    assert Ahead(q[1..], 1, r, CancelOldest) == Offer(q[1], r, CancelOldest);
  }

  const OWN_LIQUIDITY: seq<Resting> := [Resting(1, 7, 100, 5), Resting(2, 9, 100, 5)]
  const FOK_ORDER: OrderRequest := OrderRequest(3, 9, Buy, FOK, 100, 10, 1)

  lemma FokExampleIsAdmitted(b: Book)
    requires b == Book(1, 8, CancelOldest, [], OWN_LIQUIDITY, 2)
    ensures WellFormed(b) && Refusal(b, FOK_ORDER) == NoReason
  {
    TwoOrders(OWN_LIQUIDITY, FOK_ORDER);
  }

  /** The all-or-nothing promise fails once a policy meets own liquidity: of this order for 10, accepted
      against 10 on offer, only 5 can be traded and the rest expires. */
  lemma FokCanFillInPart()
    ensures var b := Book(1, 8, CancelOldest, [], OWN_LIQUIDITY, 2);
            WellFormed(b) && Submit(b, FOK_ORDER).ok && WalkOf(b, FOK_ORDER).remaining == 5
  {
    hide Match, Conclude, Refusal, Fillable, Reach, WellFormed;
    FokExampleIsAdmitted(Book(1, 8, CancelOldest, [], OWN_LIQUIDITY, 2));
    TwoOrders(OWN_LIQUIDITY, FOK_ORDER);
    WalkRemainder(OWN_LIQUIDITY, FOK_ORDER, 10, CancelOldest, 3);
  }

  /** Market, IOC and FOK orders never rest; a post-only order never trades and rests whole. */
  lemma RestingPolicy(b: Book, r: OrderRequest)
    requires Submit(b, r).ok
    ensures !MayRest(r) ==> Submit(b, r).book.Queue(r.side) == b.Queue(r.side)
    ensures r.kind.PostOnly? ==>
              && Executions(Submit(b, r).emitted) == []
              && Submit(b, r).book.Queue(r.side.Opposite()) == b.Queue(r.side.Opposite())
              && Submit(b, r).book.Queue(r.side) == Insert(r.side, b.Queue(r.side), Leftover(r, r.quantity))
  {
    hide Insert, TotalCrossing;
  }
}
