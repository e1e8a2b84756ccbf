/** Conservation. For every order id, over any run: the quantity accepted is the quantity traded, plus what
    still rests, plus what was cancelled or expired, plus what replacements gave up. The first, second and
    fourth are read off the emissions alone. */
module BookLedger {
  import opened Trading
  import opened BookSpec
  import opened BookInvariants

  function AcceptedBy(e: Emission, id: nat): nat {
    if e.Report? && e.orderId == id && e.status.Accepted? then e.remaining else 0
  }

  function TradedBy(e: Emission, id: nat): nat {
    if e.Report? then 0 else (if e.maker == id then e.quantity else 0) + (if e.taker == id then e.quantity else 0)
  }

  function EndedBy(e: Emission, id: nat): nat {
    if e.Report? && e.orderId == id && (e.status.Cancelled? || e.status.Expired?) then e.remaining else 0
  }

  function AcceptedTotal(es: seq<Emission>, id: nat): nat {
    if es == [] then 0 else AcceptedBy(es[0], id) + AcceptedTotal(es[1..], id)
  }

  function TradedTotal(es: seq<Emission>, id: nat): nat {
    if es == [] then 0 else TradedBy(es[0], id) + TradedTotal(es[1..], id)
  }

  function EndedTotal(es: seq<Emission>, id: nat): nat {
    if es == [] then 0 else EndedBy(es[0], id) + EndedTotal(es[1..], id)
  }

  /** The change of the open quantity of order `id` that one emission announces. */
  function Entry(e: Emission, id: nat): int {
    AcceptedBy(e, id) - TradedBy(e, id) - EndedBy(e, id)
  }

  function Net(es: seq<Emission>, id: nat): int {
    if es == [] then 0 else Entry(es[0], id) + Net(es[1..], id)
  }

  lemma {:induction false} NetSplits(es: seq<Emission>, id: nat)
    ensures Net(es, id) == AcceptedTotal(es, id) - TradedTotal(es, id) - EndedTotal(es, id)
  {
    if es != [] {
      NetSplits(es[1..], id);
    }
  }

  lemma {:induction false} NetJoins(a: seq<Emission>, b: seq<Emission>, id: nat)
    ensures Net(a + b, id) == Net(a, id) + Net(b, id)
  {
    hide Entry;
    if a == [] {
      assert a + b == b;
    } else {
      assert (a + b)[1..] == a[1..] + b;
      NetJoins(a[1..], b, id);
    }
  }

  lemma NetOfOne(e: Emission, id: nat)
    ensures Net([e], id) == Entry(e, id)
  {
    hide Entry;
    assert [e][1..] == [];
  }

  lemma NetOfTwo(e: Emission, f: Emission, id: nat)
    ensures Net([e, f], id) == Entry(e, id) + Entry(f, id)
  {
    hide Entry;
    assert [e, f][1..] == [f];
    NetOfOne(f, id);
  }

  function HeldIn(q: seq<Resting>, id: nat): nat {
    if q == [] then 0 else (if q[0].id == id then q[0].remaining else 0) + HeldIn(q[1..], id)
  }

  function Held(b: Book, id: nat): nat { HeldIn(b.bids, id) + HeldIn(b.asks, id) }

  lemma {:induction false} HeldInJoins(a: seq<Resting>, b: seq<Resting>, id: nat)
    ensures HeldIn(a + b, id) == HeldIn(a, id) + HeldIn(b, id)
  {
    if a == [] {
      assert a + b == b;
    } else {
      assert (a + b)[1..] == a[1..] + b;
      HeldInJoins(a[1..], b, id);
    }
  }

  lemma HeldInOne(o: Resting, id: nat)
    ensures HeldIn([o], id) == if o.id == id then o.remaining else 0
  {
    assert [o][1..] == [];
  }

  /** The quantity a replacement command gives up for order `id`: the reduction when it keeps its place,
      all that was resting when it moves. */
  function GivenUp(b: Book, c: Command, id: nat): nat {
    if !c.ReplaceOrder? || c.replacement.orderId != id || !Step(b, c).ok then 0
    else
      match Find(b, id)
      case None => 0
      case Some(p) =>
        var o := b.Queue(p.side)[p.at];
        if InPlace(o, c.replacement) then o.remaining - c.replacement.newQuantity else o.remaining
  }

  /** The books balance for `id` between `before` and `after` when `es` is emitted and `lost` given up. */
  ghost predicate Balances(before: nat, es: seq<Emission>, id: nat, lost: nat, after: nat) {
    before + Net(es, id) == after + lost
  }

  // ---------- one submission ----------

  function Mine(r: OrderRequest, id: nat, quantity: nat): nat { if r.orderId == id then quantity else 0 }

  lemma FillBalances(maker: Resting, r: OrderRequest, fill: nat, sequence: nat, id: nat)
    requires fill <= maker.remaining
    ensures Net(FillEmissions(maker, r, fill, sequence), id)
         == 0 - Mine(r, id, fill) - (if maker.id == id then fill else 0)
  {
    var es := FillEmissions(maker, r, fill, sequence);
    NetOfTwo(es[0], es[1], id);
  }

  lemma CancelledBalances(sequence: nat, orderId: nat, remaining: nat, symbol: nat, id: nat)
    ensures Entry(CancelledBy(sequence, orderId, remaining, symbol), id)
         == -(if orderId == id then remaining else 0)
  {
  }

  ghost predicate MeetingBalanced(maker: Resting, r: OrderRequest, size: nat, meeting: Meeting, id: nat) {
    var left := if meeting.Last? then HeldIn(meeting.left, id) else 0;
    var taker := if meeting.Last? && meeting.takerCancelled then 0 else meeting.remaining;
    Balances(HeldIn([maker], id) + Mine(r, id, size), meeting.emitted, id, 0, left + Mine(r, id, taker))
  }

  lemma OwnMeetingBalances(maker: Resting, r: OrderRequest, size: nat, policy: StpPolicy, sequence: nat, id: nat)
    requires OwnOrder(policy, maker, r)
    ensures MeetingBalanced(maker, r, size, Meet(maker, r, size, policy, sequence), id)
  {
    hide Entry, Net, HeldIn;
    HeldInOne(maker, id);
    assert HeldIn([], id) == 0 by { NothingHeld(id); }
    CancelledBalances(sequence + 1, maker.id, maker.remaining, r.symbol, id);
    CancelledBalances(sequence + 1, r.orderId, size, r.symbol, id);
    CancelledBalances(sequence + 2, r.orderId, size, r.symbol, id);
    var es := Meet(maker, r, size, policy, sequence).emitted;
    if policy.CancelBoth? {
      NetOfTwo(es[0], es[1], id);
    } else {
      NetOfOne(es[0], id);
    }
  }

  lemma NothingHeld(id: nat)
    ensures HeldIn([], id) == 0
  {
  }

  lemma MeetingBalances(maker: Resting, r: OrderRequest, size: nat, policy: StpPolicy, sequence: nat, id: nat)
    ensures MeetingBalanced(maker, r, size, Meet(maker, r, size, policy, sequence), id)
  {
    hide FillEmissions, Net, HeldIn;
    if OwnOrder(policy, maker, r) {
      OwnMeetingBalances(maker, r, size, policy, sequence, id);
    } else {
      FillBalances(maker, r, Min(maker.remaining, size), sequence, id);
      HeldInOne(maker, id);
      HeldInOne(maker.(remaining := maker.remaining - Min(maker.remaining, size)), id);
    }
  }

  lemma {:induction false} WalkBalances(
    q: seq<Resting>, r: OrderRequest, size: nat, policy: StpPolicy, sequence: nat, id: nat)
    ensures var m := Match(q, r, size, policy, sequence);
            Balances(HeldIn(q, id) + Mine(r, id, size), m.emitted, id, 0,
                     HeldIn(m.queue, id) + Mine(r, id, if m.takerCancelled then 0 else m.remaining))
    decreases |q|
  {
    hide Meet, Idle, Entry;
    if !Idle(q, r, size) && q != [] {
      MeetingBalances(q[0], r, size, policy, sequence, id);
      var meeting := Meet(q[0], r, size, policy, sequence);
      HeldInOne(q[0], id);
      if meeting.Gone? {
        WalkBalances(q[1..], r, meeting.remaining, policy, sequence + |meeting.emitted|, id);
        NetJoins(meeting.emitted, Match(q[1..], r, meeting.remaining, policy, sequence + |meeting.emitted|).emitted,
            id);
      } else {
        HeldInJoins(meeting.left, q[1..], id);
      }
    } else {
      IdleMatch(q, r, size, policy, sequence);
    }
  }

  lemma IdleMatch(q: seq<Resting>, r: OrderRequest, size: nat, policy: StpPolicy, sequence: nat)
    requires Idle(q, r, size) || q == []
    ensures Match(q, r, size, policy, sequence) == MatchResult(q, size, [], false)
  {
  }

  lemma RestBalances(b: Book, s: Side, o: Resting, id: nat)
    ensures Held(RestOrder(b, s, o), id) == Held(b, id) + if o.id == id then o.remaining else 0
  {
    var q := b.Queue(s);
    var n := InsertionPoint(s, q, o.price);
    assert q == q[..n] + q[n..];
    HeldInJoins(q[..n], q[n..], id);
    HeldInJoins(q[..n] + [o], q[n..], id);
    HeldInJoins(q[..n], [o], id);
    HeldInOne(o, id);
  }

  lemma ConcludeBalances(b: Book, r: OrderRequest, remaining: nat, id: nat)
    ensures var o := Conclude(b, r, remaining);
            Balances(Held(b, id) + Mine(r, id, remaining), o.emitted, id, 0, Held(o.book, id))
  {
    hide RestOrder, HeldIn, Net, Entry;
    var es := TakerReport(b, r, remaining);
    var b1 := b.(sequence := b.sequence + |es|);
    TakerReportBalances(b, r, remaining, id);
    if remaining > 0 && MayRest(r) {
      RestBalances(b1, r.side, Leftover(r, remaining), id);
    } else if remaining > 0 {
      var expired := ReportOf(b1, 1, r.orderId, Expired, remaining, NoReason);
      NetJoins(es, [expired], id);
      NetOfOne(expired, id);
      assert Entry(expired, id) == 0 - Mine(r, id, remaining) by { ExpiredEntry(expired, id); }
    }
  }

  lemma ExpiredEntry(e: Emission, id: nat)
    requires e.Report? && e.status.Expired?
    ensures Entry(e, id) == -(if e.orderId == id then e.remaining else 0)
  {
  }

  lemma TakerReportBalances(b: Book, r: OrderRequest, remaining: nat, id: nat)
    ensures Net(TakerReport(b, r, remaining), id) == 0
  {
    var es := TakerReport(b, r, remaining);
    if es != [] {
      NetOfOne(es[0], id);
    }
  }

  lemma RefusalBalances(b: Book, orderId: nat, remaining: nat, reason: RejectReason, id: nat)
    ensures Net(Reject(b, orderId, remaining, reason).emitted, id) == 0
  {
    NetOfOne(ReportOf(b, 1, orderId, Rejected, remaining, reason), id);
  }

  lemma AcceptedEntry(b: Book, r: OrderRequest, id: nat)
    ensures Net([ReportOf(b, 1, r.orderId, Accepted, r.quantity, NoReason)], id) == Mine(r, id, r.quantity)
  {
    NetOfOne(ReportOf(b, 1, r.orderId, Accepted, r.quantity, NoReason), id);
  }

  lemma SubmitBalances(b: Book, r: OrderRequest, id: nat)
    ensures var o := Submit(b, r);
            Balances(Held(b, id), o.emitted, id, 0, Held(o.book, id))
  {
    hide Match, Conclude, Refusal, HeldIn, Net;
    if Refusal(b, r) != NoReason {
      RefusalBalances(b, r.orderId, r.quantity, Refusal(b, r), id);
    } else {
      var m := WalkOf(b, r);
      var accepted := [ReportOf(b, 1, r.orderId, Accepted, r.quantity, NoReason)];
      WalkBalances(b.Queue(r.side.Opposite()), r, r.quantity, b.policy, b.sequence + 1, id);
      AcceptedEntry(b, r, id);
      NetJoins(accepted, m.emitted, id);
      if !m.takerCancelled {
        ConcludeBalances(AfterWalk(b, r), r, m.remaining, id);
        NetJoins(accepted + m.emitted, Conclude(AfterWalk(b, r), r, m.remaining).emitted, id);
      }
    }
  }

  // ---------- cancel, replace, runs ----------

  lemma RemovalBalances(b: Book, p: Place, id: nat)
    requires p.at < |b.Queue(p.side)|
    ensures var o := b.Queue(p.side)[p.at];
            Held(b, id) == Held(Removed(b, p), id) + if o.id == id then o.remaining else 0
  {
    var q := b.Queue(p.side);
    assert q == q[..p.at] + ([q[p.at]] + q[p.at + 1..]);
    HeldInJoins(q[..p.at], [q[p.at]] + q[p.at + 1..], id);
    HeldInJoins([q[p.at]], q[p.at + 1..], id);
    HeldInJoins(q[..p.at], q[p.at + 1..], id);
    HeldInOne(q[p.at], id);
  }

  lemma ReductionBalances(b: Book, p: Place, left: nat, id: nat)
    requires p.at < |b.Queue(p.side)| && left <= b.Queue(p.side)[p.at].remaining
    ensures var o := b.Queue(p.side)[p.at];
            Held(b, id) == Held(Reduced(b, p, left), id) + if o.id == id then o.remaining - left else 0
  {
    hide Without, HeldIn;
    var b' := Reduced(b, p, left);
    RemovalBalances(b, p, id);
    RemovalBalances(b', p, id);
    assert Removed(b, p) == Removed(b', p) by {
      SameWithout(b.Queue(p.side), p.at, b'.Queue(p.side)[p.at]);
    }
  }

  lemma SameWithout(q: seq<Resting>, k: nat, o: Resting)
    requires k < |q|
    ensures Without(q[k := o], k) == Without(q, k)
  {
  }

  lemma CancelBalances(b: Book, r: CancelRequest, id: nat)
    ensures var o := Cancel(b, r);
            Balances(Held(b, id), o.emitted, id, 0, Held(o.book, id))
  {
    hide Find, Removed, HeldIn, Net;
    var found := Find(b, r.orderId);
    match found
    case None => RefusalBalances(b, r.orderId, 0, UnknownOrder, id);
    case Some(p) =>
      var o := b.Queue(p.side)[p.at];
      RefusalBalances(b, r.orderId, o.remaining, ClientMismatch, id);
      CancelledBalances(b.sequence + 1, r.orderId, o.remaining, b.symbol, id);
      NetOfOne(CancelledBy(b.sequence + 1, r.orderId, o.remaining, b.symbol), id);
      RemovalBalances(b, p, id);
  }

  lemma ReplacedEntry(b: Book, r: ReplaceRequest, id: nat)
    ensures Net([ReportOf(b, 1, r.orderId, Replaced, r.newQuantity, NoReason)], id) == 0
  {
    NetOfOne(ReportOf(b, 1, r.orderId, Replaced, r.newQuantity, NoReason), id);
  }

  lemma RequeueBalances(b: Book, p: Place, r: ReplaceRequest, id: nat)
    requires p.at < |b.Queue(p.side)|
    ensures var again := Requeue(b, p, r);
            var o := b.Queue(p.side)[p.at];
            Balances(Held(b, id), [ReportOf(b, 1, r.orderId, Replaced, r.newQuantity, NoReason)] + again.emitted, id,
                     if o.id == id then o.remaining else 0, Held(again.book, id))
  {
    hide Submit, Removed, HeldIn, Net;
    RemovalBalances(b, p, id);
    SubmitBalances(Removed(b, p).(sequence := b.sequence + 1), Resubmission(b, p.side, r), id);
    ReplacedEntry(b, r, id);
    NetJoins([ReportOf(b, 1, r.orderId, Replaced, r.newQuantity, NoReason)], Requeue(b, p, r).emitted, id);
  }

  lemma ReplaceBalances(b: Book, r: ReplaceRequest, id: nat)
    requires WellFormed(b)
    ensures var o := Replace(b, r);
            Balances(Held(b, id), o.emitted, id, GivenUp(b, ReplaceOrder(r), id), Held(o.book, id))
  {
    hide WellFormed, Requeue, Reduced, HeldIn, Net;
    ReplaceNeverLosesTheOrder(b, r);
    var found := Find(b, r.orderId);
    match found
    case None => RefusalBalances(b, r.orderId, 0, UnknownOrder, id);
    case Some(p) =>
      var o := b.Queue(p.side)[p.at];
      RefusalBalances(b, r.orderId, o.remaining, ClientMismatch, id);
      RefusalBalances(b, r.orderId, o.remaining, InvalidReplacement, id);
      ReplacedEntry(b, r, id);
      if InPlace(o, r) {
        ReductionBalances(b, p, r.newQuantity, id);
      }
      RequeueBalances(b, p, r, id);
  }

  function GivenUpInRun(b: Book, cs: seq<Command>, id: nat): nat
    decreases |cs|
  {
    if cs == [] then 0 else GivenUp(b, cs[0], id) + GivenUpInRun(Step(b, cs[0]).book, cs[1..], id)
  }

  lemma StepBalances(b: Book, c: Command, id: nat)
    requires WellFormed(b)
    ensures Balances(Held(b, id), Step(b, c).emitted, id, GivenUp(b, c, id), Held(Step(b, c).book, id))
  {
    hide WellFormed, Submit, Cancel, Replace;
    match c
    case SubmitOrder(r) => SubmitBalances(b, r, id);
    case CancelOrder(r) => CancelBalances(b, r, id);
    case ReplaceOrder(r) => ReplaceBalances(b, r, id);
  }

  lemma {:induction false} RunBalances(b: Book, cs: seq<Command>, id: nat)
    requires WellFormed(b)
    ensures Balances(Held(b, id), Run(b, cs).emitted, id, GivenUpInRun(b, cs, id), Held(Run(b, cs).book, id))
    decreases |cs|
  {
    hide WellFormed, Step, GivenUp, Held;
    if cs != [] {
      var first := Step(b, cs[0]);
      StepKeepsBook(b, cs[0]);
      StepBalances(b, cs[0], id);
      RunBalances(first.book, cs[1..], id);
      NetJoins(first.emitted, Run(first.book, cs[1..]).emitted, id);
    }
  }

  /** Nothing is created or lost: from an empty book, accepted = traded + resting + cancelled or expired
      + given up in replacements, for every order id and every run. */
  lemma QuantityIsConserved(symbol: nat, capacity: nat, policy: StpPolicy, cs: seq<Command>, id: nat)
    ensures var start := Empty(symbol, capacity, policy);
            var end := Run(start, cs);
            AcceptedTotal(end.emitted, id) ==
              TradedTotal(end.emitted, id) + Held(end.book, id) + EndedTotal(end.emitted, id)
              + GivenUpInRun(start, cs, id)
  {
    hide Run, GivenUpInRun, Net, AcceptedTotal, TradedTotal, EndedTotal;
    var start := Empty(symbol, capacity, policy);
    RunBalances(start, cs, id);
    NetSplits(Run(start, cs).emitted, id);
  }
}
