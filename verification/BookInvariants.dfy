/** What every submit, cancel and replace keeps: a well-formed, uncrossed book, and consecutive
    sequence numbers on whatever is emitted. */
module BookInvariants {
  import opened Trading
  import opened BookSpec

  /** `after` is what is left of `q` once a prefix has gone and at most its new head has been reduced. */
  ghost predicate ConsumesPrefix(q: seq<Resting>, after: seq<Resting>) {
    && |after| <= |q|
    && var d := |q| - |after|;
       && (forall k :: 0 < k < |after| ==> after[k] == q[d + k])
       && (after != [] ==>
             && after[0] == q[d].(remaining := after[0].remaining)
             && after[0].remaining <= q[d].remaining
             && (q[d].remaining > 0 ==> after[0].remaining > 0))
  }

  lemma ConsumesMore(q: seq<Resting>, after: seq<Resting>)
    requires q != [] && ConsumesPrefix(q[1..], after)
    ensures ConsumesPrefix(q, after)
  {
  }

  lemma {:induction false} MatchConsumesPrefix(
    q: seq<Resting>, r: OrderRequest, remaining: nat, policy: StpPolicy, sequence: nat)
    ensures var m := Match(q, r, remaining, policy, sequence);
            && ConsumesPrefix(q, m.queue)
            && m.remaining <= remaining
            && (!m.takerCancelled ==> Idle(m.queue, r, m.remaining))
    decreases |q|
  {
    if !Idle(q, r, remaining) {
      var meeting := Meet(q[0], r, remaining, policy, sequence);
      match meeting
      case Gone(left, es) =>
        MatchConsumesPrefix(q[1..], r, left, policy, sequence + |es|);
        ConsumesMore(q, Match(q[1..], r, left, policy, sequence + |es|).queue);
      case Last(_, _, _, _) =>
    }
  }

  /** The i-th emission carries the i-th sequence number after `sequence`. */
  ghost predicate Consecutive(es: seq<Emission>, sequence: nat) {
    forall i :: 0 <= i < |es| ==> es[i].sequence == sequence + 1 + i
  }

  lemma ConsecutiveJoin(a: seq<Emission>, b: seq<Emission>, sequence: nat)
    requires Consecutive(a, sequence) && Consecutive(b, sequence + |a|)
    ensures Consecutive(a + b, sequence)
  {
  }

  lemma {:induction false} MatchNumbersConsecutively(
    q: seq<Resting>, r: OrderRequest, remaining: nat, policy: StpPolicy, sequence: nat)
    ensures Consecutive(Match(q, r, remaining, policy, sequence).emitted, sequence)
    decreases |q|
  {
    if !Idle(q, r, remaining) {
      var meeting := Meet(q[0], r, remaining, policy, sequence);
      assert Consecutive(meeting.emitted, sequence);
      if meeting.Gone? {
        var es := meeting.emitted;
        MatchNumbersConsecutively(q[1..], r, meeting.remaining, policy, sequence + |es|);
        ConsecutiveJoin(es, Match(q[1..], r, meeting.remaining, policy, sequence + |es|).emitted, sequence);
      }
    }
  }

  ghost predicate NumbersItsEmissions(b: Book, o: Outcome) {
    Consecutive(o.emitted, b.sequence) && o.book.sequence == b.sequence + |o.emitted|
  }

  lemma ConcludeNumbersConsecutively(b: Book, r: OrderRequest, remaining: nat)
    ensures NumbersItsEmissions(b, Conclude(b, r, remaining))
  {
  }

  lemma ExecutionIsOk(b: Book, r: OrderRequest)
    ensures Execute(b, r).ok
  {
    hide Match, Conclude;
  }

  lemma SubmitNumbersConsecutively(b: Book, r: OrderRequest)
    ensures NumbersItsEmissions(b, Submit(b, r))
  {
    hide Match, Conclude, Refusal;
    var m := WalkOf(b, r);
    MatchNumbersConsecutively(b.Queue(r.side.Opposite()), r, r.quantity, b.policy, b.sequence + 1);
    ConcludeNumbersConsecutively(AfterWalk(b, r), r, m.remaining);
    var accepted := [ReportOf(b, 1, r.orderId, Accepted, r.quantity, NoReason)];
    ConsecutiveJoin(accepted, m.emitted, b.sequence);
    ConsecutiveJoin(accepted + m.emitted, Conclude(AfterWalk(b, r), r, m.remaining).emitted, b.sequence);
  }

  lemma ReplaceNumbersConsecutively(b: Book, r: ReplaceRequest)
    ensures NumbersItsEmissions(b, Replace(b, r))
  {
    hide Submit, Removed;
    var found := Find(b, r.orderId);
    if found.Some? {
      var p := found.value;
      SubmitNumbersConsecutively(Removed(b, p).(sequence := b.sequence + 1), Resubmission(b, p.side, r));
      ConsecutiveJoin([ReportOf(b, 1, r.orderId, Replaced, r.newQuantity, NoReason)], Requeue(b, p, r).emitted,
          b.sequence);
    }
  }

  lemma StepNumbersConsecutively(b: Book, c: Command)
    ensures NumbersItsEmissions(b, Step(b, c))
  {
    hide Submit, Replace;
    match c
    case SubmitOrder(r) => SubmitNumbersConsecutively(b, r);
    case CancelOrder(r) =>
    case ReplaceOrder(r) => ReplaceNumbersConsecutively(b, r);
  }

  /** Over a whole run the emissions of one book are numbered without a gap or a repeat. */
  lemma {:induction false} RunNumbersConsecutively(b: Book, cs: seq<Command>)
    ensures NumbersItsEmissions(b, Run(b, cs))
    decreases |cs|
  {
    hide Step;
    if cs != [] {
      var first := Step(b, cs[0]);
      StepNumbersConsecutively(b, cs[0]);
      RunNumbersConsecutively(first.book, cs[1..]);
      ConsecutiveJoin(first.emitted, Run(first.book, cs[1..]).emitted, b.sequence);
    }
  }

  // ---------- well-formedness ----------

  lemma FullWhenNotHeld(b: Book, id: nat)
    requires !b.Holds(id)
    ensures forall s: Side, k :: 0 <= k < |b.Queue(s)| ==> b.Queue(s)[k].id != id
  {
  }

  lemma InsertKeepsQueue(s: Side, q: seq<Resting>, o: Resting)
    requires Sorted(s, q) && Positive(q) && DistinctIds(q)
    requires o.remaining > 0 && o.price > 0
    requires forall k :: 0 <= k < |q| ==> q[k].id != o.id
    ensures var q' := Insert(s, q, o);
            && Sorted(s, q') && Positive(q') && DistinctIds(q') && |q'| == |q| + 1
            && forall k :: 0 <= k < |q'| ==> q'[k] == o || q'[k] in q
  {
    var n := InsertionPoint(s, q, o.price);
    var q' := Insert(s, q, o);
    forall i, j | 0 <= i < j < |q'|
      ensures AtLeastAsGood(s, q'[i].price, q'[j].price) && q'[i].id != q'[j].id
    {
      if n <= i && n < |q| {
        assert j > n ==> q'[j] == q[j - 1];
      }
    }
    forall k | 0 <= k < |q'| ensures q'[k] == o || q'[k] in q {
      assert k < n ==> q'[k] == q[k];
      assert k > n ==> q'[k] == q[k - 1];
    }
  }

  lemma ConsumedKeepsQueue(s: Side, q: seq<Resting>, after: seq<Resting>)
    requires Sorted(s, q) && Positive(q) && DistinctIds(q) && ConsumesPrefix(q, after)
    ensures Sorted(s, after) && Positive(after) && DistinctIds(after)
    ensures var d := |q| - |after|;
            forall k :: 0 <= k < |after| ==>
              after[k].id == q[d + k].id && after[k].price == q[d + k].price && after[k].client == q[d + k].client
  {
    var d := |q| - |after|;
    forall k | 0 <= k < |after|
      ensures after[k] == q[d + k].(remaining := after[k].remaining) && after[k].remaining > 0
    {
    }
  }

  lemma WithoutKeepsQueue(s: Side, q: seq<Resting>, k: nat)
    requires Sorted(s, q) && Positive(q) && DistinctIds(q) && k < |q|
    ensures var q' := Without(q, k);
            && Sorted(s, q') && Positive(q') && DistinctIds(q')
            && |q'| == |q| - 1
            && (forall i :: 0 <= i < |q'| ==> q'[i] in q && q'[i].id != q[k].id)
  {
    var q' := Without(q, k);
    assert forall i :: 0 <= i < |q'| ==> q'[i] == q[if i < k then i else i + 1];
  }

  lemma RemovalKeepsBook(b: Book, p: Place)
    requires WellFormed(b) && p.at < |b.Queue(p.side)|
    ensures WellFormed(Removed(b, p)) && !Removed(b, p).Full()
    ensures !Removed(b, p).Holds(b.Queue(p.side)[p.at].id)
  {
    hide Without;
    var q, other := b.Queue(p.side), b.Queue(p.side.Opposite());
    WithoutKeepsQueue(p.side, q, p.at);
    var q' := Without(q, p.at);
    forall i, j | 0 <= i < |q'| && 0 <= j < |other|
      ensures q'[i].id != other[j].id && !AtLeastAsGood(p.side, q'[i].price, other[j].price)
    {
      var m :| 0 <= m < |q| && q[m] == q'[i];
    }
  }

  lemma MatchedBookKeeps(b: Book, s: Side, after: seq<Resting>)
    requires WellFormed(b) && ConsumesPrefix(b.Queue(s), after)
    ensures WellFormed(b.WithQueue(s, after))
    ensures forall id :: !b.Holds(id) ==> !b.WithQueue(s, after).Holds(id)
  {
    hide AtLeastAsGood, Sorted, Positive, DistinctIds;
    var q, other := b.Queue(s), b.Queue(s.Opposite());
    ConsumedKeepsQueue(s, q, after);
    var d := |q| - |after|;
    forall i, j | 0 <= i < |after| && 0 <= j < |other|
      ensures after[i].id != other[j].id && after[i].price == q[d + i].price
    {
      assert q[d + i].id != other[j].id;
    }
  }

  lemma RestKeepsBook(b: Book, s: Side, o: Resting)
    requires WellFormed(b) && !b.Holds(o.id) && o.remaining > 0 && o.price > 0 && !b.Full()
    requires forall k :: 0 <= k < |b.Queue(s.Opposite())| ==>
               !AtLeastAsGood(s, o.price, b.Queue(s.Opposite())[k].price)
    ensures WellFormed(RestOrder(b, s, o))
  {
    hide Insert;
    InsertKeepsQueue(s, b.Queue(s), o);
    var q, q', other := b.Queue(s), RestOrder(b, s, o).Queue(s), b.Queue(s.Opposite());
    forall i, j | 0 <= i < |q'| && 0 <= j < |other|
      ensures q'[i].id != other[j].id && !AtLeastAsGood(s, q'[i].price, other[j].price)
    {
      if q'[i] != o {
        var m :| 0 <= m < |q| && q[m] == q'[i];
      }
    }
  }

  /** Once the walk is over and something is left to rest, nothing opposing crosses it. */
  lemma LeftoverDoesNotCross(q: seq<Resting>, r: OrderRequest, remaining: nat)
    requires Sorted(r.side.Opposite(), q) && !r.kind.Market? && remaining > 0 && Idle(q, r, remaining)
    ensures forall k :: 0 <= k < |q| ==> !AtLeastAsGood(r.side, r.price, q[k].price)
  {
  }

  lemma ConcludeKeepsBook(b: Book, r: OrderRequest, remaining: nat)
    requires WellFormed(b) && !b.Holds(r.orderId) && !b.Full()
    requires !r.kind.Market? ==> r.price > 0
    requires Idle(b.Queue(r.side.Opposite()), r, remaining)
    ensures WellFormed(Conclude(b, r, remaining).book)
  {
    hide RestOrder;
    if remaining > 0 && MayRest(r) {
      LeftoverDoesNotCross(b.Queue(r.side.Opposite()), r, remaining);
      RestKeepsBook(b.(sequence := b.sequence + |TakerReport(b, r, remaining)|), r.side, Leftover(r, remaining));
    }
  }

  lemma SubmitKeepsBook(b: Book, r: OrderRequest)
    requires WellFormed(b)
    ensures WellFormed(Submit(b, r).book)
  {
    hide Match, Conclude, WellFormed, TotalCrossing, ConsumesPrefix;
    if Refusal(b, r) == NoReason {
      var s := r.side.Opposite();
      var m := WalkOf(b, r);
      MatchConsumesPrefix(b.Queue(s), r, r.quantity, b.policy, b.sequence + 1);
      WalkKeepsBook(b, r);
      if !m.takerCancelled {
        ConcludeKeepsBook(AfterWalk(b, r), r, m.remaining);
      }
    } else {
      SequenceIsFree(b, b.sequence + 1);
    }
  }

  lemma SequenceIsFree(b: Book, sequence: nat)
    ensures WellFormed(b) <==> WellFormed(b.(sequence := sequence))
  {
  }

  lemma WalkKeepsBook(b: Book, r: OrderRequest)
    requires WellFormed(b)
    ensures var b' := AfterWalk(b, r);
            && WellFormed(b')
            && (!b.Full() ==> !b'.Full())
            && (forall id :: !b.Holds(id) ==> !b'.Holds(id))
  {
    hide Match, WellFormed;
    var s := r.side.Opposite();
    MatchConsumesPrefix(b.Queue(s), r, r.quantity, b.policy, b.sequence + 1);
    MatchedBookKeeps(b, s, WalkOf(b, r).queue);
    SequenceIsFree(b.WithQueue(s, WalkOf(b, r).queue), AfterWalk(b, r).sequence);
  }

  lemma ReductionKeepsBook(b: Book, p: Place, left: nat)
    requires WellFormed(b) && p.at < |b.Queue(p.side)| && 0 < left
    ensures WellFormed(Reduced(b, p, left))
  {
  }

  lemma ReplaceKeepsBook(b: Book, r: ReplaceRequest)
    requires WellFormed(b)
    ensures WellFormed(Replace(b, r).book)
  {
    hide WellFormed, Submit, Removed, Reduced;
    SequenceIsFree(b, b.sequence + 1);
    var found := Find(b, r.orderId);
    if found.Some? && r.newPrice > 0 && r.newQuantity > 0 {
      var p := found.value;
      ReductionKeepsBook(b, p, r.newQuantity);
      SequenceIsFree(Reduced(b, p, r.newQuantity), b.sequence + 1);
      RemovalKeepsBook(b, p);
      SequenceIsFree(Removed(b, p), b.sequence + 1);
      SubmitKeepsBook(Removed(b, p).(sequence := b.sequence + 1), Resubmission(b, p.side, r));
    }
  }

  lemma StepKeepsBook(b: Book, c: Command)
    requires WellFormed(b)
    ensures WellFormed(Step(b, c).book)
  {
    hide WellFormed, Submit, Replace, Removed;
    match c
    case SubmitOrder(r) => SubmitKeepsBook(b, r);
    case CancelOrder(r) =>
      SequenceIsFree(b, b.sequence + 1);
      var found := Find(b, r.orderId);
      if found.Some? {
        RemovalKeepsBook(b, found.value);
        SequenceIsFree(Removed(b, found.value), b.sequence + 1);
      }
    case ReplaceOrder(r) => ReplaceKeepsBook(b, r);
  }

  /** No command leads out of the well-formed books, so no run does. */
  lemma {:induction false} RunKeepsBook(b: Book, cs: seq<Command>)
    requires WellFormed(b)
    ensures WellFormed(Run(b, cs).book)
    decreases |cs|
  {
    hide WellFormed, Step;
    if cs != [] {
      StepKeepsBook(b, cs[0]);
      RunKeepsBook(Step(b, cs[0]).book, cs[1..]);
    }
  }

  /** No reachable book is crossed, whatever the commands. */
  lemma ReachableBooksAreUncrossed(symbol: nat, capacity: nat, policy: StpPolicy, cs: seq<Command>)
    ensures var b := Run(Empty(symbol, capacity, policy), cs).book;
            WellFormed(b) && (b.bids != [] && b.asks != [] ==> b.bids[0].price < b.asks[0].price)
  {
    RunKeepsBook(Empty(symbol, capacity, policy), cs);
  }

  lemma ResubmissionIsAdmitted(b: Book, p: Place, r: ReplaceRequest)
    requires WellFormed(b) && p.at < |b.Queue(p.side)| && b.Queue(p.side)[p.at].id == r.orderId
    requires r.newPrice > 0 && r.newQuantity > 0
    ensures Requeue(b, p, r).ok
  {
    hide WellFormed, Match, Conclude, Without;
    RemovalKeepsBook(b, p);
  }

  /** Once the checks of replace have passed, the resubmission inside it cannot be refused. */
  lemma ReplaceNeverLosesTheOrder(b: Book, r: ReplaceRequest)
    requires WellFormed(b)
    ensures Replace(b, r).ok <==>
            && Find(b, r.orderId).Some?
            && var p := Find(b, r.orderId).value;
               b.Queue(p.side)[p.at].client == r.clientId && r.newPrice > 0 && r.newQuantity > 0
  {
    hide WellFormed, Requeue, Reduced;
    var found := Find(b, r.orderId);
    if found.Some? && r.newPrice > 0 && r.newQuantity > 0 {
      ResubmissionIsAdmitted(b, found.value, r);
    }
  }
}
