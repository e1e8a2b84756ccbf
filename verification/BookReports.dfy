/** What reports are worth: a client that follows nothing but the reports about its order knows, after any run, how
    much of it rests in the book. */
module BookReports {
  import opened Trading
  import opened BookSpec
  import opened BookInvariants
  import opened BookLedger

  /** What one emission tells about how much of an order is open. */
  function ToldBy(before: nat, e: Emission, id: nat): nat {
    if e.Trade? || e.orderId != id then before
    else
      match e.status
      case Accepted => e.remaining
      case Replaced => e.remaining
      case PartiallyFilled => e.remaining
      case Filled => e.remaining
      case Cancelled => 0
      case Expired => 0
      case Rejected => before
  }

  function Told(before: nat, es: seq<Emission>, id: nat): nat
    decreases |es|
  {
    if es == [] then before else Told(ToldBy(before, es[0], id), es[1..], id)
  }

  lemma {:induction false} ToldJoins(before: nat, a: seq<Emission>, b: seq<Emission>, id: nat)
    ensures Told(before, a + b, id) == Told(Told(before, a, id), b, id)
    decreases |a|
  {
    if a == [] {
      assert a + b == b;
    } else {
      assert (a + b)[1..] == a[1..] + b;
      ToldJoins(ToldBy(before, a[0], id), a[1..], b, id);
    }
  }

  lemma ToldByOne(before: nat, e: Emission, id: nat)
    ensures Told(before, [e], id) == ToldBy(before, e, id)
  {
    assert [e][1..] == [];
  }

  lemma ToldByTwo(before: nat, e: Emission, f: Emission, id: nat)
    ensures Told(before, [e, f], id) == ToldBy(ToldBy(before, e, id), f, id)
  {
    assert [e, f] == [e] + [f];
    ToldJoins(before, [e], [f], id);
    ToldByOne(before, e, id);
    ToldByOne(ToldBy(before, e, id), f, id);
  }

  // ---------- statuses ----------

  /** A report says filled if and only if it says that nothing is left, and partly filled only if something is. */
  predicate Fitting(e: Emission) {
    e.Report? ==>
      && (e.status.Filled? ==> e.remaining == 0)
      && (e.status.PartiallyFilled? ==> e.remaining > 0)
  }

  predicate AllFitting(es: seq<Emission>) { forall e :: e in es ==> Fitting(e) }

  lemma {:induction false} WalkFits(q: seq<Resting>, r: OrderRequest, size: nat, policy: StpPolicy, sequence: nat)
    ensures AllFitting(Match(q, r, size, policy, sequence).emitted)
    decreases |q|
  {
    if !Idle(q, r, size) {
      var meeting := Meet(q[0], r, size, policy, sequence);
      assert AllFitting(meeting.emitted);
      if meeting.Gone? {
        WalkFits(q[1..], r, meeting.remaining, policy, sequence + |meeting.emitted|);
      }
    }
  }

  lemma SubmitFits(b: Book, r: OrderRequest)
    ensures AllFitting(Submit(b, r).emitted)
  {
    hide Match, TotalCrossing, Insert;
    if Refusal(b, r) == NoReason {
      WalkFits(b.Queue(r.side.Opposite()), r, r.quantity, b.policy, b.sequence + 1);
    }
  }

  lemma StepFits(b: Book, c: Command)
    ensures AllFitting(Step(b, c).emitted)
  {
    hide Submit, Removed, Reduced;
    match c
    case SubmitOrder(r) => SubmitFits(b, r);
    case CancelOrder(r) =>
    case ReplaceOrder(r) =>
      if Find(b, r.orderId).Some? {
        var p := Find(b, r.orderId).value;
        SubmitFits(Removed(b, p).(sequence := b.sequence + 1), Resubmission(b, p.side, r));
      }
  }

  // ---------- the walk ----------

  predicate NotAmong(q: seq<Resting>, id: nat) { forall k :: 0 <= k < |q| ==> q[k].id != id }

  lemma {:induction false} NothingOfStrangers(q: seq<Resting>, id: nat)
    requires NotAmong(q, id)
    ensures HeldIn(q, id) == 0
    decreases |q|
  {
    if q != [] {
      NothingOfStrangers(q[1..], id);
    }
  }

  lemma MeetingTells(
    maker: Resting, r: OrderRequest, size: nat, policy: StpPolicy, sequence: nat, id: nat, before: nat)
    requires maker.id != r.orderId
    ensures var meeting := Meet(maker, r, size, policy, sequence);
            && (id != maker.id && id != r.orderId ==> Told(before, meeting.emitted, id) == before)
            && (id == maker.id && meeting.Gone? ==> Told(before, meeting.emitted, id) == 0)
            && (id == r.orderId && meeting.Gone? ==> Told(before, meeting.emitted, id) == before)
            && (id == r.orderId && meeting.Last? ==>
                  Told(before, meeting.emitted, id) == if meeting.takerCancelled then 0 else before)
            && (id == maker.id && meeting.Last? && before == maker.remaining ==>
                  Told(before, meeting.emitted, id) == HeldIn(meeting.left, id))
  {
    hide Told;
    var meeting := Meet(maker, r, size, policy, sequence);
    HeldInOne(maker, id);
    HeldInOne(maker.(remaining := maker.remaining - Min(maker.remaining, size)), id);
    NothingHeld(id);
    if |meeting.emitted| == 1 {
      ToldByOne(before, meeting.emitted[0], id);
      assert meeting.emitted == [meeting.emitted[0]];
    } else {
      ToldByTwo(before, meeting.emitted[0], meeting.emitted[1], id);
      assert meeting.emitted == [meeting.emitted[0], meeting.emitted[1]];
    }
  }

  /** What the walk tells about an order on the queue, or about one that is not there and has `elsewhere`. */
  lemma {:induction false} WalkTellsMakers(
    q: seq<Resting>, r: OrderRequest, size: nat, policy: StpPolicy, sequence: nat, id: nat, elsewhere: nat)
    requires DistinctIds(q) && NotAmong(q, r.orderId) && id != r.orderId && (elsewhere == 0 || NotAmong(q, id))
    ensures var m := Match(q, r, size, policy, sequence);
            Told(HeldIn(q, id) + elsewhere, m.emitted, id) == HeldIn(m.queue, id) + elsewhere
    decreases |q|
  {
    hide Meet, ToldBy;
    if !Idle(q, r, size) {
      var meeting := Meet(q[0], r, size, policy, sequence);
      var open := HeldIn(q, id) + elsewhere;
      MeetingTells(q[0], r, size, policy, sequence, id, open);
      if q[0].id == id {
        NothingOfStrangers(q[1..], id);
      }
      if meeting.Gone? {
        var rest := Match(q[1..], r, meeting.remaining, policy, sequence + |meeting.emitted|);
        WalkTellsMakers(q[1..], r, meeting.remaining, policy, sequence + |meeting.emitted|, id, elsewhere);
        ToldJoins(open, meeting.emitted, rest.emitted, id);
      } else {
        HeldInJoins(meeting.left, q[1..], id);
        LeftIsTheMaker(q[0], r, size, policy, sequence, id);
      }
    }
  }

  lemma LeftIsTheMaker(maker: Resting, r: OrderRequest, size: nat, policy: StpPolicy, sequence: nat, id: nat)
    ensures var meeting := Meet(maker, r, size, policy, sequence);
            meeting.Last? && maker.id != id ==> HeldIn(meeting.left, id) == 0
  {
  }

  lemma {:induction false} WalkTellsTaker(
    q: seq<Resting>, r: OrderRequest, size: nat, policy: StpPolicy, sequence: nat, open: nat)
    requires NotAmong(q, r.orderId)
    ensures var m := Match(q, r, size, policy, sequence);
            Told(open, m.emitted, r.orderId) == if m.takerCancelled then 0 else open
    decreases |q|
  {
    hide Meet, ToldBy;
    if !Idle(q, r, size) {
      var meeting := Meet(q[0], r, size, policy, sequence);
      MeetingTells(q[0], r, size, policy, sequence, r.orderId, open);
      if meeting.Gone? {
        var rest := Match(q[1..], r, meeting.remaining, policy, sequence + |meeting.emitted|);
        WalkTellsTaker(q[1..], r, meeting.remaining, policy, sequence + |meeting.emitted|, open);
        ToldJoins(open, meeting.emitted, rest.emitted, r.orderId);
      }
    }
  }

  // ---------- commands ----------

  lemma ConclusionTells(b: Book, r: OrderRequest, remaining: nat, id: nat)
    requires id == r.orderId ==> Held(b, id) == 0
    requires remaining <= r.quantity
    ensures var o := Conclude(b, r, remaining);
            Told(if id == r.orderId then r.quantity else Held(b, id), o.emitted, id) == Held(o.book, id)
  {
    hide RestOrder, HeldIn, Told;
    var es := TakerReport(b, r, remaining);
    var b1 := b.(sequence := b.sequence + |es|);
    var open := if id == r.orderId then r.quantity else Held(b, id);
    RestBalances(b1, r.side, Leftover(r, remaining), id);
    NothingTold(open, id);
    if es != [] {
      ToldByOne(open, es[0], id);
      assert es == [es[0]];
    }
    if remaining > 0 && !MayRest(r) {
      var expired := ReportOf(b1, 1, r.orderId, Expired, remaining, NoReason);
      ToldJoins(open, es, [expired], id);
      ToldByOne(Told(open, es, id), expired, id);
    }
  }

  lemma NothingTold(before: nat, id: nat)
    ensures Told(before, [], id) == before
  {
  }

  lemma OnOneSide(b: Book, s: Side, id: nat)
    requires WellFormed(b)
    ensures DistinctIds(b.Queue(s))
    ensures HeldIn(b.Queue(s.Opposite()), id) == 0 || NotAmong(b.Queue(s), id)
    ensures !b.Holds(id) ==> NotAmong(b.Queue(s), id) && Held(b, id) == 0
  {
    if NotAmong(b.Queue(s.Opposite()), id) {
      NothingOfStrangers(b.Queue(s.Opposite()), id);
    }
    if NotAmong(b.Queue(s), id) {
      NothingOfStrangers(b.Queue(s), id);
    }
  }

  lemma RemainderIsPart(q: seq<Resting>, r: OrderRequest, size: nat, policy: StpPolicy, sequence: nat)
    ensures Match(q, r, size, policy, sequence).remaining <= size
    decreases |q|
  {
    if !Idle(q, r, size) && Meet(q[0], r, size, policy, sequence).Gone? {
      var meeting := Meet(q[0], r, size, policy, sequence);
      RemainderIsPart(q[1..], r, meeting.remaining, policy, sequence + |meeting.emitted|);
    }
  }

  lemma WalkedBookHolds(b: Book, r: OrderRequest, id: nat)
    ensures Held(AfterWalk(b, r), id) == HeldIn(WalkOf(b, r).queue, id) + HeldIn(b.Queue(r.side), id)
  {
    hide Match;
  }

  lemma SubmitTells(b: Book, r: OrderRequest, id: nat)
    requires WellFormed(b)
    ensures Told(Held(b, id), Submit(b, r).emitted, id) == Held(Submit(b, r).book, id)
  {
    hide WellFormed, Match, Conclude, HeldIn, Told, TotalCrossing, Held;
    if Refusal(b, r) != NoReason {
      ToldByOne(Held(b, id), Submit(b, r).emitted[0], id);
      HeldWhateverNumber(b, b.sequence + 1, id);
    } else {
      ExecutionTells(b, r, id);
    }
  }

  lemma HeldWhateverNumber(b: Book, n: nat, id: nat)
    ensures Held(b.(sequence := n), id) == Held(b, id)
  {
  }

  lemma ExecutionTells(b: Book, r: OrderRequest, id: nat)
    requires WellFormed(b) && Refusal(b, r) == NoReason
    ensures Told(Held(b, id), Execute(b, r).emitted, id) == Held(Execute(b, r).book, id)
  {
    hide WellFormed, Match, Conclude, HeldIn, Told, TotalCrossing;
    var q, m := b.Queue(r.side.Opposite()), WalkOf(b, r);
    var accepted := ReportOf(b, 1, r.orderId, Accepted, r.quantity, NoReason);
    OnOneSide(b, r.side.Opposite(), id);
    OnOneSide(b, r.side.Opposite(), r.orderId);
    RemainderIsPart(q, r, r.quantity, b.policy, b.sequence + 1);
    WalkedBookHolds(b, r, id);
    WalkKeepsBook(b, r);
    OnOneSide(AfterWalk(b, r), r.side, r.orderId);
    ToldByOne(Held(b, id), accepted, id);
    ToldJoins(Held(b, id), [accepted], m.emitted, id);
    if id == r.orderId {
      WalkTellsTaker(q, r, r.quantity, b.policy, b.sequence + 1, r.quantity);
    } else {
      WalkTellsMakers(q, r, r.quantity, b.policy, b.sequence + 1, id, HeldIn(b.Queue(r.side), id));
    }
    if !m.takerCancelled {
      ConclusionTells(AfterWalk(b, r), r, m.remaining, id);
      ToldJoins(Held(b, id), [accepted] + m.emitted, Conclude(AfterWalk(b, r), r, m.remaining).emitted, id);
    }
  }

  lemma CancelTells(b: Book, r: CancelRequest, id: nat)
    requires WellFormed(b)
    ensures Told(Held(b, id), Cancel(b, r).emitted, id) == Held(Cancel(b, r).book, id)
  {
    hide WellFormed, HeldIn, Told, Without, Find;
    ToldByOne(Held(b, id), Cancel(b, r).emitted[0], id);
    if Cancel(b, r).ok {
      var p := Find(b, r.orderId).value;
      RemovalBalances(b, p, id);
      GoneWhenRemoved(b, p);
    }
  }

  lemma GoneWhenRemoved(b: Book, p: Place)
    requires WellFormed(b) && p.at < |b.Queue(p.side)|
    ensures Held(Removed(b, p), b.Queue(p.side)[p.at].id) == 0
  {
    hide HeldIn, Without, WellFormed;
    RemovalKeepsBook(b, p);
    OnOneSide(Removed(b, p), p.side, b.Queue(p.side)[p.at].id);
  }

  lemma ReplaceTells(b: Book, r: ReplaceRequest, id: nat)
    requires WellFormed(b)
    ensures Told(Held(b, id), Replace(b, r).emitted, id) == Held(Replace(b, r).book, id)
  {
    hide WellFormed, HeldIn, Told, Without, Find, Submit;
    var e := Replace(b, r).emitted[0];
    ToldByOne(Held(b, id), e, id);
    if Find(b, r.orderId).Some? {
      var p := Find(b, r.orderId).value;
      var o := b.Queue(p.side)[p.at];
      RemovalBalances(b, p, id);
      GoneWhenRemoved(b, p);
      if o.client == r.clientId && r.newPrice > 0 && r.newQuantity > 0 {
        if InPlace(o, r) {
          ReductionBalances(b, p, r.newQuantity, id);
        } else {
          RequeueTells(b, p, r, id, e);
        }
      }
    }
  }

  lemma RequeueTells(b: Book, p: Place, r: ReplaceRequest, id: nat, e: Emission)
    requires WellFormed(b) && p.at < |b.Queue(p.side)| && b.Queue(p.side)[p.at].id == r.orderId
    requires e == ReportOf(b, 1, r.orderId, Replaced, r.newQuantity, NoReason)
    requires r.newPrice > 0 && r.newQuantity > 0
    ensures Told(Held(b, id), [e] + Requeue(b, p, r).emitted, id) == Held(Requeue(b, p, r).book, id)
  {
    hide WellFormed, HeldIn, Told, Without, Match, Conclude, TotalCrossing;
    var left := Removed(b, p).(sequence := b.sequence + 1);
    var again := Resubmission(b, p.side, r);
    RemovalKeepsBook(b, p);
    SequenceIsFree(Removed(b, p), b.sequence + 1);
    RemovalBalances(b, p, id);
    GoneWhenRemoved(b, p);
    ResubmissionIsAdmitted(b, p, r);
    ToldByOne(Held(b, id), e, id);
    ToldJoins(Held(b, id), [e], Requeue(b, p, r).emitted, id);
    SubmitTells(left, again, id);
    if id == r.orderId {
      AcceptanceSpeaksAnew(left, again, r.newQuantity);
    }
  }

  /** An accepted order's first report replaces whatever was told before. */
  lemma AcceptanceSpeaksAnew(b: Book, r: OrderRequest, before: nat)
    requires Submit(b, r).ok
    ensures Told(before, Submit(b, r).emitted, r.orderId) == Told(0, Submit(b, r).emitted, r.orderId)
  {
    hide Match, Conclude, TotalCrossing;
  }

  lemma StepTells(b: Book, c: Command, id: nat)
    requires WellFormed(b)
    ensures Told(Held(b, id), Step(b, c).emitted, id) == Held(Step(b, c).book, id)
  {
    hide WellFormed, Submit, Cancel, Replace;
    match c
    case SubmitOrder(r) => SubmitTells(b, r, id);
    case CancelOrder(r) => CancelTells(b, r, id);
    case ReplaceOrder(r) => ReplaceTells(b, r, id);
  }

  /** Over any run the reports about an order, read one after the other, tell exactly how much of it rests, and each
      says filled only when nothing and partly filled only when something is left. */
  lemma {:induction false} ReportsTellTheBook(b: Book, cs: seq<Command>, id: nat)
    requires WellFormed(b)
    ensures Told(Held(b, id), Run(b, cs).emitted, id) == Held(Run(b, cs).book, id)
    ensures AllFitting(Run(b, cs).emitted)
    decreases |cs|
  {
    hide WellFormed, Step, Held, Fitting;
    if cs == [] {
      NothingTold(Held(b, id), id);
    } else {
      var first := Step(b, cs[0]);
      StepKeepsBook(b, cs[0]);
      StepTells(b, cs[0], id);
      StepFits(b, cs[0]);
      ReportsTellTheBook(first.book, cs[1..], id);
      ToldJoins(Held(b, id), first.emitted, Run(first.book, cs[1..]).emitted, id);
    }
  }
}
