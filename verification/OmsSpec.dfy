/** The order management system as functions on a ledger of parent orders, child orders and fills. Quantities
    are exact reals and the source's epsilon is zero. */
module OmsSpec {
  import opened Options

  datatype OrderStatus = New | Working | PartiallyFilled | Filled | Cancelled | Rejected

  datatype RouteSide = BuyRoute | SellRoute

  datatype Parent = Parent(
    id: nat, symbol: string, side: RouteSide, algorithm: nat,
    quantity: real, filled: real, remaining: real, status: OrderStatus,
    created: nat, updated: nat, childIds: seq<nat>)

  datatype Child = Child(
    id: nat, parentId: nat, venue: string, price: real,
    quantity: real, filled: real, remaining: real, status: OrderStatus, created: nat, updated: nat)

  datatype Fill = Fill(
    id: nat, parentId: nat, childId: nat, venue: string,
    price: real, quantity: real, notional: real, fee: real, timestamp: nat)

  datatype Ledger = Ledger(
    parents: map<nat, Parent>, children: map<nat, Child>, fills: seq<Fill>,
    nextParent: nat, nextChild: nat, nextFill: nat)

  const EMPTY: Ledger := Ledger(map[], map[], [], 1, 1, 1)

  datatype ParentRequest = ParentRequest(symbol: string, side: RouteSide, quantity: real, algorithm: nat)

  datatype ChildRequest = ChildRequest(parentId: nat, venue: string, price: real, quantity: real, timestamp: nat)

  /** What the mutation callback is told. */
  datatype Mutation = Mutation(parentUpdated: bool, parent: Parent, child: Option<Child>, fill: Option<Fill>)

  /** Threw stands for an exception; it leaves the ledger alone and notifies nobody. */
  datatype Answer = Id(id: nat) | Done(changed: bool) | Reported(fill: Fill) | Threw

  datatype Outcome = Outcome(ledger: Ledger, mutation: Option<Mutation>, answer: Answer)

  predicate Terminal(s: OrderStatus) { s.Filled? || s.Cancelled? || s.Rejected? }

  // ---------- a parent seen through its children ----------

  function FilledOver(children: map<nat, Child>, ids: seq<nat>): real {
    if ids == [] then 0.0
    else
      var last := ids[|ids| - 1];
      FilledOver(children, ids[..|ids| - 1]) + (if last in children then children[last].filled else 0.0)
  }

  predicate HasLive(children: map<nat, Child>, ids: seq<nat>) {
    exists k :: 0 <= k < |ids| && ids[k] in children && !Terminal(children[ids[k]].status)
  }

  predicate HasStatus(children: map<nat, Child>, ids: seq<nat>, s: OrderStatus) {
    exists k :: 0 <= k < |ids| && ids[k] in children && children[ids[k]].status == s
  }

  function Least(a: real, b: real): real { if a < b then a else b }

  function Shortfall(quantity: real, filled: real): real { if quantity > filled then quantity - filled else 0.0 }

  function DerivedStatus(remaining: real, filled: real, live: bool, rejected: bool, cancelled: bool): OrderStatus {
    if remaining <= 0.0 then Filled
    else if filled > 0.0 then PartiallyFilled
    else if live then Working
    else if rejected && !cancelled then Rejected
    else if cancelled then Cancelled
    else New
  }

  function StatusFrom(p: Parent, children: map<nat, Child>): OrderStatus {
    DerivedStatus(p.remaining, p.filled, HasLive(children, p.childIds),
                  HasStatus(children, p.childIds, Rejected), HasStatus(children, p.childIds, Cancelled))
  }

  function Refilled(p: Parent, children: map<nat, Child>): Parent {
    var filled := Least(p.quantity, FilledOver(children, p.childIds));
    p.(filled := filled, remaining := Shortfall(p.quantity, filled))
  }

  /** refresh_parent: a cancelled parent stays as it is. */
  function Refreshed(p: Parent, children: map<nat, Child>, timestamp: nat): Parent {
    if p.status.Cancelled? then p
    else
      var q := Refilled(p, children);
      q.(status := StatusFrom(q, children), updated := timestamp)
  }

  /** Store a new version of a child and refresh its parent. */
  function Touch(l: Ledger, c: Child, timestamp: nat): Ledger {
    var children := l.children[c.id := c];
    if c.parentId !in l.parents then l.(children := children)
    else
      l.(children := children,
          parents := l.parents[c.parentId := Refreshed(l.parents[c.parentId], children, timestamp)])
  }

  // ---------- the operations ----------

  function CreateParent(l: Ledger, r: ParentRequest, timestamp: nat): Outcome {
    if r.symbol == "" || r.quantity <= 0.0 then Outcome(l, None, Threw)
    else
      var p := Parent(l.nextParent, r.symbol, r.side, r.algorithm, r.quantity, 0.0, r.quantity, New, timestamp,
                 timestamp, []);
      Outcome(l.(parents := l.parents[p.id := p], nextParent := l.nextParent + 1),
              Some(Mutation(false, p, None, None)), Id(p.id))
  }

  predicate MayCreateChild(l: Ledger, r: ChildRequest) {
    && r.parentId in l.parents && !Terminal(l.parents[r.parentId].status)
    && r.venue != "" && r.price > 0.0 && r.quantity > 0.0
    && r.quantity <= l.parents[r.parentId].remaining
  }

  function CreateChild(l: Ledger, r: ChildRequest): Outcome {
    if !MayCreateChild(l, r) then Outcome(l, None, Threw)
    else
      var c := Child(l.nextChild, r.parentId, r.venue, r.price, r.quantity, 0.0, r.quantity, New, r.timestamp,
                 r.timestamp);
      var parent := l.parents[r.parentId];
      var p := parent.(childIds := parent.childIds + [c.id],
                 status := if parent.status.New? then Working else parent.status,
                    updated := r.timestamp);
      Outcome(l.(children := l.children[c.id := c], parents := l.parents[p.id := p], nextChild := l.nextChild + 1),
              Some(Mutation(false, p, Some(c), None)), Id(c.id))
  }

  predicate Live(l: Ledger, childId: nat) {
    childId in l.children && !Terminal(l.children[childId].status)
  }

  function Notified(l: Ledger, c: Child, fill: Option<Fill>): Option<Mutation> {
    if c.parentId in l.parents then Some(Mutation(false, l.parents[c.parentId], Some(c), fill)) else None
  }

  /** The three operations that only change a child's status. */
  function SetStatus(l: Ledger, childId: nat, status: OrderStatus, timestamp: nat): Outcome {
    if !Live(l, childId) then Outcome(l, None, Done(false))
    else
      var c := l.children[childId].(status := status, updated := timestamp);
      var l' := Touch(l, c, timestamp);
      Outcome(l', Notified(l', c, None), Done(true))
  }

  function WorkingStatus(l: Ledger, childId: nat): OrderStatus {
    if childId in l.children && l.children[childId].filled > 0.0 then PartiallyFilled else Working
  }

  function MarkWorking(l: Ledger, childId: nat, timestamp: nat): Outcome {
    SetStatus(l, childId, WorkingStatus(l, childId), timestamp)
  }

  function CancelChild(l: Ledger, childId: nat, timestamp: nat): Outcome { SetStatus(l, childId, Cancelled, timestamp) }

  function RejectChild(l: Ledger, childId: nat, timestamp: nat): Outcome { SetStatus(l, childId, Rejected, timestamp) }

  predicate MayFill(l: Ledger, childId: nat, price: real, quantity: real, fee: real) {
    && Live(l, childId) && price > 0.0 && quantity > 0.0 && fee >= 0.0
    && quantity <= l.children[childId].remaining
  }

  function FilledChild(c: Child, quantity: real, timestamp: nat): Child {
    var filled := c.filled + quantity;
    var remaining := Shortfall(c.quantity, filled);
    c.(filled := filled, remaining := remaining, status := if remaining <= 0.0 then Filled else PartiallyFilled,
       updated := timestamp)
  }

  function RecordFill(l: Ledger, childId: nat, price: real, quantity: real, fee: real, timestamp: nat): Outcome {
    if !MayFill(l, childId, price, quantity, fee) then Outcome(l, None, Threw)
    else
      var c := FilledChild(l.children[childId], quantity, timestamp);
      var fill := Fill(l.nextFill, c.parentId, c.id, c.venue, price, quantity, price * quantity, fee, timestamp);
      var l' := Touch(l, c, timestamp).(fills := l.fills + [fill], nextFill := l.nextFill + 1);
      Outcome(l', Notified(l', c, Some(fill)), Reported(fill))
  }

  /** Every live child of the list cancelled. */
  function CancelledChildren(children: map<nat, Child>, ids: seq<nat>, timestamp: nat): map<nat, Child> {
    map c | c in children ::
      if c in ids && !Terminal(children[c].status) then children[c].(status := Cancelled, updated := timestamp)
      else children[c]
  }

  function CancelParent(l: Ledger, parentId: nat, timestamp: nat): Outcome {
    if parentId !in l.parents || Terminal(l.parents[parentId].status) then Outcome(l, None, Done(false))
    else
      var p := l.parents[parentId].(status := Cancelled, updated := timestamp);
      Outcome(l.(children := CancelledChildren(l.children, p.childIds, timestamp), parents := l.parents[parentId := p]),
              Some(Mutation(true, p, None, None)), Done(true))
  }

  // ---------- calls and runs ----------

  datatype Call =
    | ParentCall(parentRequest: ParentRequest, timestamp: nat)
    | ChildCall(childRequest: ChildRequest)
    | WorkCall(childId: nat, timestamp: nat)
    | FillCall(childId: nat, price: real, quantity: real, fee: real, timestamp: nat)
    | CancelChildCall(childId: nat, timestamp: nat)
    | RejectChildCall(childId: nat, timestamp: nat)
    | CancelParentCall(parentId: nat, timestamp: nat)

  function Do(l: Ledger, c: Call): Outcome {
    match c
    case ParentCall(r, t) => CreateParent(l, r, t)
    case ChildCall(r) => CreateChild(l, r)
    case WorkCall(id, t) => MarkWorking(l, id, t)
    case FillCall(id, price, quantity, fee, t) => RecordFill(l, id, price, quantity, fee, t)
    case CancelChildCall(id, t) => CancelChild(l, id, t)
    case RejectChildCall(id, t) => RejectChild(l, id, t)
    case CancelParentCall(id, t) => CancelParent(l, id, t)
  }

  function DoAll(l: Ledger, cs: seq<Call>): Ledger
    decreases |cs|
  {
    if cs == [] then l else DoAll(Do(l, cs[0]).ledger, cs[1..])
  }

  // ---------- restoring ----------

  datatype Recovery = Recovery(parents: seq<Parent>, children: seq<Child>, fills: seq<Fill>)

  function Max(a: nat, b: nat): nat { if a < b then b else a }

  function RestoredParents(ps: seq<Parent>): (map<nat, Parent>, nat) {
    if ps == [] then (map[], 1)
    else
      var last := ps[|ps| - 1];
      var (m, next) := RestoredParents(ps[..|ps| - 1]);
      (if last.id in m then m else m[last.id := last], Max(next, last.id + 1))
  }

  function RestoredChildren(cs: seq<Child>): (map<nat, Child>, nat) {
    if cs == [] then (map[], 1)
    else
      var last := cs[|cs| - 1];
      var (m, next) := RestoredChildren(cs[..|cs| - 1]);
      (if last.id in m then m else m[last.id := last], Max(next, last.id + 1))
  }

  function NextFill(fs: seq<Fill>): nat {
    if fs == [] then 1 else Max(NextFill(fs[..|fs| - 1]), fs[|fs| - 1].id + 1)
  }

  /** restore: everything replaced, the next ids one beyond the largest seen. */
  function Restored(r: Recovery): Ledger {
    Ledger(RestoredParents(r.parents).0, RestoredChildren(r.children).0, r.fills,
           RestoredParents(r.parents).1, RestoredChildren(r.children).1, NextFill(r.fills))
  }
}
