/** What every run of the order management system keeps: the books balance, ids are consecutive, a parent says
    what its children say, and nothing that has ended starts again. */
module OmsLedger {
  import opened Ordered
  import opened OmsSpec

  // ---------- sums over fills ----------

  function FilledBy(fills: seq<Fill>, childId: nat): real {
    if fills == [] then 0.0
    else
      var last := fills[|fills| - 1];
      FilledBy(fills[..|fills| - 1], childId) + (if last.childId == childId then last.quantity else 0.0)
  }

  function FilledFor(fills: seq<Fill>, parentId: nat): real {
    if fills == [] then 0.0
    else
      var last := fills[|fills| - 1];
      FilledFor(fills[..|fills| - 1], parentId) + (if last.parentId == parentId then last.quantity else 0.0)
  }

  lemma OneMoreFill(fills: seq<Fill>, fill: Fill)
    ensures forall c :: FilledBy(fills + [fill], c) ==
              FilledBy(fills, c) + (if fill.childId == c then fill.quantity else 0.0)
    ensures forall p :: FilledFor(fills + [fill], p) ==
              FilledFor(fills, p) + (if fill.parentId == p then fill.quantity else 0.0)
  {
    assert (fills + [fill])[..|fills|] == fills;
  }

  // ---------- the invariant ----------

  function ChildrenOf(children: map<nat, Child>, parentId: nat): set<nat> {
    set c | c in children && children[c].parentId == parentId
  }

  /** A child's quantities add up, and its status says how much of it is filled. */
  ghost predicate ChildAdds(c: Child) {
    && c.quantity > 0.0 && 0.0 <= c.filled <= c.quantity && c.remaining == c.quantity - c.filled
    && (c.status.Filled? <==> c.remaining == 0.0)
    && (c.status.New? || c.status.Working? ==> c.filled == 0.0)
    && (c.status.PartiallyFilled? ==> c.filled > 0.0)
  }

  ghost predicate ChildrenOk(children: map<nat, Child>, parents: set<nat>, fills: seq<Fill>) {
    forall id :: id in children ==>
      && children[id].id == id && children[id].parentId in parents
      && ChildAdds(children[id]) && children[id].filled == FilledBy(fills, id)
  }

  /** A parent's list is its children by age, its quantities are theirs, and its status is derived from theirs
      unless it has been cancelled; a cancelled parent has no live child. */
  ghost predicate ParentOk(p: Parent, children: map<nat, Child>) {
    && p.quantity > 0.0
    && Lists(p.childIds, ChildrenOf(children, p.id))
    && p.filled == Least(p.quantity, FilledOver(children, p.childIds)) && p.remaining == p.quantity - p.filled
    && (p.status == StatusFrom(p, children) || p.status.Cancelled?)
    && (p.status.Cancelled? ==> !HasLive(children, p.childIds))
  }

  ghost predicate ParentsOk(parents: map<nat, Parent>, children: map<nat, Child>, fills: seq<Fill>) {
    forall id :: id in parents ==>
      && parents[id].id == id && ParentOk(parents[id], children)
      && FilledOver(children, parents[id].childIds) == FilledFor(fills, id)
  }

  ghost predicate FillOk(f: Fill, id: nat, children: map<nat, Child>) {
    && f.id == id && f.childId in children && f.parentId == children[f.childId].parentId
    && f.quantity > 0.0 && f.price > 0.0 && f.fee >= 0.0 && f.notional == f.price * f.quantity
  }

  ghost predicate FillsOk(fills: seq<Fill>, children: map<nat, Child>) {
    forall k :: 0 <= k < |fills| ==> FillOk(fills[k], k + 1, children)
  }

  /** Ids are handed out from 1 on without a hole. */
  ghost predicate IdsOk(l: Ledger) {
    && l.nextParent >= 1 && l.nextChild >= 1 && l.nextFill == |l.fills| + 1
    && (forall id :: id in l.parents <==> 1 <= id < l.nextParent)
    && (forall id :: id in l.children <==> 1 <= id < l.nextChild)
  }

  ghost predicate Balanced(l: Ledger) {
    && IdsOk(l) && FillsOk(l.fills, l.children)
    && ChildrenOk(l.children, l.parents.Keys, l.fills)
    && ParentsOk(l.parents, l.children, l.fills)
  }

  // ---------- frames ----------

  ghost predicate SameOn(a: map<nat, Child>, b: map<nat, Child>, ids: seq<nat>) {
    forall k :: 0 <= k < |ids| ==> (ids[k] in a <==> ids[k] in b) && (ids[k] in a ==> a[ids[k]] == b[ids[k]])
  }

  lemma {:induction false} SameSums(a: map<nat, Child>, b: map<nat, Child>, ids: seq<nat>)
    requires SameOn(a, b, ids)
    ensures FilledOver(a, ids) == FilledOver(b, ids)
    decreases |ids|
  {
    if ids != [] {
      SameSums(a, b, ids[..|ids| - 1]);
    }
  }

  lemma SameParent(a: map<nat, Child>, b: map<nat, Child>, p: Parent)
    requires SameOn(a, b, p.childIds) && ChildrenOf(a, p.id) == ChildrenOf(b, p.id) && ParentOk(p, a)
    ensures ParentOk(p, b) && FilledOver(a, p.childIds) == FilledOver(b, p.childIds)
  {
    hide Lists, ChildrenOf, FilledOver;
    SameSums(a, b, p.childIds);
  }

  lemma {:induction false} ChangeOne(children: map<nat, Child>, ids: seq<nat>, c: Child)
    requires c.id in children && (forall i, j :: 0 <= i < j < |ids| ==> ids[i] != ids[j])
    ensures FilledOver(children[c.id := c], ids) ==
              FilledOver(children, ids) + (if c.id in ids then c.filled - children[c.id].filled else 0.0)
    decreases |ids|
  {
    if ids != [] {
      var n := |ids| - 1;
      ChangeOne(children, ids[..n], c);
      assert ids == ids[..n] + [ids[n]];
    }
  }

  lemma ListsDistinct(ids: seq<nat>, keys: set<nat>)
    requires Lists(ids, keys)
    ensures forall i, j :: 0 <= i < j < |ids| ==> ids[i] != ids[j]
    ensures forall id :: id in ids <==> id in keys
  {
  }

  /** A parent that is not cancelled is put right by a refresh, whatever its children look like. */
  lemma RefreshedIsOk(p: Parent, children: map<nat, Child>, timestamp: nat)
    requires !p.status.Cancelled? && p.quantity > 0.0 && Lists(p.childIds, ChildrenOf(children, p.id))
    ensures ParentOk(Refreshed(p, children, timestamp), children)
  {
    hide Lists, ChildrenOf, FilledOver, HasLive, HasStatus;
  }

  lemma LiveChildLiveParent(l: Ledger, id: nat)
    requires Balanced(l) && Live(l, id)
    ensures var p := l.parents[l.children[id].parentId];
            id in p.childIds && HasLive(l.children, p.childIds) && !p.status.Cancelled?
  {
    hide FilledOver, FilledBy, FilledFor, IdsOk, FillsOk, HasStatus;
    var p := l.parents[l.children[id].parentId];
    assert ParentOk(p, l.children);
    assert id in ChildrenOf(l.children, p.id);
    var k :| 0 <= k < |p.childIds| && p.childIds[k] == id;
  }

  /** Touching a live child keeps every parent in order, provided the fills grow as the child does. */
  lemma TouchKeepsParents(l: Ledger, c: Child, fills: seq<Fill>, timestamp: nat)
    requires Balanced(l) && Live(l, c.id) && c.parentId == l.children[c.id].parentId
    requires forall p :: FilledFor(fills, p) ==
               FilledFor(l.fills, p) + (if p == c.parentId then c.filled - l.children[c.id].filled else 0.0)
    ensures var l' := Touch(l, c, timestamp);
            ParentsOk(l'.parents, l'.children, fills) && l'.parents.Keys == l.parents.Keys
  {
    hide Refreshed, FilledOver, FilledFor, FilledBy, ParentOk, HasLive, HasStatus, IdsOk, FillsOk;
    LiveChildLiveParent(l, c.id);
    var l' := Touch(l, c, timestamp);
    forall id | id in l'.parents
      ensures l'.parents[id].id == id && ParentOk(l'.parents[id], l'.children)
      ensures FilledOver(l'.children, l'.parents[id].childIds) == FilledFor(fills, id)
    {
      var p := l.parents[id];
      SameOwner(l.children, c, id);
      if id == c.parentId {
        OwnParentIsOk(p, l.children, c, timestamp);
      } else {
        OtherParentIsOk(p, l.children, c);
      }
    }
  }

  lemma SameOwner(children: map<nat, Child>, c: Child, parentId: nat)
    requires c.id in children && c.parentId == children[c.id].parentId
    ensures ChildrenOf(children[c.id := c], parentId) == ChildrenOf(children, parentId)
  {
  }

  lemma OwnParentIsOk(p: Parent, children: map<nat, Child>, c: Child, timestamp: nat)
    requires ParentOk(p, children) && !p.status.Cancelled? && c.id in children && c.id in p.childIds
    requires ChildrenOf(children[c.id := c], p.id) == ChildrenOf(children, p.id)
    ensures var p' := Refreshed(p, children[c.id := c], timestamp);
            && p'.id == p.id && p'.childIds == p.childIds && ParentOk(p', children[c.id := c])
            && FilledOver(children[c.id := c], p.childIds) ==
                 FilledOver(children, p.childIds) + c.filled - children[c.id].filled
  {
    hide FilledOver, HasLive, HasStatus, ChildrenOf;
    ListsDistinct(p.childIds, ChildrenOf(children, p.id));
    ChangeOne(children, p.childIds, c);
    RefreshedIsOk(p, children[c.id := c], timestamp);
  }

  lemma OtherParentIsOk(p: Parent, children: map<nat, Child>, c: Child)
    requires ParentOk(p, children) && c.id in children && c.parentId != p.id && children[c.id].parentId == c.parentId
    requires ChildrenOf(children[c.id := c], p.id) == ChildrenOf(children, p.id)
    ensures ParentOk(p, children[c.id := c])
    ensures FilledOver(children[c.id := c], p.childIds) == FilledOver(children, p.childIds)
  {
    hide FilledOver, HasLive, HasStatus;
    ListsDistinct(p.childIds, ChildrenOf(children, p.id));
    assert c.id !in ChildrenOf(children, p.id);
    SameParent(children, children[c.id := c], p);
  }

  // ---------- every operation keeps the balance ----------

  lemma StatusKeepsBalance(l: Ledger, id: nat, status: OrderStatus, timestamp: nat)
    requires Balanced(l) && !status.Filled? && !status.New?
    requires status.Working? || status.PartiallyFilled? ==> status == WorkingStatus(l, id)
    ensures Balanced(SetStatus(l, id, status, timestamp).ledger)
  {
    hide ParentsOk, FilledBy, FilledFor, Refreshed;
    if Live(l, id) {
      var c := l.children[id].(status := status, updated := timestamp);
      TouchKeepsParents(l, c, l.fills, timestamp);
    }
  }

  lemma FillKeepsBalance(l: Ledger, id: nat, price: real, quantity: real, fee: real, timestamp: nat)
    requires Balanced(l)
    ensures Balanced(RecordFill(l, id, price, quantity, fee, timestamp).ledger)
  {
    hide ParentsOk, FilledBy, FilledFor, Refreshed;
    if MayFill(l, id, price, quantity, fee) {
      var c := FilledChild(l.children[id], quantity, timestamp);
      var fill := Fill(l.nextFill, c.parentId, c.id, c.venue, price, quantity, price * quantity, fee, timestamp);
      OneMoreFill(l.fills, fill);
      TouchKeepsParents(l, c, l.fills + [fill], timestamp);
    }
  }

  lemma {:induction false} NeverFilled(fills: seq<Fill>, children: map<nat, Child>, id: nat)
    requires FillsOk(fills, children) && id !in children
    ensures FilledBy(fills, id) == 0.0
    decreases |fills|
  {
    if fills != [] {
      NeverFilled(fills[..|fills| - 1], children, id);
      assert FillOk(fills[|fills| - 1], |fills|, children);
    }
  }

  lemma {:induction false} NeverFilledFor(fills: seq<Fill>, children: map<nat, Child>, parentId: nat)
    requires FillsOk(fills, children) && forall c :: c in children ==> children[c].parentId != parentId
    ensures FilledFor(fills, parentId) == 0.0
    decreases |fills|
  {
    if fills != [] {
      NeverFilledFor(fills[..|fills| - 1], children, parentId);
      assert FillOk(fills[|fills| - 1], |fills|, children);
    }
  }

  lemma NewParentKeepsBalance(l: Ledger, r: ParentRequest, timestamp: nat)
    requires Balanced(l)
    ensures Balanced(CreateParent(l, r, timestamp).ledger)
  {
    hide FilledBy, FilledFor, HasLive, HasStatus;
    var o := CreateParent(l, r, timestamp);
    if o.answer.Id? {
      var id := l.nextParent;
      assert ChildrenOf(l.children, id) == {};
      NeverFilledFor(l.fills, l.children, id);
      NewParentIsOk(o.ledger.parents[id], l.children);
    }
  }

  lemma NewParentIsOk(p: Parent, children: map<nat, Child>)
    requires p.quantity > 0.0 && p.filled == 0.0 && p.remaining == p.quantity && p.childIds == [] && p.status.New?
    requires ChildrenOf(children, p.id) == {}
    ensures ParentOk(p, children) && FilledOver(children, p.childIds) == 0.0
  {
  }

  lemma NewChildKeepsBalance(l: Ledger, r: ChildRequest)
    requires Balanced(l)
    ensures Balanced(CreateChild(l, r).ledger)
  {
    hide FilledBy, FilledFor, HasLive, HasStatus, FilledOver, ParentOk;
    if MayCreateChild(l, r) {
      var l' := CreateChild(l, r).ledger;
      var c := l'.children[l.nextChild];
      NeverFilled(l.fills, l.children, c.id);
      forall id | id in l'.parents
        ensures l'.parents[id].id == id && ParentOk(l'.parents[id], l'.children)
        ensures FilledOver(l'.children, l'.parents[id].childIds) == FilledFor(l.fills, id)
      {
        var p := l.parents[id];
        if id == r.parentId {
          ParentGainsChild(p, l.children, c, r.timestamp);
        } else {
          ParentMissesChild(p, l.children, c);
        }
      }
    }
  }

  lemma ParentMissesChild(p: Parent, children: map<nat, Child>, c: Child)
    requires ParentOk(p, children) && c.id !in children && c.parentId != p.id
    ensures ParentOk(p, children[c.id := c])
    ensures FilledOver(children[c.id := c], p.childIds) == FilledOver(children, p.childIds)
  {
    hide FilledOver, HasLive, HasStatus;
    ListsDistinct(p.childIds, ChildrenOf(children, p.id));
    assert ChildrenOf(children[c.id := c], p.id) == ChildrenOf(children, p.id);
    assert c.id !in p.childIds;
    assert SameOn(children, children[c.id := c], p.childIds);
    SameParent(children, children[c.id := c], p);
  }

  function WithChild(p: Parent, id: nat, timestamp: nat): Parent {
    p.(childIds := p.childIds + [id], status := if p.status.New? then Working else p.status, updated := timestamp)
  }

  lemma ParentGainsChild(p: Parent, children: map<nat, Child>, c: Child, timestamp: nat)
    requires ParentOk(p, children) && !Terminal(p.status)
    requires c.id !in children && (forall id :: id in children ==> id < c.id)
    requires c.parentId == p.id && c.filled == 0.0 && c.status.New?
    ensures var p' := WithChild(p, c.id, timestamp);
            && ParentOk(p', children[c.id := c])
            && FilledOver(children[c.id := c], p'.childIds) == FilledOver(children, p.childIds)
  {
    hide FilledOver, HasLive, HasStatus;
    var more := children[c.id := c];
    var ids := p.childIds + [c.id];
    var keys := ChildrenOf(children, p.id);
    ListsDistinct(p.childIds, keys);
    assert ChildrenOf(more, p.id) == keys + {c.id};
    assert forall s :: s in keys ==> s in children && s < c.id;
    AddGreatest(p.childIds, keys, c.id);
    assert SameOn(children, more, p.childIds);
    SameSums(children, more, p.childIds);
    LastSum(more, p.childIds, c.id);
    LastIsLive(more, p.childIds, c.id);
  }

  lemma LastSum(children: map<nat, Child>, ids: seq<nat>, id: nat)
    requires id in children
    ensures FilledOver(children, ids + [id]) == FilledOver(children, ids) + children[id].filled
  {
    assert (ids + [id])[..|ids|] == ids;
  }

  lemma LastIsLive(children: map<nat, Child>, ids: seq<nat>, id: nat)
    requires id in children && !Terminal(children[id].status)
    ensures HasLive(children, ids + [id])
  {
    assert (ids + [id])[|ids|] == id;
  }

  lemma CancelKeepsBalance(l: Ledger, parentId: nat, timestamp: nat)
    requires Balanced(l)
    ensures Balanced(CancelParent(l, parentId, timestamp).ledger)
  {
    hide FilledBy, FilledFor, HasLive, HasStatus, FilledOver, ParentOk;
    var o := CancelParent(l, parentId, timestamp);
    if o.answer == Done(true) {
      var ids := l.parents[parentId].childIds;
      forall id | id in o.ledger.parents
        ensures o.ledger.parents[id].id == id && ParentOk(o.ledger.parents[id], o.ledger.children)
        ensures FilledOver(o.ledger.children, o.ledger.parents[id].childIds) == FilledFor(l.fills, id)
      {
        if id == parentId {
          CancelledParentIsOk(l.parents[id], l.children, timestamp);
        } else {
          OthersKeepChildren(l.parents[id], l.parents[parentId], l.children, timestamp);
        }
      }
      CancelledChildrenOk(l.children, l.parents.Keys, l.fills, ids, timestamp);
    }
  }

  lemma CancelledChildrenOk(
      children: map<nat, Child>, parents: set<nat>, fills: seq<Fill>, ids: seq<nat>, timestamp: nat)
    requires ChildrenOk(children, parents, fills)
    ensures ChildrenOk(CancelledChildren(children, ids, timestamp), parents, fills)
  {
    hide FilledBy;
  }

  lemma {:induction false} CancellingKeepsSums(children: map<nat, Child>, all: seq<nat>, ids: seq<nat>, timestamp: nat)
    ensures FilledOver(CancelledChildren(children, all, timestamp), ids) == FilledOver(children, ids)
    decreases |ids|
  {
    if ids != [] {
      CancellingKeepsSums(children, all, ids[..|ids| - 1], timestamp);
    }
  }

  lemma CancelledParentIsOk(p: Parent, children: map<nat, Child>, timestamp: nat)
    requires ParentOk(p, children)
    ensures var after := CancelledChildren(children, p.childIds, timestamp);
            var p' := p.(status := Cancelled, updated := timestamp);
            ParentOk(p', after) && FilledOver(after, p.childIds) == FilledOver(children, p.childIds)
  {
    hide FilledOver, HasStatus, Lists;
    var after := CancelledChildren(children, p.childIds, timestamp);
    CancellingKeepsSums(children, p.childIds, p.childIds, timestamp);
    assert ChildrenOf(after, p.id) == ChildrenOf(children, p.id);
    assert forall k :: 0 <= k < |p.childIds| ==> p.childIds[k] in p.childIds;
  }

  lemma OthersKeepChildren(q: Parent, p: Parent, children: map<nat, Child>, timestamp: nat)
    requires ParentOk(q, children) && ParentOk(p, children) && p.id != q.id
    ensures var after := CancelledChildren(children, p.childIds, timestamp);
            ParentOk(q, after) && FilledOver(after, q.childIds) == FilledOver(children, q.childIds)
  {
    hide FilledOver, HasStatus, HasLive;
    var after := CancelledChildren(children, p.childIds, timestamp);
    ListsDistinct(q.childIds, ChildrenOf(children, q.id));
    ListsDistinct(p.childIds, ChildrenOf(children, p.id));
    assert ChildrenOf(after, q.id) == ChildrenOf(children, q.id);
    forall k | 0 <= k < |q.childIds| ensures q.childIds[k] !in p.childIds {
      assert q.childIds[k] in q.childIds;
    }
    SameParent(children, after, q);
  }

  lemma CallKeepsBalance(l: Ledger, c: Call)
    requires Balanced(l)
    ensures Balanced(Do(l, c).ledger)
  {
    hide Balanced, CreateParent, CreateChild, SetStatus, RecordFill, CancelParent;
    match c
    case ParentCall(r, t) => NewParentKeepsBalance(l, r, t);
    case ChildCall(r) => NewChildKeepsBalance(l, r);
    case WorkCall(id, t) => StatusKeepsBalance(l, id, WorkingStatus(l, id), t);
    case FillCall(id, price, quantity, fee, t) => FillKeepsBalance(l, id, price, quantity, fee, t);
    case CancelChildCall(id, t) => StatusKeepsBalance(l, id, Cancelled, t);
    case RejectChildCall(id, t) => StatusKeepsBalance(l, id, Rejected, t);
    case CancelParentCall(id, t) => CancelKeepsBalance(l, id, t);
  }

  lemma EmptyIsBalanced()
    ensures Balanced(EMPTY)
  {
  }

  /** Every reachable ledger balances. */
  lemma {:induction false} RunKeepsBalance(l: Ledger, cs: seq<Call>)
    requires Balanced(l)
    ensures Balanced(DoAll(l, cs))
    decreases |cs|
  {
    hide Balanced, Do;
    if cs != [] {
      CallKeepsBalance(l, cs[0]);
      RunKeepsBalance(Do(l, cs[0]).ledger, cs[1..]);
    }
  }

  // ---------- what has ended stays ended ----------

  ghost predicate EndedStaysEnded(l: Ledger, l': Ledger) {
    && (forall id :: id in l.children && Terminal(l.children[id].status) ==>
          id in l'.children && l'.children[id] == l.children[id])
    && (forall id :: id in l.parents && Terminal(l.parents[id].status) ==>
          id in l'.parents && l'.parents[id].status == l.parents[id].status)
  }

  lemma FilledParentStaysFilled(p: Parent, children: map<nat, Child>, c: Child, timestamp: nat)
    requires ParentOk(p, children) && p.status.Filled? && c.id in children && c.id in p.childIds
    requires c.filled >= children[c.id].filled
    ensures Refreshed(p, children[c.id := c], timestamp).status.Filled?
  {
    hide FilledOver, HasLive, HasStatus, ChildrenOf;
    ListsDistinct(p.childIds, ChildrenOf(children, p.id));
    ChangeOne(children, p.childIds, c);
  }

  lemma TouchKeepsEnded(l: Ledger, c: Child, timestamp: nat)
    requires Balanced(l) && Live(l, c.id) && c.parentId == l.children[c.id].parentId
    requires c.filled >= l.children[c.id].filled
    ensures EndedStaysEnded(l, Touch(l, c, timestamp))
  {
    hide FilledOver, FilledBy, FilledFor, HasStatus, Refreshed, IdsOk, FillsOk;
    var p := l.parents[c.parentId];
    LiveChildLiveParent(l, c.id);
    if Terminal(p.status) {
      assert ParentOk(p, l.children);
      EndedParentIsFilled(p, l.children);
      FilledParentStaysFilled(p, l.children, c, timestamp);
    }
  }

  lemma EndedParentIsFilled(p: Parent, children: map<nat, Child>)
    requires ParentOk(p, children) && HasLive(children, p.childIds) && Terminal(p.status)
    ensures p.status.Filled?
  {
    hide FilledOver, HasStatus, HasLive, Lists, ChildrenOf;
  }

  lemma CallKeepsEnded(l: Ledger, c: Call)
    requires Balanced(l)
    ensures EndedStaysEnded(l, Do(l, c).ledger)
  {
    hide Touch, ParentOk, FilledOver, FilledFor, FilledBy, FillsOk, ChildAdds, StatusFrom;
    if c.WorkCall? || c.FillCall? || c.CancelChildCall? || c.RejectChildCall? {
      if Live(l, c.childId) {
        ChildCallKeepsEnded(l, c);
      }
    } else if c.ChildCall? {
      NewChildKeepsEnded(l, c.childRequest);
    }
  }

  lemma NewChildKeepsEnded(l: Ledger, r: ChildRequest)
    requires IdsOk(l) && forall id :: id in l.parents ==> l.parents[id].id == id
    ensures EndedStaysEnded(l, CreateChild(l, r).ledger)
  {
  }

  lemma ChildCallKeepsEnded(l: Ledger, c: Call)
    requires Balanced(l) && (c.WorkCall? || c.FillCall? || c.CancelChildCall? || c.RejectChildCall?)
    requires Live(l, c.childId)
    ensures EndedStaysEnded(l, Do(l, c).ledger)
  {
    hide Touch, ParentsOk, FilledBy, FillsOk, StatusFrom, EndedStaysEnded;
    var child := l.children[c.childId];
    if c.FillCall? {
      if MayFill(l, c.childId, c.price, c.quantity, c.fee) {
        var filled := FilledChild(child, c.quantity, c.timestamp);
        TouchKeepsEnded(l, filled, c.timestamp);
        FillsDoNotMatter(l, Touch(l, filled, c.timestamp), Do(l, c).ledger);
      } else {
        FillsDoNotMatter(l, l, l);
      }
    } else {
      var status :=
        if c.WorkCall? then WorkingStatus(l, c.childId) else if c.CancelChildCall? then Cancelled else Rejected;
      TouchKeepsEnded(l, child.(status := status, updated := c.timestamp), c.timestamp);
    }
  }

  lemma FillsDoNotMatter(l: Ledger, a: Ledger, b: Ledger)
    requires EndedStaysEnded(l, a) || a == l
    requires a.parents == b.parents && a.children == b.children
    ensures EndedStaysEnded(l, b)
  {
  }

  /** No call ever changes a child that has ended, or the status of a parent that has. */
  lemma {:induction false} EndedForGood(l: Ledger, cs: seq<Call>)
    requires Balanced(l)
    ensures EndedStaysEnded(l, DoAll(l, cs))
    decreases |cs|
  {
    hide Balanced, Do;
    if cs != [] {
      var next := Do(l, cs[0]).ledger;
      CallKeepsBalance(l, cs[0]);
      CallKeepsEnded(l, cs[0]);
      EndedForGood(next, cs[1..]);
    }
  }

  /** When a parent has ended: cancelled by hand, filled, or left with children none of which is live and
      nothing filled. The last makes the next create_child throw, though nobody ended the parent. */
  lemma WhenParentsEnd(p: Parent, children: map<nat, Child>)
    requires ParentOk(p, children) && (forall id :: id in p.childIds ==> id in children && ChildAdds(children[id]))
    ensures Terminal(p.status) <==>
              || p.status.Cancelled?
              || p.remaining == 0.0
              || (p.filled == 0.0 && p.childIds != [] && !HasLive(children, p.childIds))
  {
    hide FilledOver, HasLive, Lists, ChildrenOf;
    SumIsNonNegative(children, p.childIds);
    if p.filled == 0.0 && p.childIds != [] && !HasLive(children, p.childIds) && p.remaining != 0.0 {
      UnfilledChildrenEnded(p, children);
    }
    NoStatusWithoutChildren(children, p.childIds);
  }

  lemma SumIsNonNegative(children: map<nat, Child>, ids: seq<nat>)
    requires forall id :: id in ids ==> id in children && ChildAdds(children[id])
    ensures FilledOver(children, ids) >= 0.0
  {
    if ids != [] {
      LastIsPart(children, ids);
    }
  }

  lemma NoStatusWithoutChildren(children: map<nat, Child>, ids: seq<nat>)
    ensures ids == [] ==> forall s :: !HasStatus(children, ids, s)
    ensures HasStatus(children, ids, Rejected) || HasStatus(children, ids, Cancelled) ==> ids != []
  {
  }

  lemma UnfilledChildrenEnded(p: Parent, children: map<nat, Child>)
    requires p.childIds != [] && !HasLive(children, p.childIds)
    requires p.filled == Least(p.quantity, FilledOver(children, p.childIds)) && p.filled == 0.0 && p.quantity > 0.0
    requires forall id :: id in p.childIds ==> id in children && ChildAdds(children[id])
    ensures HasStatus(children, p.childIds, Rejected) || HasStatus(children, p.childIds, Cancelled)
  {
    hide FilledOver;
    var last := p.childIds[|p.childIds| - 1];
    assert last in p.childIds;
    LastIsPart(children, p.childIds);
    assert Terminal(children[last].status);
  }

  lemma {:induction false} LastIsPart(children: map<nat, Child>, ids: seq<nat>)
    requires ids != [] && forall id :: id in ids ==> id in children && children[id].filled >= 0.0
    ensures FilledOver(children, ids) >= children[ids[|ids| - 1]].filled >= 0.0
    decreases |ids|
  {
    var init := ids[..|ids| - 1];
    if init != [] {
      assert forall id :: id in init ==> id in ids;
      LastIsPart(children, init);
    }
  }

  /** The parent's own figure is the smaller of its quantity and the fills reported for it. */
  lemma ParentFigures(l: Ledger, id: nat)
    requires Balanced(l) && id in l.parents
    ensures var p := l.parents[id];
            p.filled == Least(p.quantity, FilledFor(l.fills, id)) && p.filled + p.remaining == p.quantity
  {
    hide FilledOver, FilledFor, FilledBy, Lists, HasLive, HasStatus;
    assert ParentOk(l.parents[id], l.children);
  }
}
