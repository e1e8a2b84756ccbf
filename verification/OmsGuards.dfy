/** The order management system from outside: when each call is accepted, in terms of what has been filled so far,
    and what it then changes and leaves alone. */
module OmsGuards {
  import opened OmsSpec
  import opened OmsLedger
  import opened OmsPacing
  import opened OmsOverfill

  predicate Open(s: OrderStatus) { s.New? || s.Working? || s.PartiallyFilled? }

  ghost predicate OtherChildrenKept(l: Ledger, l': Ledger, childId: nat) {
    l'.children.Keys == l.children.Keys + {childId} &&
    forall id :: id in l.children && id != childId ==> l'.children[id] == l.children[id]
  }

  ghost predicate OtherParentsKept(l: Ledger, l': Ledger, parentId: nat) {
    l'.parents.Keys == l.parents.Keys + {parentId} &&
    forall id :: id in l.parents && id != parentId ==> l'.parents[id] == l.parents[id]
  }

  /** A parent is accepted unless it has no symbol or nothing to trade, and then starts new and empty. */
  lemma WhenParentsAreAccepted(l: Ledger, r: ParentRequest, t: nat)
    requires Balanced(l)
    ensures var o := Do(l, ParentCall(r, t));
            && (o.answer.Id? <==> r.symbol != "" && r.quantity > 0.0)
            && (if o.answer.Id? then
                  && o.answer.id == |l.parents| + 1 && o.answer.id !in l.parents
                  && o.ledger.parents[o.answer.id] ==
                       Parent(o.answer.id, r.symbol, r.side, r.algorithm, r.quantity, 0.0, r.quantity, New, t, t, [])
                  && OtherParentsKept(l, o.ledger, o.answer.id)
                  && o.ledger.children == l.children && o.ledger.fills == l.fills
                else o.answer.Threw? && o.ledger == l)
  {
    hide ParentsOk, ChildrenOk, FillsOk;
    CountedFromOne(l.parents.Keys, l.nextParent);
  }

  /** The ids from one to `next` are as many as there are. */
  lemma {:induction false} CountedFromOne(keys: set<nat>, next: nat)
    requires next >= 1 && forall id :: id in keys <==> 1 <= id < next
    ensures |keys| == next - 1
    decreases next
  {
    if next == 1 {
      assert keys == {};
    } else {
      CountedFromOne(keys - {next - 1}, next - 1);
    }
  }

  /** What is left of a parent, read from the fills. */
  lemma RemainderIsUnfilled(l: Ledger, id: nat, quantity: real)
    requires Balanced(l) && id in l.parents && quantity > 0.0
    ensures quantity <= l.parents[id].remaining <==> FilledFor(l.fills, id) + quantity <= l.parents[id].quantity
  {
    hide FilledOver, FilledFor, FilledBy, Balanced;
    ParentFigures(l, id);
  }

  lemma ChildIsUnfilled(l: Ledger, id: nat)
    requires Balanced(l) && id in l.children
    ensures var c := l.children[id];
            && c.id == id && c.parentId in l.parents && c.filled == FilledBy(l.fills, id)
            && c.filled + c.remaining == c.quantity && c.quantity > 0.0
            && (c.status.Filled? <==> c.filled == c.quantity)
  {
    hide FilledBy, ParentsOk, FillsOk, IdsOk;
  }

  /** A child is accepted if and only if its parent exists and is open, it names a venue, a price and a quantity, and
      the quantity does not exceed what has not been filled of the parent: the open children do not count. It is then
      the youngest child of its parent and nothing else changes. */
  lemma WhenChildrenAreAccepted(l: Ledger, r: ChildRequest)
    requires Balanced(l)
    ensures var o := Do(l, ChildCall(r));
            && (o.answer.Id? <==>
                  && r.parentId in l.parents && Open(l.parents[r.parentId].status)
                  && r.venue != "" && r.price > 0.0 && r.quantity > 0.0
                  && FilledFor(l.fills, r.parentId) + r.quantity <= l.parents[r.parentId].quantity)
            && (if o.answer.Id? then
                  && o.answer.id == |l.children| + 1 && o.answer.id !in l.children
                  && o.ledger.children[o.answer.id] ==
                       Child(o.answer.id, r.parentId, r.venue, r.price, r.quantity, 0.0, r.quantity, New, r.timestamp,
                             r.timestamp)
                  && OtherChildrenKept(l, o.ledger, o.answer.id) && OtherParentsKept(l, o.ledger, r.parentId)
                  && (var p := l.parents[r.parentId];
                      o.ledger.parents[r.parentId] ==
                        p.(childIds := p.childIds + [o.answer.id], updated := r.timestamp,
                           status := if p.status.New? then Working else p.status))
                  && o.ledger.fills == l.fills
                else o.answer.Threw? && o.ledger == l)
  {
    hide ParentOk, ChildAdds, FillsOk, FilledFor, FilledBy;
    CountedFromOne(l.children.Keys, l.nextChild);
    if r.parentId in l.parents && r.quantity > 0.0 {
      RemainderIsUnfilled(l, r.parentId, r.quantity);
    }
  }

  /** What a call on a child leaves alone: every other child, every other parent, and what its own parent was asked
      for. */
  ghost predicate OnlyTheChild(l: Ledger, l': Ledger, childId: nat)
    requires childId in l.children
  {
    var parentId := l.children[childId].parentId;
    && parentId in l.parents && l'.parents.Keys == l.parents.Keys && l'.children.Keys == l.children.Keys
    && (forall id :: id in l.children && id != childId ==> l'.children[id] == l.children[id])
    && (forall id :: id in l.parents && id != parentId ==> l'.parents[id] == l.parents[id])
    && (var p, p' := l.parents[parentId], l'.parents[parentId];
        p' == p.(filled := p'.filled, remaining := p'.remaining, status := p'.status, updated := p'.updated))
  }

  /** Marking, cancelling or rejecting a child works if and only if the child exists and is open. It then changes the
      child's status and nothing else about any child; otherwise nothing. */
  lemma WhenChildrenChange(l: Ledger, c: Call)
    requires Balanced(l) && (c.WorkCall? || c.CancelChildCall? || c.RejectChildCall?)
    ensures var o := Do(l, c);
            && o.answer == Done(c.childId in l.children && Open(l.children[c.childId].status))
            && (if o.answer.changed then
                  && OnlyTheChild(l, o.ledger, c.childId) && o.ledger.fills == l.fills
                  && var child := l.children[c.childId];
                     var status :=
                       if c.CancelChildCall? then Cancelled
                       else if c.RejectChildCall? then Rejected
                       else if child.filled > 0.0 then PartiallyFilled
                       else Working;
                     o.ledger.children[c.childId] == child.(status := status, updated := c.timestamp)
                else o.ledger == l)
  {
    hide ParentsOk, FillsOk, FilledBy, StatusFrom, Refilled, IdsOk;
    if c.childId in l.children {
      ChildIsUnfilled(l, c.childId);
      if Live(l, c.childId) {
        KeptByTouch(l, Touched(l, c), c.timestamp);
      }
    }
  }

  function Touched(l: Ledger, c: Call): Child
    requires (c.WorkCall? || c.CancelChildCall? || c.RejectChildCall?) && c.childId in l.children
  {
    var status :=
      if c.CancelChildCall? then Cancelled else if c.RejectChildCall? then Rejected else WorkingStatus(l, c.childId);
    l.children[c.childId].(status := status, updated := c.timestamp)
  }

  lemma KeptByTouch(l: Ledger, c: Child, t: nat)
    requires c.id in l.children && c.parentId == l.children[c.id].parentId && c.parentId in l.parents
    ensures OnlyTheChild(l, Touch(l, c, t), c.id) && Touch(l, c, t).children[c.id] == c
    ensures Touch(l, c, t).fills == l.fills
  {
    hide StatusFrom, Refilled;
    RefreshKeepsIdentity(l.parents[c.parentId], l.children[c.id := c], t);
  }

  lemma RefreshKeepsIdentity(p: Parent, children: map<nat, Child>, t: nat)
    ensures var q := Refreshed(p, children, t);
            q == p.(filled := q.filled, remaining := q.remaining, status := q.status, updated := q.updated)
  {
    hide StatusFrom, FilledOver;
  }

  /** A fill is accepted if and only if the child exists and is open, price and quantity are positive, the fee is not
      negative, and the child is not filled beyond its quantity. The report carries the call's figures, the child
      gains the quantity and is filled when nothing is left of it. */
  lemma WhenFillsAreAccepted(l: Ledger, id: nat, price: real, quantity: real, fee: real, t: nat)
    requires Balanced(l)
    ensures var o := Do(l, FillCall(id, price, quantity, fee, t));
            && (o.answer.Reported? <==>
                  && id in l.children && Open(l.children[id].status) && price > 0.0 && quantity > 0.0 && fee >= 0.0
                  && FilledBy(l.fills, id) + quantity <= l.children[id].quantity)
            && (if o.answer.Reported? then
                  var c := l.children[id];
                  && o.answer.fill ==
                       Fill(|l.fills| + 1, c.parentId, id, c.venue, price, quantity, price * quantity, fee, t)
                  && o.ledger.fills == l.fills + [o.answer.fill]
                  && OnlyTheChild(l, o.ledger, id)
                  && o.ledger.children[id] ==
                       c.(filled := c.filled + quantity, remaining := c.remaining - quantity, updated := t,
                          status := if c.filled + quantity == c.quantity then Filled else PartiallyFilled)
                else o.answer.Threw? && o.ledger == l)
  {
    hide ParentsOk, FillOk, FilledBy, Touch, ChildrenOk, OnlyTheChild;
    if id in l.children {
      ChildIsUnfilled(l, id);
      if MayFill(l, id, price, quantity, fee) {
        var c := FilledChild(l.children[id], quantity, t);
        KeptByTouch(l, c, t);
        FillsAreNotChildren(l, Touch(l, c, t), Do(l, FillCall(id, price, quantity, fee, t)).ledger, id);
      }
    }
  }

  lemma FillsAreNotChildren(l: Ledger, a: Ledger, b: Ledger, id: nat)
    requires id in l.children && OnlyTheChild(l, a, id) && a.parents == b.parents && a.children == b.children
    ensures OnlyTheChild(l, b, id)
  {
  }

  /** A parent is cancelled if and only if it exists and is open: each of its open children is then cancelled, and no
      other parent, child or fill is touched. */
  lemma WhenParentsAreCancelled(l: Ledger, id: nat, t: nat)
    requires Balanced(l)
    ensures var o := Do(l, CancelParentCall(id, t));
            && o.answer == Done(id in l.parents && Open(l.parents[id].status))
            && (if o.answer.changed then
                  && OtherParentsKept(l, o.ledger, id)
                  && o.ledger.parents[id] == l.parents[id].(status := Cancelled, updated := t)
                  && o.ledger.children.Keys == l.children.Keys && o.ledger.fills == l.fills
                  && (forall c :: c in l.children ==>
                        o.ledger.children[c] ==
                          if l.children[c].parentId == id && Open(l.children[c].status)
                          then l.children[c].(status := Cancelled, updated := t) else l.children[c])
                else o.ledger == l)
  {
    hide FilledOver, FilledBy, FilledFor, HasLive, HasStatus, ChildAdds, FillsOk, IdsOk;
    if id in l.parents {
      assert ParentOk(l.parents[id], l.children);
      ListsDistinct(l.parents[id].childIds, ChildrenOf(l.children, id));
    }
  }

  // ---------- the status of a parent ----------

  predicate ChildWith(l: Ledger, parentId: nat, c: nat) { c in l.children && l.children[c].parentId == parentId }

  /** A sum of nothing has only empty parts. */
  lemma {:induction false} UnfilledParts(children: map<nat, Child>, ids: seq<nat>)
    requires forall id :: id in ids ==> id in children && ChildAdds(children[id])
    ensures FilledOver(children, ids) >= 0.0
    ensures FilledOver(children, ids) == 0.0 ==> forall id :: id in ids ==> children[id].filled == 0.0
    decreases |ids|
  {
    if ids != [] {
      var init, last := ids[..|ids| - 1], ids[|ids| - 1];
      assert ids == init + [last];
      UnfilledParts(children, init);
      assert last in ids;
    }
  }

  lemma ListedOrOwned(l: Ledger, id: nat)
    requires Balanced(l) && id in l.parents
    ensures forall c :: ChildWith(l, id, c) <==> c in l.parents[id].childIds
    ensures forall c :: ChildWith(l, id, c) ==> ChildAdds(l.children[c])
    ensures FilledOver(l.children, l.parents[id].childIds) == FilledFor(l.fills, id)
  {
    hide FilledOver, FilledBy, FilledFor, HasLive, HasStatus, ChildAdds, FillsOk, IdsOk, StatusFrom;
    var p := l.parents[id];
    assert ParentOk(p, l.children);
    ListsDistinct(p.childIds, ChildrenOf(l.children, id));
    forall c ensures ChildWith(l, id, c) <==> c in p.childIds {
      assert c in ChildrenOf(l.children, id) <==> ChildWith(l, id, c);
    }
  }

  lemma ByMembership(children: map<nat, Child>, ids: seq<nat>)
    ensures HasLive(children, ids) <==> exists c :: c in ids && c in children && !Terminal(children[c].status)
    ensures forall s :: HasStatus(children, ids, s) <==>
              exists c :: c in ids && c in children && children[c].status == s
  {
    if c :| c in ids && c in children && !Terminal(children[c].status) {
      var k :| 0 <= k < |ids| && ids[k] == c;
    }
    forall s ensures HasStatus(children, ids, s) <==> exists c :: c in ids && c in children && children[c].status == s {
      if c :| c in ids && c in children && children[c].status == s {
        var k :| 0 <= k < |ids| && ids[k] == c;
      }
    }
  }

  ghost predicate HasChild(l: Ledger, id: nat) { exists c :: ChildWith(l, id, c) }

  ghost predicate HasOpenChild(l: Ledger, id: nat) { exists c :: ChildWith(l, id, c) && Open(l.children[c].status) }

  /** What a parent says of itself, told from its fills and its children, unless it is cancelled: filled when the fills
      reach its quantity, partially filled when there are some; otherwise working while a child is open, rejected when
      it has children and all are rejected, and new without children. A cancelled parent has no open child. */
  lemma StatusIsTold(l: Ledger, id: nat)
    requires Balanced(l) && id in l.parents
    ensures var p, filled := l.parents[id], FilledFor(l.fills, id);
            if p.status.Cancelled? then !HasOpenChild(l, id)
            else
              && (p.status.Filled? <==> filled >= p.quantity)
              && (p.status.PartiallyFilled? <==> 0.0 < filled < p.quantity)
              && (p.status.Working? <==> filled == 0.0 && HasOpenChild(l, id))
              && (p.status.Rejected? <==>
                    && filled == 0.0 && HasChild(l, id)
                    && forall c :: ChildWith(l, id, c) ==> l.children[c].status.Rejected?)
              && (p.status.New? <==> filled == 0.0 && !HasChild(l, id))
  {
    hide FilledOver, FilledBy, FilledFor, HasLive, HasStatus, FillsOk, IdsOk, ChildrenOk, ParentOk;
    var p := l.parents[id];
    assert ParentOk(p, l.children);
    ListedOrOwned(l, id);
    UnfilledParts(l.children, p.childIds);
    ByMembership(l.children, p.childIds);
    DerivedFrom(p, l.children);
  }

  lemma DerivedFrom(p: Parent, children: map<nat, Child>)
    requires ParentOk(p, children)
    ensures p.filled == Least(p.quantity, FilledOver(children, p.childIds)) && p.quantity > 0.0
    ensures p.remaining == p.quantity - p.filled
    ensures p.status.Cancelled? ==> !HasLive(children, p.childIds)
    ensures !p.status.Cancelled? ==> p.status == StatusFrom(p, children)
  {
    hide FilledOver, HasLive, HasStatus;
  }

  // ---------- a parent that has been traded ----------

  ghost predicate InTrade(l: Ledger, id: nat) {
    id in l.parents && (l.parents[id].status.PartiallyFilled? || l.parents[id].status.Filled?)
  }

  /** Some of a parent has been filled: then it says so, unless it is cancelled. */
  lemma FillsAreTold(l: Ledger, id: nat)
    requires Balanced(l) && id in l.parents
    ensures FilledFor(l.fills, id) > 0.0 && !l.parents[id].status.Cancelled? ==> InTrade(l, id)
    ensures InTrade(l, id) ==> FilledFor(l.fills, id) > 0.0
    ensures InTrade(l, id) ==> (l.parents[id].status.Filled? <==> FilledFor(l.fills, id) >= l.parents[id].quantity)
  {
    hide FilledFor, Balanced, HasChild, HasOpenChild;
    StatusIsTold(l, id);
    QuantityIsPositive(l, id);
  }

  lemma QuantityIsPositive(l: Ledger, id: nat)
    requires Balanced(l) && id in l.parents
    ensures l.parents[id].quantity > 0.0
  {
    hide FilledOver, FilledFor, FilledBy, FillsOk, ChildrenOk, IdsOk;
    assert ParentOk(l.parents[id], l.children);
  }

  lemma RefreshDoesNotCancel(p: Parent, children: map<nat, Child>, t: nat)
    requires !p.status.Cancelled? && p.quantity > 0.0 && FilledOver(children, p.childIds) > 0.0
    ensures !Refreshed(p, children, t).status.Cancelled?
  {
    hide FilledOver, HasLive, HasStatus;
  }

  lemma TouchDoesNotCancel(l: Ledger, c: Child, t: nat, id: nat)
    requires c.parentId in l.parents && id in l.parents && !l.parents[id].status.Cancelled?
    requires l.parents[id].quantity > 0.0 && FilledOver(l.children[c.id := c], l.parents[id].childIds) > 0.0
    ensures !Touch(l, c, t).parents[id].status.Cancelled?
  {
    hide Refreshed, FilledOver;
    if id == c.parentId {
      RefreshDoesNotCancel(l.parents[id], l.children[c.id := c], t);
    }
  }

  /** Only cancel_parent cancels a parent of which something has been filled. */
  lemma OthersDoNotCancel(l: Ledger, c: Call, id: nat)
    requires Balanced(l) && id in l.parents && !l.parents[id].status.Cancelled? && !c.CancelParentCall?
    requires FilledFor(Do(l, c).ledger.fills, id) > 0.0
    ensures InTrade(Do(l, c).ledger, id)
  {
    hide Balanced, FilledFor, FilledOver, Touch, FillsOk, ChildAdds, FilledBy, StatusFrom;
    var l' := Do(l, c).ledger;
    CallKeepsBalance(l, c);
    CallKeepsParents(l, c, id);
    KeysAreIds(l);
    QuantityIsPositive(l, id);
    ListedOrOwned(l', id);
    FillsAreTold(l', id);
    if (c.WorkCall? || c.CancelChildCall? || c.RejectChildCall?) && Live(l, c.childId) {
      ChildIsUnfilled(l, c.childId);
      SameList(l, Touched(l, c), c.timestamp, id);
      TouchDoesNotCancel(l, Touched(l, c), c.timestamp, id);
    } else if c.FillCall? && MayFill(l, c.childId, c.price, c.quantity, c.fee) {
      var child := FilledChild(l.children[c.childId], c.quantity, c.timestamp);
      ChildIsUnfilled(l, c.childId);
      SameList(l, child, c.timestamp, id);
      TouchDoesNotCancel(l, child, c.timestamp, id);
    }
  }

  lemma SameList(l: Ledger, c: Child, t: nat, id: nat)
    requires id in l.parents && c.parentId in l.parents
    ensures var l' := Touch(l, c, t);
            && id in l'.parents && l'.parents[id].childIds == l.parents[id].childIds
            && l'.children == l.children[c.id := c]
  {
    hide StatusFrom, FilledOver;
  }

  /** A parent that has been traded stays so under every other call, and once filled it is filled for good. */
  lemma TradeLasts(l: Ledger, c: Call, id: nat)
    requires Balanced(l) && InTrade(l, id)
    ensures var l' := Do(l, c).ledger;
            && id in l'.parents && (!c.CancelParentCall? ==> InTrade(l', id))
            && (l.parents[id].status.Filled? ==> l'.parents[id].status.Filled?)
  {
    hide Balanced, Do, FilledFor;
    CallKeepsEnded(l, c);
    CallKeepsParents(l, c, id);
    if !c.CancelParentCall? {
      FillsAreTold(l, id);
      CallFills(l, c, id);
      OthersDoNotCancel(l, c, id);
    }
  }

  /** An accepted fill leaves its parent traded. */
  lemma FillTrades(l: Ledger, c: Call)
    requires Balanced(l) && c.FillCall? && Do(l, c).answer.Reported?
    ensures InTrade(Do(l, c).ledger, Do(l, c).answer.fill.parentId)
  {
    hide Balanced, Do, FilledFor, HasLive, Live, MayFill;
    var id := Do(l, c).answer.fill.parentId;
    CallFills(l, c, id);
    WasLive(l, c);
    LiveChildLiveParent(l, c.childId);
    ChildIsUnfilled(l, c.childId);
    FilledForIsPositive(l, id);
    OthersDoNotCancel(l, c, id);
  }

  lemma WasLive(l: Ledger, c: Call)
    requires c.FillCall? && Do(l, c).answer.Reported?
    ensures Live(l, c.childId)
  {
    hide Touch;
  }

  lemma FilledForIsPositive(l: Ledger, id: nat)
    requires Balanced(l) && id in l.parents
    ensures FilledFor(l.fills, id) >= 0.0
  {
    hide Balanced, FilledFor, FilledOver, ChildAdds;
    ListedOrOwned(l, id);
    UnfilledParts(l.children, l.parents[id].childIds);
  }
}
