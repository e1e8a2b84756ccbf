/** The OrderManagementSystem class: maps of parents and children and a list of fills, changed in place. */
module Oms {
  import opened Options
  import opened OmsSpec

  class OrderManagementSystem {
    var parents: map<nat, Parent>
    var children: map<nat, Child>
    var fills: seq<Fill>
    var nextParent: nat
    var nextChild: nat
    var nextFill: nat
    /** What the mutation callback has been told. */
    var mutations: seq<Mutation>

    ghost function View(): Ledger
      reads this
    {
      Ledger(parents, children, fills, nextParent, nextChild, nextFill)
    }

    constructor ()
      ensures View() == EMPTY && mutations == []
    {
      parents, children, fills, nextParent, nextChild, nextFill := map[], map[], [], 1, 1, 1;
      mutations := [];
    }

    ghost predicate Told(before: seq<Mutation>, m: Option<Mutation>)
      reads this
    {
      mutations == before + (if m.Some? then [m.value] else [])
    }

    method Notify(m: Mutation)
      modifies this`mutations
      ensures Told(old(mutations), Some(m))
    {
      mutations := mutations + [m];
    }

    method MakeParent(r: ParentRequest, timestamp: nat) returns (answer: Answer)
      modifies this
      ensures var o := CreateParent(old(View()), r, timestamp);
              View() == o.ledger && answer == o.answer && Told(old(mutations), o.mutation)
    {
      if r.symbol == "" || r.quantity <= 0.0 { return Threw; }
      var id := nextParent;
      nextParent := nextParent + 1;
      parents := parents[id := Parent(id, r.symbol, r.side, r.algorithm, r.quantity, 0.0, r.quantity, New, timestamp,
          timestamp, [])];
      Notify(Mutation(false, parents[id], None, None));
      return Id(id);
    }

    method MakeChild(r: ChildRequest) returns (answer: Answer)
      requires r.parentId in parents ==> parents[r.parentId].id == r.parentId
      modifies this
      ensures var o := CreateChild(old(View()), r);
              View() == o.ledger && answer == o.answer && Told(old(mutations), o.mutation)
    {
      if r.parentId !in parents { return Threw; }
      var parent := parents[r.parentId];
      if Terminal(parent.status) { return Threw; }
      if r.venue == "" || r.price <= 0.0 || r.quantity <= 0.0 { return Threw; }
      if r.quantity > parent.remaining { return Threw; }
      var id := nextChild;
      nextChild := nextChild + 1;
      children := children[id := Child(id, r.parentId, r.venue, r.price, r.quantity, 0.0, r.quantity, New, r.timestamp,
          r.timestamp)];
      parent := parent.(childIds := parent.childIds + [id]);
      if parent.status.New? { parent := parent.(status := Working); }
      parent := parent.(updated := r.timestamp);
      parents := parents[r.parentId := parent];
      Notify(Mutation(false, parents[r.parentId], Some(children[id]), None));
      return Id(id);
    }

    /** refresh_parent: one pass over the children adds up their fills and notes their statuses. */
    method RefreshParent(parentId: nat, timestamp: nat)
      modifies this`parents
      ensures parents ==
                if parentId !in old(parents) then old(parents)
                else old(parents)[parentId := Refreshed(old(parents)[parentId], children, timestamp)]
    {
      hide HasLive, HasStatus, FilledOver;
      if parentId !in parents { return; }
      var parent := parents[parentId];
      NoChildren(children);
      assert parent.childIds[..0] == [];
      if parent.status.Cancelled? {
        assert parents == parents[parentId := parent];
        return;
      }
      var filled := 0.0;
      var live, rejected, cancelled := false, false, false;
      var i := 0;
      while i < |parent.childIds|
        invariant i <= |parent.childIds| && parents == old(parents)
        invariant filled == FilledOver(children, parent.childIds[..i])
        invariant live == HasLive(children, parent.childIds[..i])
        invariant rejected == HasStatus(children, parent.childIds[..i], Rejected)
        invariant cancelled == HasStatus(children, parent.childIds[..i], Cancelled)
      {
        var id := parent.childIds[i];
        OneMoreChild(children, parent.childIds, i);
        if id in children {
          var child := children[id];
          filled := filled + child.filled;
          if child.status.New? || child.status.Working? || child.status.PartiallyFilled? { live := true; }
          if child.status.Rejected? { rejected := true; }
          if child.status.Cancelled? { cancelled := true; }
        }
        i := i + 1;
      }
      assert parent.childIds[..i] == parent.childIds;
      var total := Least(parent.quantity, filled);
      parent := parent.(filled := total, remaining := Shortfall(parent.quantity, total));
      parent := parent.(status := DerivedStatus(parent.remaining, parent.filled, live, rejected, cancelled),
          updated := timestamp);
      assert parent == Refreshed(old(parents)[parentId], children, timestamp);
      parents := parents[parentId := parent];
    }

    /** mark_child_working, cancel_child and reject_child share this shape. */
    method ChangeStatus(childId: nat, status: OrderStatus, timestamp: nat) returns (changed: bool)
      requires childId in children ==> children[childId].id == childId && children[childId].parentId in parents
      modifies this
      ensures var o := SetStatus(old(View()), childId, status, timestamp);
              View() == o.ledger && o.answer == Done(changed) && Told(old(mutations), o.mutation)
    {
      hide Refreshed;
      if childId !in children { return false; }
      var child := children[childId];
      if Terminal(child.status) { return false; }
      child := child.(status := status, updated := timestamp);
      children := children[childId := child];
      RefreshParent(child.parentId, timestamp);
      Notify(Mutation(false, parents[child.parentId], Some(child), None));
      return true;
    }

    method MarkChildWorking(childId: nat, timestamp: nat) returns (changed: bool)
      requires childId in children ==> children[childId].id == childId && children[childId].parentId in parents
      modifies this
      ensures var o := MarkWorking(old(View()), childId, timestamp);
              View() == o.ledger && o.answer == Done(changed) && Told(old(mutations), o.mutation)
    {
      var partly := childId in children && children[childId].filled > 0.0;
      changed := ChangeStatus(childId, if partly then PartiallyFilled else Working, timestamp);
    }

    method RecordChildFill(
        childId: nat, price: real, quantity: real, fee: real, timestamp: nat) returns (answer: Answer)
      requires childId in children ==> children[childId].id == childId && children[childId].parentId in parents
      modifies this
      ensures var o := RecordFill(old(View()), childId, price, quantity, fee, timestamp);
              View() == o.ledger && answer == o.answer && Told(old(mutations), o.mutation)
    {
      hide Refreshed;
      if childId !in children { return Threw; }
      var child := children[childId];
      if Terminal(child.status) { return Threw; }
      if price <= 0.0 || quantity <= 0.0 || fee < 0.0 || quantity > child.remaining { return Threw; }
      child := child.(filled := child.filled + quantity);
      child := child.(remaining := Shortfall(child.quantity, child.filled));
      child := child.(status := if child.remaining <= 0.0 then Filled else PartiallyFilled, updated := timestamp);
      children := children[childId := child];
      var fill := Fill(nextFill, child.parentId, child.id, child.venue, price, quantity, price * quantity, fee,
                    timestamp);
      nextFill := nextFill + 1;
      fills := fills + [fill];
      RefreshParent(child.parentId, timestamp);
      Notify(Mutation(false, parents[child.parentId], Some(child), Some(fill)));
      return Reported(fill);
    }

    method CancelWholeParent(parentId: nat, timestamp: nat) returns (changed: bool)
      modifies this
      ensures var o := CancelParent(old(View()), parentId, timestamp);
              View() == o.ledger && o.answer == Done(changed) && Told(old(mutations), o.mutation)
    {
      if parentId !in parents { return false; }
      var parent := parents[parentId];
      if Terminal(parent.status) { return false; }
      var ids := parent.childIds;
      var i := 0;
      ghost var before := View();
      while i < |ids|
        invariant i <= |ids| && children == CancelledChildren(before.children, ids[..i], timestamp)
        invariant View() == before.(children := children) && mutations == old(mutations)
      {
        OneMoreCancelled(before.children, ids, i, timestamp);
        var id := ids[i];
        if id in children {
          if !Terminal(children[id].status) {
            children := children[id := children[id].(status := Cancelled, updated := timestamp)];
          }
        }
        i := i + 1;
      }
      assert ids[..i] == ids;
      parent := parent.(status := Cancelled, updated := timestamp);
      parents := parents[parentId := parent];
      Notify(Mutation(true, parent, None, None));
      return true;
    }

    /** restore: replace everything, and start the ids one beyond the largest restored. */
    method RestoreFrom(r: Recovery)
      modifies this
      ensures View() == Restored(r) && mutations == old(mutations)
    {
      hide Max;
      NothingRestored();
      parents, children, fills, nextParent, nextChild, nextFill := map[], map[], [], 1, 1, 1;
      for i := 0 to |r.parents|
        invariant (parents, nextParent) == RestoredParents(r.parents[..i])
        invariant children == map[] && fills == [] && nextChild == 1 && nextFill == 1 && mutations == old(mutations)
      {
        assert r.parents[..i + 1][..i] == r.parents[..i];
        nextParent := Max(nextParent, r.parents[i].id + 1);
        if r.parents[i].id !in parents { parents := parents[r.parents[i].id := r.parents[i]]; }
      }
      assert r.parents[..|r.parents|] == r.parents;
      for i := 0 to |r.children|
        invariant (children, nextChild) == RestoredChildren(r.children[..i])
        invariant (parents, nextParent) == RestoredParents(r.parents)
        invariant fills == [] && nextFill == 1 && mutations == old(mutations)
      {
        assert r.children[..i + 1][..i] == r.children[..i];
        nextChild := Max(nextChild, r.children[i].id + 1);
        if r.children[i].id !in children { children := children[r.children[i].id := r.children[i]]; }
      }
      assert r.children[..|r.children|] == r.children;
      for i := 0 to |r.fills|
        invariant fills == r.fills[..i] && nextFill == NextFill(r.fills[..i])
        invariant (parents, nextParent) == RestoredParents(r.parents)
        invariant (children, nextChild) == RestoredChildren(r.children)
        invariant mutations == old(mutations)
      {
        assert r.fills[..i + 1][..i] == r.fills[..i];
        nextFill := Max(nextFill, r.fills[i].id + 1);
        fills := fills + [r.fills[i]];
      }
      assert r.fills[..|r.fills|] == r.fills;
    }
  }

  lemma NothingRestored()
    ensures RestoredParents([]) == (map[], 1) && RestoredChildren([]) == (map[], 1) && NextFill([]) == 1
  {
  }

  lemma NoChildren(children: map<nat, Child>)
    ensures FilledOver(children, []) == 0.0 && !HasLive(children, []) && forall s :: !HasStatus(children, [], s)
  {
  }

  lemma OneMoreChild(children: map<nat, Child>, ids: seq<nat>, i: nat)
    requires i < |ids|
    ensures FilledOver(children, ids[..i + 1]) ==
              FilledOver(children, ids[..i]) + (if ids[i] in children then children[ids[i]].filled else 0.0)
    ensures HasLive(children, ids[..i + 1]) <==>
              HasLive(children, ids[..i]) || (ids[i] in children && !Terminal(children[ids[i]].status))
    ensures forall s :: HasStatus(children, ids[..i + 1], s) <==>
              HasStatus(children, ids[..i], s) || (ids[i] in children && children[ids[i]].status == s)
  {
    hide HasStatus, HasLive;
    assert ids[..i + 1][..i] == ids[..i];
    OneMoreLive(children, ids, i);
    forall s ensures HasStatus(children, ids[..i + 1], s) <==>
              HasStatus(children, ids[..i], s) || (ids[i] in children && children[ids[i]].status == s) {
      OneMoreStatus(children, ids, i, s);
    }
  }

  lemma OneMoreLive(children: map<nat, Child>, ids: seq<nat>, i: nat)
    requires i < |ids|
    ensures HasLive(children, ids[..i + 1]) <==>
              HasLive(children, ids[..i]) || (ids[i] in children && !Terminal(children[ids[i]].status))
  {
    var more, some := ids[..i + 1], ids[..i];
    assert more[i] == ids[i] && forall k :: 0 <= k < i ==> more[k] == some[k];
    if HasLive(children, some) {
      var k :| 0 <= k < |some| && some[k] in children && !Terminal(children[some[k]].status);
      assert more[k] == some[k];
    }
  }

  lemma OneMoreStatus(children: map<nat, Child>, ids: seq<nat>, i: nat, s: OrderStatus)
    requires i < |ids|
    ensures HasStatus(children, ids[..i + 1], s) <==>
              HasStatus(children, ids[..i], s) || (ids[i] in children && children[ids[i]].status == s)
  {
    var more, some := ids[..i + 1], ids[..i];
    assert more[i] == ids[i] && forall k :: 0 <= k < i ==> more[k] == some[k];
    if HasStatus(children, some, s) {
      var k :| 0 <= k < |some| && some[k] in children && children[some[k]].status == s;
      assert more[k] == some[k];
    }
  }

  lemma OneMoreCancelled(children: map<nat, Child>, ids: seq<nat>, i: nat, timestamp: nat)
    requires i < |ids|
    ensures var some := CancelledChildren(children, ids[..i], timestamp);
            var id := ids[i];
            CancelledChildren(children, ids[..i + 1], timestamp) ==
              if id in some && !Terminal(some[id].status)
              then some[id := some[id].(status := Cancelled, updated := timestamp)] else some
  {
    assert ids[..i + 1] == ids[..i] + [ids[i]];
  }
}
