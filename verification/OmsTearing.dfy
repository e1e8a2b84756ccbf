/** A process that dies inside the mutation callback. The callback saves a fill in three updates, of the parent, the
    child and the fill, each on its own; between two of them the tables are torn. */
module OmsTearing {
  import opened Options
  import opened Ordered
  import opened OmsSpec
  import opened OmsLedger
  import opened OmsStorage

  /** The tables after the first `k` updates of the callback for a mutation that has a child and a fill. */
  function SavedPartly(t: Tables, m: Mutation, k: nat): Tables
    requires m.child.Some? && m.fill.Some? && k <= 3
  {
    var t1 := if k >= 1 then SaveParent(t, m.parent) else t;
    var t2 := if k >= 2 then SaveChild(t1, m.child.value) else t1;
    if k >= 3 then SaveFill(t2, m.fill.value) else t2
  }

  /** The ledger that torn tables are the image of. */
  function Torn(l: Ledger, l': Ledger, k: nat): Ledger {
    if k == 0 then l
    else if k == 1 then l.(parents := l'.parents)
    else if k == 2 then l.(parents := l'.parents, children := l'.children)
    else l'
  }

  lemma FillOutcome(l: Ledger, c: Call)
    requires Balanced(l) && c.FillCall? && MayFill(l, c.childId, c.price, c.quantity, c.fee)
    ensures var o := Do(l, c);
            var child := l.children[c.childId];
            && c.childId in l.children && o.mutation.Some? && o.mutation.value.child.Some?
            && o.mutation.value.fill.Some? && !o.mutation.value.parentUpdated
            && child.id == c.childId && child.parentId in l.parents && l.parents[child.parentId].id == child.parentId
            && o.mutation.value.child == Some(FilledChild(child, c.quantity, c.timestamp))
            && o.ledger.children == l.children[child.id := o.mutation.value.child.value]
            && o.mutation.value.parent == Refreshed(l.parents[child.parentId], o.ledger.children, c.timestamp)
            && o.ledger.parents == l.parents[child.parentId := o.mutation.value.parent]
            && o.ledger.fills == l.fills + [o.mutation.value.fill.value]
            && o.ledger.nextParent == l.nextParent && o.ledger.nextChild == l.nextChild
  {
    hide Refreshed, FilledBy, FilledFor, FillsOk, ParentOk, ChildAdds, FilledOver;
  }

  lemma RefreshKeepsNames(p: Parent, children: map<nat, Child>, t: nat)
    ensures var q := Refreshed(p, children, t); q.id == p.id && q.childIds == p.childIds && q.created == p.created
  {
    hide StatusFrom, FilledOver;
  }

  lemma TornIsShaped(l: Ledger, c: Call, k: nat)
    requires Balanced(l) && c.FillCall? && MayFill(l, c.childId, c.price, c.quantity, c.fee) && k <= 3
    ensures Shaped(Torn(l, Do(l, c).ledger, k))
  {
    hide Balanced, Do, Shaped, MayFill;
    BalancedIsShaped(l);
    CallKeepsBalance(l, c);
    BalancedIsShaped(Do(l, c).ledger);
    if 1 <= k <= 2 {
      TornShape(l, c, k);
    }
  }

  lemma TornShape(l: Ledger, c: Call, k: nat)
    requires Balanced(l) && Shaped(l) && 1 <= k <= 2
    requires c.FillCall? && MayFill(l, c.childId, c.price, c.quantity, c.fee)
    ensures Shaped(Torn(l, Do(l, c).ledger, k))
  {
    hide Balanced, Do, Refreshed, Lists, MayFill;
    FillOutcome(l, c);
    var child := l.children[c.childId];
    RefreshKeepsNames(l.parents[child.parentId], Do(l, c).ledger.children, c.timestamp);
    var l' := Torn(l, Do(l, c).ledger, k);
    forall id | id in l'.parents ensures ChildrenOf(l'.children, id) == ChildrenOf(l.children, id) {
    }
  }

  lemma TornIsImage(l: Ledger, c: Call, k: nat)
    requires Balanced(l) && c.FillCall? && MayFill(l, c.childId, c.price, c.quantity, c.fee) && k <= 3
    ensures var m := Do(l, c).mutation; m.Some? && m.value.child.Some? && m.value.fill.Some?
    ensures SavedPartly(Image(l), Do(l, c).mutation.value, k) == Image(Torn(l, Do(l, c).ledger, k))
  {
    hide Balanced, Do, Refreshed, FillRows, MayFill;
    FillOutcome(l, c);
    var m := Do(l, c).mutation.value;
    var child := l.children[c.childId];
    RefreshKeepsNames(l.parents[child.parentId], Do(l, c).ledger.children, c.timestamp);
    if k >= 1 {
      assert SaveParent(Image(l), m.parent).parents == Image(Torn(l, Do(l, c).ledger, 1)).parents;
    }
    if k == 3 {
      CallIsSaved(l, c);
    }
  }

  /** After the first update the figures still agree exactly if the parent had nothing left to fill. */
  lemma TornAfterParent(l: Ledger, c: Call)
    requires Balanced(l) && c.FillCall? && MayFill(l, c.childId, c.price, c.quantity, c.fee)
    requires l.children[c.childId].parentId in l.parents
    ensures Balanced(Torn(l, Do(l, c).ledger, 1)) <==> l.parents[l.children[c.childId].parentId].remaining == 0.0
  {
    hide Do, FilledBy, FilledFor, FilledOver, FillsOk, ChildrenOk, Lists, ChildrenOf, HasLive, HasStatus;
    hide MayFill, Refreshed;
    FillOutcome(l, c);
    var child := l.children[c.childId];
    var p := l.parents[child.parentId];
    var p' := Do(l, c).mutation.value.parent;
    LiveFill(l, c);
    LiveChildLiveParent(l, c.childId);
    assert ParentOk(p, l.children);
    GrownParent(p, l.children, FilledChild(child, c.quantity, c.timestamp), c.quantity, c.timestamp);
    var torn := Torn(l, Do(l, c).ledger, 1);
    assert torn.parents.Keys == l.parents.Keys;
    if p.remaining == 0.0 {
      forall id | id in torn.parents
        ensures torn.parents[id].id == id && ParentOk(torn.parents[id], l.children)
        ensures FilledOver(l.children, torn.parents[id].childIds) == FilledFor(l.fills, id)
      {
      }
    } else {
      assert torn.parents[p.id] == p';
      assert !ParentOk(p', l.children);
    }
  }

  lemma LiveFill(l: Ledger, c: Call)
    requires c.FillCall? && MayFill(l, c.childId, c.price, c.quantity, c.fee)
    ensures Live(l, c.childId) && c.quantity > 0.0
  {
  }

  /** A refresh after a child has grown, looked at beside the child as it was. */
  lemma GrownParent(p: Parent, children: map<nat, Child>, grown: Child, quantity: real, t: nat)
    requires ParentOk(p, children) && !p.status.Cancelled? && grown.id in children && grown.id in p.childIds
    requires grown.filled == children[grown.id].filled + quantity && quantity > 0.0
    ensures var p' := Refreshed(p, children[grown.id := grown], t);
            && p'.id == p.id && p'.childIds == p.childIds && p'.quantity == p.quantity
            && (ParentOk(p', children) <==> p.remaining == 0.0)
  {
    hide FilledOver, HasLive, HasStatus, ChildrenOf;
    ListsDistinct(p.childIds, ChildrenOf(children, p.id));
    ChangeOne(children, p.childIds, grown);
  }

  /** After the second update the child's figure is ahead of the fills reported for it. */
  lemma TornAfterChild(l: Ledger, c: Call)
    requires Balanced(l) && c.FillCall? && MayFill(l, c.childId, c.price, c.quantity, c.fee)
    ensures !Balanced(Torn(l, Do(l, c).ledger, 2))
  {
    hide Do, FilledBy, FilledFor, FilledOver, FillsOk, IdsOk, ParentOk, MayFill, ChildAdds;
    FillOutcome(l, c);
    LiveFill(l, c);
    var torn := Torn(l, Do(l, c).ledger, 2);
    assert torn.children[c.childId].filled == l.children[c.childId].filled + c.quantity;
  }

  /** A process that dies after `k` of the three updates of a fill: what is restored balances if and only if none or
      all of them were made, or only the parent's was and the parent had nothing left to fill; and unless all were
      made the fill is lost. */
  lemma WhenACrashTearsAFill(l: Ledger, c: Call, k: nat)
    requires Balanced(l) && c.FillCall? && MayFill(l, c.childId, c.price, c.quantity, c.fee) && k <= 3
    ensures var o := Do(l, c);
            && o.mutation.Some? && o.mutation.value.child.Some? && o.mutation.value.fill.Some?
            && l.children[c.childId].parentId in l.parents
            && var back := Restored(Loaded(SavedPartly(Image(l), o.mutation.value, k)));
               && (Balanced(back) <==>
                     k == 0 || k == 3 || (k == 1 && l.parents[l.children[c.childId].parentId].remaining == 0.0))
               && back.fills == (if k == 3 then l.fills + [o.mutation.value.fill.value] else l.fills)
               && (k == 0 ==> back == l) && (k == 3 ==> back == o.ledger)
  {
    hide Balanced, Do, Shaped, Loaded, Restored, Image, MayFill, SavedPartly;
    FillOutcome(l, c);
    TornIsImage(l, c, k);
    TornIsShaped(l, c, k);
    ShapedIsRestored(Torn(l, Do(l, c).ledger, k));
    CallKeepsBalance(l, c);
    if k == 1 {
      TornAfterParent(l, c);
    } else if k == 2 {
      TornAfterChild(l, c);
    }
  }
}
