/** When exactly a parent is overfilled. The order management system checks a fill against its child only, so with
    several children outstanding a client has to check it against the parent as well. */
module OmsOverfill {
  import opened OmsSpec
  import opened OmsLedger
  import opened OmsPacing

  // ---------- what a call does to the fills of a parent ----------

  lemma CallFills(l: Ledger, c: Call, parentId: nat)
    requires Balanced(l)
    ensures var o := Do(l, c);
            FilledFor(o.ledger.fills, parentId) == FilledFor(l.fills, parentId) +
              (if c.FillCall? && o.answer.Reported? && o.answer.fill.parentId == parentId then c.quantity else 0.0)
    ensures var o := Do(l, c);
            c.FillCall? && o.answer.Reported? ==>
              c.quantity > 0.0 && c.childId in l.children && o.answer.fill.parentId == l.children[c.childId].parentId
    ensures c.FillCall? && !Do(l, c).answer.Reported? ==> Do(l, c).ledger == l
  {
    hide Refreshed, FilledFor, Balanced, FilledBy;
    if c.FillCall? && Do(l, c).answer.Reported? {
      OneMoreFill(l.fills, Do(l, c).answer.fill);
      KeysAreIds(l);
    }
  }

  lemma CallKeepsParents(l: Ledger, c: Call, id: nat)
    requires Balanced(l) && id in l.parents
    ensures var l' := Do(l, c).ledger;
            id in l'.parents && l'.parents[id].quantity == l.parents[id].quantity
  {
    hide Balanced, FilledOver, StatusFrom;
    KeysAreIds(l);
  }

  // ---------- when a parent is overfilled ----------

  /** A fill that is accepted is within what its parent has left, as find_parent would show it before the call. */
  predicate FitsParent(l: Ledger, c: Call) {
    c.FillCall? && MayFill(l, c.childId, c.price, c.quantity, c.fee) ==>
      && l.children[c.childId].parentId in l.parents
      && c.quantity <= l.parents[l.children[c.childId].parentId].remaining
  }

  predicate AllFit(l: Ledger, cs: seq<Call>)
    decreases |cs|
  {
    cs != [] ==> FitsParent(l, cs[0]) && AllFit(Do(l, cs[0]).ledger, cs[1..])
  }

  ghost predicate WithinQuantity(l: Ledger, id: nat)
    requires id in l.parents
  {
    FilledFor(l.fills, id) <= l.parents[id].quantity
  }

  /** In a balanced ledger overfilling can be read from the fills reported. */
  lemma OverfillingIsReported(l: Ledger)
    requires Balanced(l)
    ensures NotOverfilled(l) <==> forall id :: id in l.parents ==> WithinQuantity(l, id)
  {
    hide FilledBy, FilledFor, FilledOver, FillsOk, IdsOk, ParentOk;
  }

  lemma OnlyNewParentsAppear(l: Ledger, c: Call, id: nat)
    requires Balanced(l) && id in Do(l, c).ledger.parents && id !in l.parents
    ensures c.ParentCall? && Do(l, c).ledger.fills == l.fills && Do(l, c).ledger.parents[id].quantity > 0.0
  {
    hide FilledOver, FilledBy, FilledFor, StatusFrom, ParentOk, ChildAdds;
  }

  lemma {:induction false} NoFillsForStrangers(fills: seq<Fill>, children: map<nat, Child>, parents: set<nat>, id: nat)
    requires FillsOk(fills, children) && id !in parents
    requires forall c :: c in children ==> children[c].parentId in parents
    ensures FilledFor(fills, id) == 0.0
    decreases |fills|
  {
    if fills != [] {
      NoFillsForStrangers(fills[..|fills| - 1], children, parents, id);
      assert FillOk(fills[|fills| - 1], |fills|, children);
    }
  }

  /** What a call does to whether one parent is within its quantity. */
  lemma WithinAfter(l: Ledger, c: Call, id: nat)
    requires Balanced(l) && id in Do(l, c).ledger.parents
    ensures id in l.parents && !WithinQuantity(l, id) ==> !WithinQuantity(Do(l, c).ledger, id)
    ensures FitsParent(l, c) && (id in l.parents ==> WithinQuantity(l, id)) ==> WithinQuantity(Do(l, c).ledger, id)
  {
    hide Do, Balanced, FilledFor, MayFill;
    CallFills(l, c, id);
    KeysAreIds(l);
    if id in l.parents {
      CallKeepsParents(l, c, id);
      ParentFigures(l, id);
      FillsAreAccepted(l, c);
    } else {
      OnlyNewParentsAppear(l, c, id);
      BalancedFills(l);
      NoFillsForStrangers(l.fills, l.children, l.parents.Keys, id);
    }
  }

  lemma FillsAreAccepted(l: Ledger, c: Call)
    ensures c.FillCall? ==> (Do(l, c).answer.Reported? <==> MayFill(l, c.childId, c.price, c.quantity, c.fee))
  {
    hide Touch;
  }

  lemma BalancedFills(l: Ledger)
    requires Balanced(l)
    ensures FillsOk(l.fills, l.children) && forall c :: c in l.children ==> l.children[c].parentId in l.parents.Keys
  {
    hide FilledFor, FilledBy, ParentOk, FilledOver, ChildAdds;
  }

  /** One call overfills a parent if and only if it is an accepted fill beyond what its parent has left. */
  lemma WhenCallsOverfill(l: Ledger, c: Call)
    requires Balanced(l) && NotOverfilled(l)
    ensures NotOverfilled(Do(l, c).ledger) <==> FitsParent(l, c)
  {
    hide Do, Balanced, NotOverfilled, WithinQuantity, FitsParent;
    var l' := Do(l, c).ledger;
    CallKeepsBalance(l, c);
    OverfillingIsReported(l);
    OverfillingIsReported(l');
    if FitsParent(l, c) {
      forall id | id in l'.parents ensures WithinQuantity(l', id) {
        WithinAfter(l, c, id);
      }
    } else {
      BeyondWhatIsLeft(l, c);
    }
  }

  lemma BeyondWhatIsLeft(l: Ledger, c: Call)
    requires Balanced(l) && !FitsParent(l, c)
    ensures var l' := Do(l, c).ledger; exists id :: id in l'.parents && !WithinQuantity(l', id)
  {
    hide Do, Balanced, FilledFor, MayFill;
    KeysAreIds(l);
    FillsAreAccepted(l, c);
    AcceptedFillsName(l, c);
    var id := l.children[c.childId].parentId;
    CallFills(l, c, id);
    CallKeepsParents(l, c, id);
    ParentFigures(l, id);
    assert !WithinQuantity(Do(l, c).ledger, id);
  }

  lemma AcceptedFillsName(l: Ledger, c: Call)
    requires c.FillCall? && MayFill(l, c.childId, c.price, c.quantity, c.fee)
    ensures c.childId in l.children && c.quantity > 0.0
  {
  }

  /** Nothing a client does takes fills back: an overfilled parent stays overfilled. */
  lemma OverfilledForGood(l: Ledger, c: Call)
    requires Balanced(l) && !NotOverfilled(l)
    ensures !NotOverfilled(Do(l, c).ledger)
  {
    hide Do, Balanced, NotOverfilled, WithinQuantity;
    CallKeepsBalance(l, c);
    OverfillingIsReported(l);
    OverfillingIsReported(Do(l, c).ledger);
    var id :| id in l.parents && !WithinQuantity(l, id);
    CallKeepsParents(l, c, id);
    WithinAfter(l, c, id);
  }

  lemma {:induction false} RunsStayOverfilled(l: Ledger, cs: seq<Call>)
    requires Balanced(l) && !NotOverfilled(l)
    ensures !NotOverfilled(DoAll(l, cs))
    decreases |cs|
  {
    hide Do, Balanced, NotOverfilled;
    if cs != [] {
      CallKeepsBalance(l, cs[0]);
      OverfilledForGood(l, cs[0]);
      RunsStayOverfilled(Do(l, cs[0]).ledger, cs[1..]);
    }
  }

  /** Any run of any clients ends without an overfilled parent if and only if each fill it had accepted was within
      what its parent had left at the time. */
  lemma {:induction false} WhenRunsOverfill(l: Ledger, cs: seq<Call>)
    requires Balanced(l) && NotOverfilled(l)
    ensures NotOverfilled(DoAll(l, cs)) <==> AllFit(l, cs)
    decreases |cs|
  {
    hide Do, Balanced, NotOverfilled, FitsParent;
    if cs != [] {
      var next := Do(l, cs[0]).ledger;
      CallKeepsBalance(l, cs[0]);
      WhenCallsOverfill(l, cs[0]);
      if FitsParent(l, cs[0]) {
        WhenRunsOverfill(next, cs[1..]);
      } else {
        RunsStayOverfilled(next, cs[1..]);
      }
    }
  }

  /** Without the discipline the ledger does not help: two children, each for all that is left, may both be
      created, and then both be filled. */
  lemma UnpacedClientsOverfill(quantity: real)
    requires quantity > 0.0
    ensures var request := ChildRequest(1, "V", 1.0, quantity, 0);
            var l1 := Do(EMPTY, ParentCall(ParentRequest("X", BuyRoute, quantity, 0), 0)).ledger;
            var l2 := Do(l1, ChildCall(request)).ledger;
            var l3 := Do(l2, ChildCall(request)).ledger;
            var l4 := Do(l3, FillCall(1, 1.0, quantity, 0.0, 0)).ledger;
            var l5 := Do(l4, FillCall(2, 1.0, quantity, 0.0, 0)).ledger;
            1 in l5.parents && FilledOver(l5.children, l5.parents[1].childIds) == 2.0 * l5.parents[1].quantity
  {
    hide StatusFrom, DerivedStatus;
    var request := ChildRequest(1, "V", 1.0, quantity, 0);
    var l1 := Do(EMPTY, ParentCall(ParentRequest("X", BuyRoute, quantity, 0), 0)).ledger;
    var l2 := Do(l1, ChildCall(request)).ledger;
    var l3 := Do(l2, ChildCall(request)).ledger;
    assert l3.parents[1].childIds == [1, 2];
    FilledAsAsked(l3, 1, quantity);
    var l4 := Do(l3, FillCall(1, 1.0, quantity, 0.0, 0)).ledger;
    FilledAsAsked(l4, 2, quantity);
    var l5 := Do(l4, FillCall(2, 1.0, quantity, 0.0, 0)).ledger;
    assert [1, 2][..1] == [1] && [1][..0] == [];
    assert FilledOver(l5.children, []) == 0.0;
    assert FilledOver(l5.children, [1]) == quantity;
  }

  lemma FilledAsAsked(l: Ledger, id: nat, quantity: real)
    requires MayFill(l, id, 1.0, quantity, 0.0) && l.children[id].id == id
    requires l.children[id].parentId in l.parents
    ensures var l' := Do(l, FillCall(id, 1.0, quantity, 0.0, 0)).ledger;
            var p := l.children[id].parentId;
            && l'.children == l.children[id := FilledChild(l.children[id], quantity, 0)]
            && p in l'.parents && l'.parents[p].childIds == l.parents[p].childIds
            && l'.parents[p].quantity == l.parents[p].quantity
  {
    hide StatusFrom, FilledOver;
  }
}
