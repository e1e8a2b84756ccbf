/** No overfill. The order management system checks a new child against what its parent has left, not against
    children still outstanding, so its clients can over-allocate. They cannot when each job only ever fills the
    child it created last: for any interleaving of such jobs, with crashes and restarts anywhere, no parent's
    fills exceed its quantity. */
module OmsPacing {
  import opened Options
  import opened Ordered
  import opened OmsSpec
  import opened OmsLedger
  import opened OmsStorage

  /** A call made by a job; `created` is the id create_child answered, if it did. A job is named by its parent. */
  datatype Step = Step(job: nat, call: Call, created: Option<nat>)

  function DoHistory(l: Ledger, h: seq<Step>): Ledger
    decreases |h|
  {
    if h == [] then l else DoHistory(Do(l, h[0].call).ledger, h[1..])
  }

  function CreatedBy(a: Answer, c: Call): Option<nat> {
    if c.ChildCall? && a.Id? then Some(a.id) else None
  }

  /** The history records what the ledger really answered. */
  ghost predicate Executes(l: Ledger, h: seq<Step>)
    decreases |h|
  {
    h != [] ==>
      && h[0].created == CreatedBy(Do(l, h[0].call).answer, h[0].call)
      && Executes(Do(l, h[0].call).ledger, h[1..])
  }

  /** May a job whose newest child is `newest` make this call? */
  predicate OwnCall(job: nat, newest: Option<nat>, c: Call) {
    match c
    case ParentCall(_, _) => true
    case ChildCall(r) => r.parentId == job
    case WorkCall(id, _) => newest == Some(id)
    case FillCall(id, _, _, _, _) => newest == Some(id)
    case CancelChildCall(id, _) => newest == Some(id)
    case RejectChildCall(id, _) => newest == Some(id)
    case CancelParentCall(id, _) => id == job
  }

  function Newest(newest: Option<nat>, s: Step): Option<nat> {
    if s.created.Some? then s.created else newest
  }

  /** One job's steps, whatever the others do in between, touch only its own parent and its newest child. */
  predicate JobPaced(job: nat, newest: Option<nat>, h: seq<Step>)
    decreases |h|
  {
    if h == [] then true
    else if h[0].job != job then JobPaced(job, newest, h[1..])
    else OwnCall(job, newest, h[0].call) && JobPaced(job, Newest(newest, h[0]), h[1..])
  }

  // ---------- joining histories ----------

  lemma {:induction false} HistoryJoins(l: Ledger, a: seq<Step>, b: seq<Step>)
    requires Executes(l, a) && Executes(DoHistory(l, a), b)
    ensures Executes(l, a + b) && DoHistory(l, a + b) == DoHistory(DoHistory(l, a), b)
    decreases |a|
  {
    hide Do;
    if a == [] {
      assert a + b == b;
    } else {
      assert (a + b)[1..] == a[1..] + b;
      HistoryJoins(Do(l, a[0].call).ledger, a[1..], b);
    }
  }

  lemma {:induction false} StartingAfresh(job: nat, newest: Option<nat>, h: seq<Step>)
    requires JobPaced(job, None, h)
    ensures JobPaced(job, newest, h)
    decreases |h|
  {
    if h != [] && !(h[0].job == job && h[0].created.Some?) {
      StartingAfresh(job, newest, h[1..]);
    }
  }

  /** A restarted job begins again without a newest child, so its histories can simply be joined. */
  lemma {:induction false} PacedJoins(job: nat, newest: Option<nat>, a: seq<Step>, b: seq<Step>)
    requires JobPaced(job, newest, a) && JobPaced(job, None, b)
    ensures JobPaced(job, newest, a + b)
    decreases |a|
  {
    if a == [] {
      assert a + b == b;
      StartingAfresh(job, newest, b);
    } else {
      assert (a + b)[1..] == a[1..] + b;
      PacedJoins(job, if a[0].job == job then Newest(newest, a[0]) else newest, a[1..], b);
    }
  }

  // ---------- the room a parent has kept for its newest child ----------

  ghost predicate RoomKept(p: Parent, children: map<nat, Child>) {
    p.childIds != [] ==>
      && var n := |p.childIds| - 1;
         p.childIds[n] in children &&
         FilledOver(children, p.childIds[..n]) + children[p.childIds[n]].quantity <= p.quantity
  }

  ghost predicate Reserved(l: Ledger) {
    forall id :: id in l.parents ==> RoomKept(l.parents[id], l.children)
  }

  ghost predicate NotOverfilled(l: Ledger) {
    forall id :: id in l.parents ==> FilledOver(l.children, l.parents[id].childIds) <= l.parents[id].quantity
  }

  lemma RoomMeansNoOverfill(p: Parent, children: map<nat, Child>)
    requires RoomKept(p, children) && p.quantity > 0.0
    requires forall id :: id in children ==> ChildAdds(children[id])
    ensures FilledOver(children, p.childIds) <= p.quantity
  {
  }

  lemma ReservedMeansNoOverfill(l: Ledger)
    requires Balanced(l) && Reserved(l)
    ensures NotOverfilled(l)
  {
    hide FilledBy, FilledFor, FillsOk, IdsOk, RoomKept, FilledOver, HasLive, HasStatus, Lists;
    forall id | id in l.parents ensures FilledOver(l.children, l.parents[id].childIds) <= l.parents[id].quantity {
      assert ParentOk(l.parents[id], l.children);
      RoomMeansNoOverfill(l.parents[id], l.children);
    }
  }

  /** The sums do not see a change that leaves every listed fill alone. */
  lemma {:induction false} SameFilled(a: map<nat, Child>, b: map<nat, Child>, ids: seq<nat>)
    requires forall k :: 0 <= k < |ids| ==>
              (ids[k] in a <==> ids[k] in b) && (ids[k] in a ==> a[ids[k]].filled == b[ids[k]].filled)
    ensures FilledOver(a, ids) == FilledOver(b, ids)
    decreases |ids|
  {
    if ids != [] {
      SameFilled(a, b, ids[..|ids| - 1]);
    }
  }

  /** Room is kept by any change that leaves alone the fills of all but the newest child. */
  lemma RoomStays(p: Parent, q: Parent, a: map<nat, Child>, b: map<nat, Child>)
    requires RoomKept(p, a) && q.childIds == p.childIds && q.quantity == p.quantity
    requires forall k :: 0 <= k < |p.childIds| ==> p.childIds[k] in a && p.childIds[k] in b
    requires forall k :: 0 <= k < |p.childIds| ==> a[p.childIds[k]].quantity == b[p.childIds[k]].quantity
    requires forall k :: 0 <= k < |p.childIds| - 1 ==> a[p.childIds[k]].filled == b[p.childIds[k]].filled
    ensures RoomKept(q, b)
  {
    hide FilledOver;
    if p.childIds != [] {
      SameFilled(a, b, p.childIds[..|p.childIds| - 1]);
    }
  }

  lemma ListedAreThere(l: Ledger, id: nat)
    requires Balanced(l) && id in l.parents
    ensures var ids := l.parents[id].childIds;
            && (forall k :: 0 <= k < |ids| ==> ids[k] in l.children && l.children[ids[k]].parentId == id)
            && (forall i, j :: 0 <= i < j < |ids| ==> ids[i] != ids[j])
            && l.parents[id].id == id
  {
    hide FilledBy, FilledFor, FillsOk, IdsOk, FilledOver, HasLive, HasStatus;
    var p := l.parents[id];
    assert ParentOk(p, l.children);
    ListsDistinct(p.childIds, ChildrenOf(l.children, id));
    forall k | 0 <= k < |p.childIds| ensures p.childIds[k] in ChildrenOf(l.children, id) {
      assert p.childIds[k] in p.childIds;
    }
  }

  function LastOf(ids: seq<nat>): Option<nat> { if ids == [] then None else Some(ids[|ids| - 1]) }

  /** Touching a child keeps the room, unless it fills one that is not its parent's newest. */
  lemma TouchKeepsRoom(l: Ledger, c: Child, timestamp: nat)
    requires Balanced(l) && Reserved(l) && Live(l, c.id)
    requires c.parentId == l.children[c.id].parentId && c.quantity == l.children[c.id].quantity
    requires c.filled != l.children[c.id].filled ==> LastOf(l.parents[c.parentId].childIds) == Some(c.id)
    ensures Reserved(Touch(l, c, timestamp))
  {
    hide Balanced, FilledOver, HasLive, HasStatus, RoomKept, StatusFrom;
    var l' := Touch(l, c, timestamp);
    forall id | id in l'.parents ensures RoomKept(l'.parents[id], l'.children) {
      KeysAreIds(l);
      ListedAreThere(l, id);
      RoomStays(l.parents[id], l'.parents[id], l.children, l'.children);
    }
  }

  lemma KeysAreIds(l: Ledger)
    requires Balanced(l)
    ensures forall id :: id in l.children ==> l.children[id].id == id && l.children[id].parentId in l.parents
    ensures forall id :: id in l.parents ==> l.parents[id].id == id
    ensures forall id :: id in l.children ==> id < l.nextChild
    ensures forall id :: id in l.parents ==> id < l.nextParent
  {
    hide FilledBy, FilledFor, FillsOk, ParentOk, ChildAdds;
  }

  lemma StatusKeepsRoom(l: Ledger, id: nat, status: OrderStatus, timestamp: nat)
    requires Balanced(l) && Reserved(l)
    ensures Reserved(SetStatus(l, id, status, timestamp).ledger)
  {
    hide Reserved, Touch, Balanced;
    KeysAreIds(l);
    if Live(l, id) {
      TouchKeepsRoom(l, l.children[id].(status := status, updated := timestamp), timestamp);
    }
  }

  lemma FillKeepsRoom(l: Ledger, id: nat, price: real, quantity: real, fee: real, timestamp: nat)
    requires Balanced(l) && Reserved(l)
    requires Live(l, id) ==>
              l.children[id].parentId in l.parents && LastOf(l.parents[l.children[id].parentId].childIds) == Some(id)
    ensures Reserved(RecordFill(l, id, price, quantity, fee, timestamp).ledger)
  {
    hide Touch, Balanced, RoomKept;
    KeysAreIds(l);
    if MayFill(l, id, price, quantity, fee) {
      TouchKeepsRoom(l, FilledChild(l.children[id], quantity, timestamp), timestamp);
    }
  }

  lemma NewChildKeepsRoom(l: Ledger, r: ChildRequest)
    requires Balanced(l) && Reserved(l)
    ensures Reserved(CreateChild(l, r).ledger)
  {
    hide Balanced, FilledOver, HasLive, HasStatus, RoomKept;
    if MayCreateChild(l, r) {
      KeysAreIds(l);
      var l' := CreateChild(l, r).ledger;
      forall id | id in l'.parents ensures RoomKept(l'.parents[id], l'.children) {
        ListedAreThere(l, id);
        if id == r.parentId {
          ReservedMeansNoOverfill(l);
          NewestHasRoom(l, r);
        } else {
          RoomStays(l.parents[id], l'.parents[id], l.children, l'.children);
        }
      }
    }
  }

  lemma NewestHasRoom(l: Ledger, r: ChildRequest)
    requires Balanced(l) && NotOverfilled(l) && MayCreateChild(l, r)
    ensures var l' := CreateChild(l, r).ledger; RoomKept(l'.parents[r.parentId], l'.children)
  {
    hide FilledOver, HasLive, HasStatus, FilledBy, FilledFor, FillsOk, Lists;
    var p := l.parents[r.parentId];
    var l' := CreateChild(l, r).ledger;
    ListedAreThere(l, r.parentId);
    assert ParentOk(p, l.children);
    var ids := p.childIds + [l.nextChild];
    assert ids[..|p.childIds|] == p.childIds;
    SameFilled(l.children, l'.children, p.childIds);
  }

  lemma NewParentKeepsRoom(l: Ledger, r: ParentRequest, timestamp: nat)
    requires Balanced(l) && Reserved(l)
    ensures Reserved(CreateParent(l, r, timestamp).ledger)
  {
    hide Balanced, FilledOver;
    KeysAreIds(l);
  }

  lemma CancelKeepsRoom(l: Ledger, parentId: nat, timestamp: nat)
    requires Balanced(l) && Reserved(l)
    ensures Reserved(CancelParent(l, parentId, timestamp).ledger)
  {
    hide Balanced, FilledOver, HasLive, HasStatus, RoomKept;
    var l' := CancelParent(l, parentId, timestamp).ledger;
    forall id | id in l'.parents ensures RoomKept(l'.parents[id], l'.children) {
      ListedAreThere(l, id);
      RoomStays(l.parents[id], l'.parents[id], l.children, l'.children);
    }
  }

  // ---------- histories ----------

  /** What each job knows as its newest child is the last child of its parent. */
  ghost predicate Knows(l: Ledger, newest: map<nat, nat>) {
    forall job :: job in newest ==> job in l.parents && LastOf(l.parents[job].childIds) == Some(newest[job])
  }

  function Lookup(newest: map<nat, nat>, job: nat): Option<nat> { if job in newest then Some(newest[job]) else None }

  function Learn(newest: map<nat, nat>, s: Step): map<nat, nat> {
    if s.created.Some? then newest[s.job := s.created.value] else newest
  }

  lemma StepKeepsRoom(l: Ledger, newest: map<nat, nat>, s: Step)
    requires Balanced(l) && Reserved(l) && Knows(l, newest)
    requires OwnCall(s.job, Lookup(newest, s.job), s.call)
    ensures Reserved(Do(l, s.call).ledger)
  {
    hide Balanced, Reserved, SetStatus, RecordFill, CreateChild, CreateParent, CancelParent;
    match s.call
    case ParentCall(r, t) => NewParentKeepsRoom(l, r, t);
    case ChildCall(r) => NewChildKeepsRoom(l, r);
    case WorkCall(id, t) => StatusKeepsRoom(l, id, WorkingStatus(l, id), t);
    case FillCall(id, price, quantity, fee, t) =>
      KnownNewest(l, newest, s.job);
      FillKeepsRoom(l, id, price, quantity, fee, t);
    case CancelChildCall(id, t) => StatusKeepsRoom(l, id, Cancelled, t);
    case RejectChildCall(id, t) => StatusKeepsRoom(l, id, Rejected, t);
    case CancelParentCall(id, t) => CancelKeepsRoom(l, id, t);
  }

  lemma KnownNewest(l: Ledger, newest: map<nat, nat>, job: nat)
    requires Balanced(l) && Knows(l, newest) && job in newest
    ensures newest[job] in l.children && l.children[newest[job]].parentId == job
  {
    hide Balanced;
    ListedAreThere(l, job);
  }

  /** Only create_child lengthens a parent's list, and only its own. */
  lemma ListsChangeByCreation(l: Ledger, c: Call, id: nat)
    requires Balanced(l) && id in l.parents
    ensures var o := Do(l, c);
            && id in o.ledger.parents
            && o.ledger.parents[id].childIds ==
                 if c.ChildCall? && c.childRequest.parentId == id && o.answer.Id?
                 then l.parents[id].childIds + [o.answer.id] else l.parents[id].childIds
  {
    hide Balanced, StatusFrom, FilledOver;
    KeysAreIds(l);
  }

  lemma StepKeepsKnowledge(l: Ledger, newest: map<nat, nat>, s: Step)
    requires Balanced(l) && Knows(l, newest)
    requires OwnCall(s.job, Lookup(newest, s.job), s.call) && s.created == CreatedBy(Do(l, s.call).answer, s.call)
    ensures Knows(Do(l, s.call).ledger, Learn(newest, s))
  {
    hide Balanced, Do;
    var l' := Do(l, s.call).ledger;
    forall job | job in newest ensures job in l'.parents {
      ListsChangeByCreation(l, s.call, job);
    }
    if s.created.Some? {
      CreationNeedsParent(l, s.call.childRequest);
      ListsChangeByCreation(l, s.call, s.job);
    }
    forall job | job in Learn(newest, s)
      ensures job in l'.parents && LastOf(l'.parents[job].childIds) == Some(Learn(newest, s)[job])
    {
      ListsChangeByCreation(l, s.call, job);
    }
  }

  lemma CreationNeedsParent(l: Ledger, r: ChildRequest)
    ensures Do(l, ChildCall(r)).answer.Id? ==> r.parentId in l.parents
  {
  }

  /** The main result: for every interleaving of paced jobs, from any reachable state without over-allocation, no
      parent is overfilled. */
  lemma {:induction false} PacedJobsNeverOverfill(l: Ledger, newest: map<nat, nat>, h: seq<Step>)
    requires Balanced(l) && Reserved(l) && Knows(l, newest) && Executes(l, h)
    requires forall job :: JobPaced(job, Lookup(newest, job), h)
    ensures var end := DoHistory(l, h); Balanced(end) && Reserved(end) && NotOverfilled(end)
    decreases |h|
  {
    hide Balanced, Reserved, Do, NotOverfilled, OwnCall, Knows;
    if h == [] {
      ReservedMeansNoOverfill(l);
    } else {
      var s := h[0];
      assert JobPaced(s.job, Lookup(newest, s.job), h);
      CallKeepsBalance(l, s.call);
      StepKeepsRoom(l, newest, s);
      StepKeepsKnowledge(l, newest, s);
      forall job ensures JobPaced(job, Lookup(Learn(newest, s), job), h[1..]) {
        assert JobPaced(job, Lookup(newest, job), h);
      }
      PacedJobsNeverOverfill(Do(l, s.call).ledger, Learn(newest, s), h[1..]);
    }
  }

  // ---------- lives ----------

  /** The tables along some steps: the mutation callback saves after each. */
  function SavedAlong(l: Ledger, h: seq<Step>, t: Tables): Tables
    decreases |h|
  {
    if h == [] then t
    else SavedAlong(Do(l, h[0].call).ledger, h[1..], Persisted(t, Do(l, h[0].call)))
  }

  /** One life of the process: it restores what the tables hold and takes some steps, until it dies. */
  ghost function AfterLife(t: Tables, h: seq<Step>): Tables { SavedAlong(Restored(Loaded(t)), h, t) }

  ghost function AfterLives(t: Tables, lives: seq<seq<Step>>): Tables
    decreases |lives|
  {
    if lives == [] then t else AfterLives(AfterLife(t, lives[0]), lives[1..])
  }

  /** In each life the jobs are paced, and none remembers a child from an earlier one. */
  ghost predicate LivesPaced(t: Tables, lives: seq<seq<Step>>)
    decreases |lives|
  {
    lives != [] ==>
      && Executes(Restored(Loaded(t)), lives[0])
      && (forall job :: JobPaced(job, None, lives[0]))
      && LivesPaced(AfterLife(t, lives[0]), lives[1..])
  }

  function Joined(lives: seq<seq<Step>>): seq<Step>
    decreases |lives|
  {
    if lives == [] then [] else lives[0] + Joined(lives[1..])
  }

  lemma {:induction false} HistoryIsSaved(l: Ledger, h: seq<Step>)
    requires Balanced(l)
    ensures SavedAlong(l, h, Image(l)) == Image(DoHistory(l, h)) && Balanced(DoHistory(l, h))
    decreases |h|
  {
    hide Balanced, Do, Image, Persisted;
    if h != [] {
      CallKeepsBalance(l, h[0].call);
      CallIsSaved(l, h[0].call);
      HistoryIsSaved(Do(l, h[0].call).ledger, h[1..]);
    }
  }

  /** Crashes and restarts leave no trace: however often the process dies, and wherever, its lives are one paced
      history of the ledger, and the tables hold what it led to. */
  lemma {:induction false} LivesAreOneHistory(l: Ledger, lives: seq<seq<Step>>)
    requires Balanced(l) && LivesPaced(Image(l), lives)
    ensures Executes(l, Joined(lives)) && forall job :: JobPaced(job, None, Joined(lives))
    ensures AfterLives(Image(l), lives) == Image(DoHistory(l, Joined(lives)))
    decreases |lives|
  {
    hide Balanced, Do, Image, Loaded, Restored, SavedAlong, Executes, JobPaced, DoHistory;
    if lives == [] {
      NoSteps(l);
    } else {
      RestoreUndoesCrash(l);
      HistoryIsSaved(l, lives[0]);
      var next := DoHistory(l, lives[0]);
      LivesAreOneHistory(next, lives[1..]);
      HistoryJoins(l, lives[0], Joined(lives[1..]));
      forall job ensures JobPaced(job, None, Joined(lives)) {
        PacedJoins(job, None, lives[0], Joined(lives[1..]));
      }
    }
  }

  lemma NoSteps(l: Ledger)
    ensures Executes(l, []) && DoHistory(l, []) == l && forall job :: JobPaced(job, None, [])
  {
  }

  /** Crash-safe execution: whatever jobs interleave, and wherever the process dies and is restored from its
      tables, what it is restored to is balanced and no parent is overfilled. */
  lemma LivesNeverOverfill(l: Ledger, lives: seq<seq<Step>>)
    requires Balanced(l) && Reserved(l) && LivesPaced(Image(l), lives)
    ensures var end := Restored(Loaded(AfterLives(Image(l), lives)));
            Balanced(end) && Reserved(end) && NotOverfilled(end)
  {
    hide Balanced, Reserved, NotOverfilled, Image, Loaded, Restored, Executes, JobPaced, DoHistory, LivesPaced,
         AfterLives;
    LivesAreOneHistory(l, lives);
    forall job ensures JobPaced(job, Lookup(map[], job), Joined(lives)) {
      assert JobPaced(job, None, Joined(lives));
    }
    PacedJobsNeverOverfill(l, map[], Joined(lives));
    RestoreUndoesCrash(DoHistory(l, Joined(lives)));
  }

  /** The same from empty tables on. */
  lemma NeverOverfilled(lives: seq<seq<Step>>)
    requires LivesPaced(Tables(map[], map[], map[]), lives)
    ensures NotOverfilled(Restored(Loaded(AfterLives(Tables(map[], map[], map[]), lives))))
  {
    hide Balanced, NotOverfilled, Loaded, Restored, LivesPaced, AfterLives;
    EmptyIsBalanced();
    assert Image(EMPTY) == Tables(map[], map[], map[]);
    LivesNeverOverfill(EMPTY, lives);
  }
}
