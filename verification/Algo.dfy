/** The algo scheduler's worker: one slice after another, each routed, executed and recorded as child orders, with
    a process that may die between any two effects. Quotes, router and simulator are whatever the caller says. */
module Algo {
  import opened Options
  import opened Ordered
  import opened OmsSpec
  import opened OmsLedger
  import opened OmsPacing
  import opened OmsGuards
  import opened OmsOverfill
  import opened OmsStorage
  import opened Oms

  datatype AlgoStatus = Running | Completed | CancelledByUser | Failed

  datatype Job = Job(
    requested: real, filled: real, remaining: real, currentSlice: nat, nextSliceAt: nat,
    status: AlgoStatus, completedAt: nat, recovered: bool, recoveryCount: nat, lastRecoveredAt: nat)

  /** What the algo store keeps of a job; a job stored without its request cannot be run again. */
  datatype PersistedJob = PersistedJob(state: Job, hasRequest: bool)

  datatype Slice = Slice(quantity: real, delay: nat)

  /** One executed leg of a route. */
  datatype Leg = Leg(
    venue: string, price: real, requested: real, filled: real, remaining: real, fee: real, rejected: bool)

  /** What a slice meets: cancellation before it or while it waits, quotes or none, a route plan with legs or
      without, and the executed legs. The legs may depend on the quantity asked for. */
  datatype Weather = Weather(
    cancelBefore: bool, cancelDuringWait: bool, quoted: bool, routed: bool, execution: real -> seq<Leg>)

  function Positive(x: real): real { if x > 0.0 then x else 0.0 }

  /** What a leg trades: nothing when it is rejected. */
  function LegFilled(leg: Leg): real { if leg.rejected then 0.0 else Positive(leg.filled) }

  /** What some legs trade. */
  function Executed(legs: seq<Leg>): real {
    if legs == [] then 0.0 else Executed(legs[..|legs| - 1]) + LegFilled(legs[|legs| - 1])
  }

  /** What some slices plan to trade. */
  function Planned(slices: seq<Slice>): real {
    if slices == [] then 0.0 else Planned(slices[..|slices| - 1]) + Positive(slices[|slices| - 1].quantity)
  }

  lemma PlannedMore(slices: seq<Slice>, from: nat, i: nat)
    requires from <= i < |slices|
    ensures Planned(slices[from..i + 1]) == Planned(slices[from..i]) + Positive(slices[i].quantity)
  {
    assert slices[from..i + 1][..i - from] == slices[from..i];
  }

  lemma {:induction false} PlannedGrows(slices: seq<Slice>, from: nat, i: nat)
    requires from <= i <= |slices|
    ensures 0.0 <= Planned(slices[from..i]) <= Planned(slices[from..])
    decreases |slices| - i
  {
    if i == |slices| {
      assert slices[from..i] == slices[from..];
      PlannedIsPositive(slices[from..]);
    } else {
      PlannedMore(slices, from, i);
      PlannedGrows(slices, from, i + 1);
      PlannedIsPositive(slices[from..i]);
    }
  }

  lemma {:induction false} PlannedIsPositive(slices: seq<Slice>)
    ensures Planned(slices) >= 0.0
    decreases |slices|
  {
    if slices != [] {
      PlannedIsPositive(slices[..|slices| - 1]);
    }
  }

  lemma {:induction false} ExecutedGrows(legs: seq<Leg>, i: nat)
    requires i <= |legs|
    ensures Executed(legs[..i]) <= Executed(legs)
    decreases |legs| - i
  {
    if i == |legs| {
      assert legs[..i] == legs;
    } else {
      assert legs[..i + 1][..i] == legs[..i];
      ExecutedGrows(legs, i + 1);
    }
  }

  /** Router and simulator execute at most what a slice asks for. */
  ghost predicate Moderate(weather: seq<Weather>) {
    forall i, q :: 0 <= i < |weather| && q > 0.0 ==> Executed(weather[i].execution(q)) <= q
  }

  ghost predicate Moderated(weather: Weather) { forall q :: q > 0.0 ==> Executed(weather.execution(q)) <= q }

  lemma EachWeather(weather: seq<Weather>, i: nat)
    requires i < |weather|
    ensures Moderate(weather) ==> Moderated(weather[i])
    ensures Smooth(weather) ==> Smooth([weather[i]])
  {
    hide Executed, Sound;
    if Smooth(weather) {
      forall q | q > 0.0 ensures Sound([weather[i]][0].execution(q), q) {
        SmoothAt(weather, i, q);
      }
    }
  }

  // ---------- what a schedule trades ----------

  /** What a run of the schedule trades from slice `from` on, when it has `remaining` to go. */
  function Traded(schedule: seq<Slice>, weather: seq<Weather>, from: nat, remaining: real): real
    requires |weather| == |schedule|
    decreases |schedule| - from
  {
    if from >= |schedule| || weather[from].cancelBefore then 0.0
    else if schedule[from].delay > 0 && weather[from].cancelDuringWait then
      Traded(schedule, weather, from + 1, remaining)
    else if remaining <= 0.0 then 0.0
    else
      var done := SliceTrades(schedule[from], weather[from], remaining);
      done + Traded(schedule, weather, from + 1, Shortfall(remaining, done))
  }

  /** One step of it. */
  lemma TradedFrom(schedule: seq<Slice>, weather: seq<Weather>, from: nat, remaining: real)
    requires |weather| == |schedule|
    ensures from >= |schedule| || weather[from].cancelBefore ==> Traded(schedule, weather, from, remaining) == 0.0
    ensures from < |schedule| && !weather[from].cancelBefore ==>
              Traded(schedule, weather, from, remaining) ==
                if schedule[from].delay > 0 && weather[from].cancelDuringWait then
                  Traded(schedule, weather, from + 1, remaining)
                else if remaining <= 0.0 then 0.0
                else
                  var done := SliceTrades(schedule[from], weather[from], remaining);
                  done + Traded(schedule, weather, from + 1, Shortfall(remaining, done))
  {
  }

  function SliceTrades(slice: Slice, weather: Weather, remaining: real): real {
    var quantity := Least(slice.quantity, remaining);
    if quantity > 0.0 && weather.quoted && weather.routed then Executed(weather.execution(quantity)) else 0.0
  }

  /** Nobody cancels from slice `from` on. */
  ghost predicate Undisturbed(weather: seq<Weather>, from: nat) {
    forall i :: from <= i < |weather| ==> !weather[i].cancelBefore && !weather[i].cancelDuringWait
  }

  /** Every slice from `from` on has quotes and a route, and is executed in full. */
  ghost predicate FairWeather(weather: seq<Weather>, from: nat) {
    && Undisturbed(weather, from)
    && (forall i :: from <= i < |weather| ==> weather[i].quoted && weather[i].routed)
    && (forall i, q :: from <= i < |weather| && q > 0.0 ==> Executed(weather[i].execution(q)) == q)
  }

  lemma FirstPlanned(schedule: seq<Slice>, from: nat)
    requires from < |schedule|
    ensures Planned(schedule[from..]) == Positive(schedule[from].quantity) + Planned(schedule[from + 1..])
  {
    assert schedule[from..] == [schedule[from]] + schedule[from + 1..];
    PlannedFirst(schedule[from], schedule[from + 1..]);
  }

  lemma {:induction false} PlannedFirst(first: Slice, rest: seq<Slice>)
    ensures Planned([first] + rest) == Positive(first.quantity) + Planned(rest)
    decreases |rest|
  {
    if rest == [] {
      assert [first] + rest == [first] && [first][..0] == [];
    } else {
      var n := |rest| - 1;
      assert ([first] + rest)[..n + 1] == [first] + rest[..n];
      PlannedFirst(first, rest[..n]);
    }
  }

  /** In fair weather everything planned is traded, as far as there is something to trade. */
  lemma {:induction false} FairWeatherTradesAll(
    schedule: seq<Slice>, weather: seq<Weather>, from: nat, remaining: real)
    requires |weather| == |schedule| && from <= |schedule| && remaining >= 0.0 && FairWeather(weather, from)
    ensures Traded(schedule, weather, from, remaining) == Least(remaining, Planned(schedule[from..]))
    decreases |schedule| - from
  {
    hide Executed, Planned;
    PlannedIsPositive(schedule[from..]);
    if from == |schedule| {
      assert schedule[from..] == [];
      NothingPlanned();
    } else {
      FirstPlanned(schedule, from);
      PlannedIsPositive(schedule[from + 1..]);
      if remaining > 0.0 {
        var done := SliceTrades(schedule[from], weather[from], remaining);
        FairWeatherTradesAll(schedule, weather, from + 1, Shortfall(remaining, done));
      }
    }
  }

  lemma NothingPlanned()
    ensures Planned([]) == 0.0
  {
  }

  /** What the slices trade one by one: all of what a routed slice executes, nothing of one that is not. */
  function Delivered(slices: seq<Slice>, weather: seq<Weather>): real
    requires |weather| == |slices|
    decreases |slices|
  {
    if slices == [] then 0.0
    else
      (if slices[0].quantity > 0.0 && weather[0].quoted && weather[0].routed
       then Executed(weather[0].execution(slices[0].quantity)) else 0.0)
      + Delivered(slices[1..], weather[1..])
  }

  /** When what is left covers all that is planned, each slice trades on its own account. */
  lemma {:induction false} EachSliceDelivers(schedule: seq<Slice>, weather: seq<Weather>, from: nat, remaining: real)
    requires |weather| == |schedule| && from <= |schedule| && remaining >= Planned(schedule[from..])
    requires Moderate(weather) && Undisturbed(weather, from)
    ensures Traded(schedule, weather, from, remaining) == Delivered(schedule[from..], weather[from..])
    decreases |schedule| - from
  {
    hide Executed, Planned;
    PlannedIsPositive(schedule[from..]);
    if from < |schedule| {
      FirstPlanned(schedule, from);
      PlannedIsPositive(schedule[from + 1..]);
      assert schedule[from..][1..] == schedule[from + 1..] && weather[from..][1..] == weather[from + 1..];
      var done := SliceTrades(schedule[from], weather[from], remaining);
      ExecutedIsPositive(weather[from].execution(schedule[from].quantity));
      EachSliceDelivers(schedule, weather, from + 1, remaining - done);
    }
  }

  lemma {:induction false} ExecutedIsPositive(legs: seq<Leg>)
    ensures Executed(legs) >= 0.0
    decreases |legs|
  {
    if legs != [] {
      ExecutedIsPositive(legs[..|legs| - 1]);
    }
  }

  // ---------- what a leg leaves in the ledger ----------

  /** Can the leg be recorded: its parent is open and has room, and what it fills is no more than it asked for. */
  ghost predicate LegTaken(l: Ledger, parentId: nat, leg: Leg) {
    && parentId in l.parents && Open(l.parents[parentId].status)
    && leg.venue != "" && leg.price > 0.0 && leg.requested > 0.0
    && FilledFor(l.fills, parentId) + leg.requested <= l.parents[parentId].quantity
    && (leg.rejected || FillsWell(leg))
  }

  predicate FillsWell(leg: Leg) { leg.filled > 0.0 ==> leg.filled <= leg.requested && leg.fee >= 0.0 }

  function NewChild(id: nat, parentId: nat, leg: Leg, now: nat): Child {
    Child(id, parentId, leg.venue, leg.price, leg.requested, 0.0, leg.requested, New, now, now)
  }

  function LegStatus(leg: Leg): OrderStatus {
    if leg.rejected then Rejected
    else if leg.filled == leg.requested then Filled
    else if leg.remaining > 0.0 then Cancelled
    else if leg.filled > 0.0 then PartiallyFilled
    else Working
  }

  /** The child a leg leaves behind. */
  function LegChild(id: nat, parentId: nat, leg: Leg, now: nat): Child {
    Child(id, parentId, leg.venue, leg.price, leg.requested, LegFilled(leg), leg.requested - LegFilled(leg),
          LegStatus(leg), now, now)
  }

  /** The fill it reports, if any. */
  function LegFills(id: nat, fillId: nat, parentId: nat, leg: Leg, now: nat): seq<Fill> {
    if LegFilled(leg) == 0.0 then [] else [LegFill(id, fillId, parentId, leg, now)]
  }

  function LegFill(id: nat, fillId: nat, parentId: nat, leg: Leg, now: nat): Fill {
    Fill(fillId, parentId, id, leg.venue, leg.price, leg.filled, leg.price * leg.filled, leg.fee, now)
  }

  /** Since `l` one child of the parent has been added, with its fills; nothing else but the parent has changed. */
  ghost predicate Grown(l: Ledger, l': Ledger, parentId: nat, child: Child, fills: seq<Fill>) {
    && child.id == |l.children| + 1 && child.id !in l.children && child.parentId == parentId
    && l'.children == l.children[child.id := child] && l'.fills == l.fills + fills
    && parentId in l.parents && l'.parents.Keys == l.parents.Keys
    && (forall id :: id in l.parents && id != parentId ==> l'.parents[id] == l.parents[id])
  }

  lemma LegIsCreated(l: Ledger, r: ChildRequest)
    requires Balanced(l)
    ensures var o := Do(l, ChildCall(r));
            o.answer.Id? ==>
              Grown(l, o.ledger, r.parentId,
                    Child(o.answer.id, r.parentId, r.venue, r.price, r.quantity, 0.0, r.quantity, New, r.timestamp,
                          r.timestamp), [])
  {
    hide Balanced, Do, FilledFor;
    WhenChildrenAreAccepted(l, r);
  }

  lemma LegIsChanged(l0: Ledger, l: Ledger, parentId: nat, child: Child, fills: seq<Fill>, c: Call)
    requires c.WorkCall? || c.CancelChildCall? || c.RejectChildCall?
    requires Balanced(l) && Grown(l0, l, parentId, child, fills) && c.childId == child.id
    ensures var status :=
              if !Open(child.status) then child.status
              else if c.CancelChildCall? then Cancelled
              else if c.RejectChildCall? then Rejected
              else if child.filled > 0.0 then PartiallyFilled
              else Working;
            var updated := if Open(child.status) then c.timestamp else child.updated;
            Grown(l0, Do(l, c).ledger, parentId, child.(status := status, updated := updated), fills)
  {
    hide Balanced, Do;
    WhenChildrenChange(l, c);
  }

  /** The child of a working leg, and the same child once it has been filled. */
  function WorkingChild(id: nat, parentId: nat, leg: Leg, now: nat): Child {
    NewChild(id, parentId, leg, now).(status := Working)
  }

  function FilledLeg(id: nat, parentId: nat, leg: Leg, now: nat): Child {
    NewChild(id, parentId, leg, now).(filled := leg.filled, remaining := leg.requested - leg.filled,
      status := if leg.filled == leg.requested then Filled else PartiallyFilled)
  }

  function LegFillCall(id: nat, leg: Leg, now: nat): Call { FillCall(id, leg.price, leg.filled, leg.fee, now) }

  lemma LegIsFilled(l0: Ledger, l: Ledger, id: nat, parentId: nat, leg: Leg, now: nat)
    requires !leg.rejected && leg.price > 0.0 && leg.filled > 0.0
    requires Balanced(l) && Grown(l0, l, parentId, WorkingChild(id, parentId, leg, now), [])
    ensures var o := Do(l, LegFillCall(id, leg, now));
            && (o.answer.Reported? <==> leg.filled <= leg.requested && leg.fee >= 0.0)
            && (o.answer.Reported? ==>
                  Grown(l0, o.ledger, parentId, FilledLeg(id, parentId, leg, now),
                        LegFills(id, |l0.fills| + 1, parentId, leg, now)))
  {
    hide Balanced, Do, FilledBy;
    WhenFillsAreAccepted(l, id, leg.price, leg.filled, leg.fee, now);
    ChildIsUnfilled(l, id);
    var o := Do(l, LegFillCall(id, leg, now));
    if o.answer.Reported? {
      assert o.ledger.children[id] == FilledLeg(id, parentId, leg, now);
      assert o.ledger.children == l0.children[id := FilledLeg(id, parentId, leg, now)];
      assert l.fills == l0.fills;
      assert o.answer.fill == LegFill(id, |l0.fills| + 1, parentId, leg, now);
      assert LegFilled(leg) != 0.0;
    }
  }

  // ---------- when nothing throws ----------

  /** What some legs ask for. */
  function Asked(legs: seq<Leg>): real {
    if legs == [] then 0.0 else Asked(legs[..|legs| - 1]) + legs[|legs| - 1].requested
  }

  predicate SoundLeg(leg: Leg) {
    leg.venue != "" && leg.price > 0.0 && leg.fee >= 0.0 && !leg.rejected && 0.0 < leg.filled <= leg.requested
  }

  /** Each leg is filled, at least in part, and together they ask for no more than `quantity`. */
  ghost predicate Sound(legs: seq<Leg>, quantity: real) {
    (forall i :: 0 <= i < |legs| ==> SoundLeg(legs[i])) && Asked(legs) <= quantity
  }

  lemma SoundAt(legs: seq<Leg>, i: nat)
    requires Sound(legs, Asked(legs)) && i < |legs|
    ensures SoundLeg(legs[i]) && Asked(legs[..i]) + legs[i].requested <= Asked(legs)
  {
    AskedGrows(legs, i);
  }

  ghost predicate Smooth(weather: seq<Weather>) {
    forall i, q :: 0 <= i < |weather| && q > 0.0 ==> Sound(weather[i].execution(q), q)
  }

  lemma SoundFits(legs: seq<Leg>, quantity: real)
    requires Sound(legs, quantity)
    ensures Sound(legs, Asked(legs)) && Asked(legs) <= quantity
  {
  }

  lemma SmoothAt(weather: seq<Weather>, i: nat, q: real)
    requires Smooth(weather) && i < |weather| && q > 0.0
    ensures Sound(weather[i].execution(q), q)
  {
  }

  lemma {:induction false} AskedGrows(legs: seq<Leg>, i: nat)
    requires i <= |legs| && forall k :: 0 <= k < |legs| ==> SoundLeg(legs[k])
    ensures Asked(legs[..i]) + (if i < |legs| then legs[i].requested else 0.0) <= Asked(legs)
    decreases |legs| - i
  {
    if i == |legs| {
      assert legs[..i] == legs;
    } else {
      assert legs[..i + 1][..i] == legs[..i];
      AskedGrows(legs, i + 1);
    }
  }

  datatype LegEnd = LegCrashed | LegThrew | LegDone(filled: real)

  /** After a slice: the next one, no more of them, or the end of the run. */
  datatype SliceEnd = GoOn | Enough | Stopped(end: RunEnd)

  datatype RunEnd = RunCrashed | RunEnded

  // ---------- appending to a history ----------

  function NewestAfter(job: nat, newest: Option<nat>, h: seq<Step>): Option<nat>
    decreases |h|
  {
    if h == [] then newest
    else NewestAfter(job, if h[0].job == job then Newest(newest, h[0]) else newest, h[1..])
  }

  lemma {:induction false} PacedAppends(job: nat, newest: Option<nat>, h: seq<Step>, s: Step)
    requires JobPaced(job, newest, h) && s.job == job && OwnCall(job, NewestAfter(job, newest, h), s.call)
    ensures JobPaced(job, newest, h + [s])
    ensures NewestAfter(job, newest, h + [s]) == Newest(NewestAfter(job, newest, h), s)
    decreases |h|
  {
    hide OwnCall;
    if h == [] {
      assert h + [s] == [s] && [s][1..] == [];
    } else {
      assert (h + [s])[1..] == h[1..] + [s];
      PacedAppends(job, if h[0].job == job then Newest(newest, h[0]) else newest, h[1..], s);
    }
  }

  lemma {:induction false} HistoryAppends(l: Ledger, h: seq<Step>, s: Step)
    requires Executes(l, h) && s.created == CreatedBy(Do(DoHistory(l, h), s.call).answer, s.call)
    ensures Executes(l, h + [s]) && DoHistory(l, h + [s]) == Do(DoHistory(l, h), s.call).ledger
    decreases |h|
  {
    hide Do, CreatedBy;
    if h == [] {
      assert h + [s] == [s] && [s][1..] == [];
    } else {
      assert (h + [s])[1..] == h[1..] + [s];
      HistoryAppends(Do(l, h[0].call).ledger, h[1..], s);
    }
  }

  lemma {:induction false} OthersArePaced(job: nat, other: nat, newest: Option<nat>, h: seq<Step>)
    requires job != other && forall k :: 0 <= k < |h| ==> h[k].job == job
    ensures JobPaced(other, newest, h)
    decreases |h|
  {
    if h != [] {
      OthersArePaced(job, other, newest, h[1..]);
    }
  }

  // ---------- what a call does to a parent ----------

  lemma CancelEnds(l: Ledger, id: nat, timestamp: nat)
    requires id in l.parents
    ensures var l' := Do(l, CancelParentCall(id, timestamp)).ledger;
            id in l'.parents && Terminal(l'.parents[id].status)
  {
  }

  /** Once its fills reach its quantity a parent is filled, or was cancelled. */
  lemma FilledUpEnds(l: Ledger, id: nat)
    requires Balanced(l) && id in l.parents && FilledFor(l.fills, id) >= l.parents[id].quantity
    ensures Terminal(l.parents[id].status)
  {
    hide FilledFor, FilledOver, FilledBy, HasLive, HasStatus, Lists;
    assert ParentOk(l.parents[id], l.children);
  }

  /** A call that fills nothing leaves a traded parent traded, or cancelled by it, or filled if it was. */
  lemma TradeGoesOn(l: Ledger, c: Call, id: nat)
    requires Balanced(l) && id in l.parents
    ensures var l' := Do(l, c).ledger;
            InTrade(l, id) ==>
              && id in l'.parents && (!c.CancelParentCall? ==> InTrade(l', id))
              && (FilledFor(l.fills, id) >= l.parents[id].quantity ==>
                    l.parents[id].status.Filled? && l'.parents[id].status.Filled?)
  {
    hide Balanced, Do, FilledFor;
    if InTrade(l, id) {
      FillsAreTold(l, id);
      TradeLasts(l, c, id);
    }
  }

  ghost predicate OwnsNewest(l: Ledger, parentId: nat, newest: Option<nat>) {
    newest.Some? ==> newest.value in l.children && l.children[newest.value].parentId == parentId
  }

  lemma CallKeepsChildren(l: Ledger, c: Call, id: nat)
    requires Balanced(l) && id in l.children
    ensures var l' := Do(l, c).ledger;
            id in l'.children && l'.children[id].parentId == l.children[id].parentId
  {
    hide Balanced, FilledOver, StatusFrom, Refreshed;
    KeysAreIds(l);
  }

  /** The newest child is the job's own, before and after any of its calls. */
  lemma NewestStaysOwn(l: Ledger, parentId: nat, newest: Option<nat>, c: Call)
    requires Balanced(l) && OwnsNewest(l, parentId, newest) && OwnCall(parentId, newest, c)
    ensures var o := Do(l, c);
            OwnsNewest(o.ledger, parentId, Newest(newest, Step(parentId, c, CreatedBy(o.answer, c))))
  {
    hide Balanced;
    if newest.Some? {
      CallKeepsChildren(l, c, newest.value);
    }
  }

  lemma FillAnswers(l: Ledger, c: Call)
    requires c.FillCall?
    ensures var o := Do(l, c); o.answer.Reported? || (o.answer.Threw? && o.ledger == l)
  {
    hide Touch;
  }

  /** A job's own figures never claim more than the ledger has recorded. */
  ghost predicate HonestOn(l: Ledger, parentId: nat, j: Job) {
    && parentId in l.parents && j.requested == l.parents[parentId].quantity
    && 0.0 <= j.filled <= FilledFor(l.fills, parentId) && j.remaining == Shortfall(j.requested, j.filled)
  }

  /** The state in which restore_recoverable leaves a job. */
  function Recovered(p: PersistedJob, now: nat): Job {
    if !p.state.status.Running? then p.state.(recovered := false)
    else if !p.hasRequest then p.state.(recovered := false, status := Failed, nextSliceAt := 0)
    else p.state.(recovered := true, recoveryCount := p.state.recoveryCount + 1, lastRecoveredAt := now)
  }

  /** A recovered job goes on exactly if it was running and its request was stored; one without its request has failed,
      and any other is left as it was. What it has traded is not touched. */
  lemma WhenJobsGoOn(p: PersistedJob, now: nat)
    ensures var j := Recovered(p, now);
            && (j.status.Running? <==> p.state.status.Running? && p.hasRequest)
            && (j.recovered <==> j.status.Running?)
            && (p.state.status.Running? && !p.hasRequest ==> j.status.Failed?)
            && (!p.state.status.Running? ==> j.status == p.state.status)
            && j.recoveryCount == p.state.recoveryCount + (if j.status.Running? then 1 else 0)
            && j.requested == p.state.requested && j.filled == p.state.filled && j.remaining == p.state.remaining
            && j.currentSlice == p.state.currentSlice
  {
  }

  class AlgoScheduler {
    const oms: OrderManagementSystem
    /** The tables the mutation callback writes to. */
    const store: OmsStore
    /** The job's parent order. */
    const parentId: nat
    var job: Job
    /** The state last handed to the state callback, which is what a restart begins from. */
    var stored: Job
    /** How many more effects the process lives to complete. */
    var life: nat
    ghost var origin: Ledger
    ghost var history: seq<Step>

    /** Since `origin` the ledger has been changed by exactly the steps in `history`, all of them this job's and
        each on its own parent or its newest child. */
    ghost predicate Tracked()
      reads this`history, this`origin, oms, store
    {
      && Balanced(oms.View()) && parentId in oms.parents && store.View() == Image(oms.View())
      && Executes(origin, history) && DoHistory(origin, history) == oms.View()
      && JobPaced(parentId, None, history) && (forall k :: 0 <= k < |history| ==> history[k].job == parentId)
      && OwnsNewest(oms.View(), parentId, NewestAfter(parentId, None, history))
    }

    ghost function NewestChild(): Option<nat>
      reads this`history
    {
      NewestAfter(parentId, None, history)
    }

    ghost function Fills(): real
      reads oms
    {
      FilledFor(oms.fills, parentId)
    }

    /** The parent has room for `quantity` more and can take children, unless nothing is wanted. */
    ghost predicate Room(quantity: real)
      reads oms
    {
      && parentId in oms.parents && Fills() + quantity <= oms.parents[parentId].quantity
      && (Fills() < oms.parents[parentId].quantity ==> Open(oms.parents[parentId].status))
    }

    /** Some of the parent has been filled, and its status says so. */
    ghost predicate Trading()
      reads oms
    {
      InTrade(oms.View(), parentId)
    }

    /** What lasts of that: all of it, or once the parent may have been cancelled, that a filled parent is filled. */
    ghost predicate StillTrading(cancelled: bool)
      reads oms
    {
      && (!cancelled ==> Trading()) && parentId in oms.parents
      && (Fills() >= oms.parents[parentId].quantity ==> oms.parents[parentId].status.Filled?)
    }

    ghost predicate Honest(j: Job)
      reads oms
    {
      HonestOn(oms.View(), parentId, j)
    }

    ghost predicate Valid()
      reads this, oms, store
    {
      Tracked() && Honest(job) && Honest(stored)
    }

    /** restore_recoverable for one job: the ledger has been restored, and no child is remembered. A job that was
        running continues from its stored state, or fails if its request is missing. */
    constructor Resume(
      oms: OrderManagementSystem, store: OmsStore, parentId: nat, persisted: PersistedJob, life: nat, now: nat)
      requires Balanced(oms.View()) && parentId in oms.parents && store.View() == Image(oms.View())
      requires HonestOn(oms.View(), parentId, persisted.state)
      ensures Valid() && history == [] && origin == oms.View()
      ensures this.oms == oms && this.store == store && this.parentId == parentId
      ensures job == Recovered(persisted, now)
      ensures stored == if persisted.state.status.Running? && life > 0 then job else persisted.state
    {
      this.oms, this.store, this.parentId, this.life := oms, store, parentId, life;
      this.stored, this.job := persisted.state, persisted.state.(recovered := false);
      this.origin, this.history := oms.View(), [];
      new;
      if persisted.state.status.Running? {
        if !persisted.hasRequest {
          job := job.(status := Failed, nextSliceAt := 0);
        } else {
          job := job.(recovered := true, recoveryCount := job.recoveryCount + 1, lastRecoveredAt := now);
        }
        var crashed := Persist();
      }
    }

    method Dispatch(c: Call) returns (answer: Answer)
      requires Balanced(oms.View())
      modifies oms
      ensures oms.View() == Do(old(oms.View()), c).ledger && answer == Do(old(oms.View()), c).answer
      ensures oms.Told(old(oms.mutations), Do(old(oms.View()), c).mutation)
    {
      hide Balanced, SetStatus, RecordFill, CreateChild, CreateParent, CancelParent;
      KeysAreIds(oms.View());
      match c {
        case ParentCall(r, t) => answer := oms.MakeParent(r, t);
        case ChildCall(r) => answer := oms.MakeChild(r);
        case WorkCall(id, t) => var changed := oms.MarkChildWorking(id, t); answer := Done(changed);
        case FillCall(id, price, quantity, fee, t) => answer := oms.RecordChildFill(id, price, quantity, fee, t);
        case CancelChildCall(id, t) => var changed := oms.ChangeStatus(id, Cancelled, t); answer := Done(changed);
        case RejectChildCall(id, t) => var changed := oms.ChangeStatus(id, Rejected, t); answer := Done(changed);
        case CancelParentCall(id, t) => var changed := oms.CancelWholeParent(id, t); answer := Done(changed);
      }
    }

    /** One call to the order management system, unless the process dies first. */
    method Issue(c: Call) returns (crashed: bool, answer: Answer)
      requires Tracked() && OwnCall(parentId, NewestChild(), c)
      modifies this`life, this`history, oms, store
      ensures Tracked()
      ensures var before := old(oms.View());
              if crashed then oms.View() == before && history == old(history)
              else
                && oms.View() == Do(before, c).ledger && answer == Do(before, c).answer
                && NewestChild() == Newest(old(NewestChild()), Step(parentId, c, CreatedBy(answer, c)))
    {
      hide Balanced, Do, OwnCall, CreatedBy;
      if life == 0 { return true, Threw; }
      life := life - 1;
      ghost var before := oms.View();
      var told := |oms.mutations|;
      answer := Dispatch(c);
      if |oms.mutations| > told { store.OnMutation(oms.mutations[told], oms.children); }
      ghost var s := Step(parentId, c, CreatedBy(answer, c));
      CallKeepsBalance(before, c);
      CallIsSaved(before, c);
      CallKeepsParents(before, c, parentId);
      HistoryAppends(origin, history, s);
      PacedAppends(parentId, None, history, s);
      NewestStaysOwn(before, parentId, NewestAfter(parentId, None, history), c);
      history := history + [s];
      crashed := false;
    }

    /** The state callback, unless the process dies first. */
    method Persist() returns (crashed: bool)
      modifies this`life, this`stored
      ensures crashed <==> old(life) == 0
      ensures stored == if crashed then old(stored) else job
    {
      if life == 0 { return true; }
      life := life - 1;
      stored := job;
      crashed := false;
    }

    /** Issue, with what the caller needs to know about its own figures. */
    method Call(c: Call) returns (crashed: bool, answer: Answer)
      requires Valid() && OwnCall(parentId, NewestChild(), c) && !c.FillCall?
      modifies this`life, this`history, oms, store
      ensures Valid() && Fills() == old(Fills())
      ensures !crashed ==> oms.View() == Do(old(oms.View()), c).ledger && answer == Do(old(oms.View()), c).answer
      ensures !crashed && c.CancelParentCall? ==> Terminal(oms.parents[parentId].status)
      ensures old(Trading()) ==> StillTrading(c.CancelParentCall?)
      ensures !crashed ==> NewestChild() == Newest(old(NewestChild()), Step(parentId, c, CreatedBy(answer, c)))
    {
      hide Tracked, Do, OwnCall, CreatedBy;
      ghost var before := oms.View();
      TrackedIsBalanced();
      CallFills(before, c, parentId);
      CallKeepsParents(before, c, parentId);
      TradeGoesOn(before, c, parentId);
      if c.CancelParentCall? {
        OwnParent(c);
        CancelEnds(before, parentId, c.timestamp);
      }
      crashed, answer := Issue(c);
    }

    lemma TrackedIsBalanced()
      requires Tracked()
      ensures Balanced(oms.View()) && parentId in oms.parents && OwnsNewest(oms.View(), parentId, NewestChild())
    {
    }

    lemma OwnParent(c: Call)
      requires OwnCall(parentId, NewestChild(), c) && c.CancelParentCall?
      ensures c.parentId == parentId
    {
    }

    /** record_fill for the newest child. */
    method FillNewest(
        id: nat, price: real, quantity: real, fee: real, timestamp: nat) returns (crashed: bool, threw: bool)
      requires Valid() && NewestChild() == Some(id)
      modifies this`life, this`history, oms, store
      ensures Valid() && NewestChild() == old(NewestChild())
      ensures Fills() == old(Fills()) + (if !crashed && !threw then quantity else 0.0)
      ensures !crashed && !threw ==> quantity > 0.0
      ensures var o := Do(old(oms.View()), FillCall(id, price, quantity, fee, timestamp));
              !crashed ==> oms.View() == o.ledger && (if threw then o.answer.Threw? else o.answer.Reported?)
      ensures old(Trading()) || (!crashed && !threw) ==> Trading()
    {
      hide Tracked, Do, Balanced, InTrade;
      ghost var before := oms.View();
      var c := FillCall(id, price, quantity, fee, timestamp);
      TrackedIsBalanced();
      FillAnswers(before, c);
      CallFills(before, c, parentId);
      CallKeepsParents(before, c, parentId);
      TradeGoesOn(before, c, parentId);
      if Do(before, c).answer.Reported? { FillTrades(before, c); }
      var answer;
      crashed, answer := Issue(c);
      threw := answer.Threw?;
    }

    lemma ValidIsBalanced()
      requires Valid()
      ensures Balanced(oms.View()) && parentId in oms.parents
    {
      hide Balanced;
    }

    /** A leg whose child has been created and is not rejected: work it, fill it and cancel what is left. */
    method WorkLeg(id: nat, leg: Leg, now: nat, ghost l0: Ledger) returns (end: LegEnd)
      requires Valid() && NewestChild() == Some(id) && !leg.rejected && leg.price > 0.0 && leg.requested > 0.0
      requires Grown(l0, oms.View(), parentId, NewChild(id, parentId, leg, now), [])
      modifies this`life, this`history, oms, store
      ensures Valid()
      ensures if end.LegDone? then Fills() == old(Fills()) + end.filled && end.filled == LegFilled(leg)
              else Fills() >= old(Fills())
      ensures Fills() <= old(Fills()) + LegFilled(leg)
      ensures !end.LegCrashed? ==> (end.LegDone? <==> FillsWell(leg))
      ensures end.LegDone? ==>
                Grown(l0, oms.View(), parentId, LegChild(id, parentId, leg, now),
                      LegFills(id, |l0.fills| + 1, parentId, leg, now))
      ensures old(Trading()) || Fills() > old(Fills()) ==> Trading()
    {
      hide Valid, Do, Balanced, Grown, Trading, FilledFor, InTrade, NewestAfter, OwnCall;
      ghost var child, fills := NewChild(id, parentId, leg, now), LegFills(id, |l0.fills| + 1, parentId, leg, now);
      ValidIsBalanced();
      LegIsChanged(l0, oms.View(), parentId, child, [], WorkCall(id, now));
      OwnNewest(id, now);
      var crashed, answer := Call(WorkCall(id, now));
      if crashed { return LegCrashed; }
      child := WorkingChild(id, parentId, leg, now);
      assert Grown(l0, oms.View(), parentId, child, []);
      ValidIsBalanced();
      if leg.filled > 0.0 {
        LegIsFilled(l0, oms.View(), id, parentId, leg, now);
        var threw;
        crashed, threw := FillNewest(id, leg.price, leg.filled, leg.fee, now);
        if crashed { return LegCrashed; }
        if threw { return LegThrew; }
        child := FilledLeg(id, parentId, leg, now);
      }
      assert Grown(l0, oms.View(), parentId, child, fills);
      if leg.remaining > 0.0 {
        ValidIsBalanced();
        LegIsChanged(l0, oms.View(), parentId, child, fills, CancelChildCall(id, now));
        OwnNewest(id, now);
        crashed, answer := Call(CancelChildCall(id, now));
        if crashed { return LegCrashed; }
      }
      end := LegDone(if leg.filled > 0.0 then leg.filled else 0.0);
    }

    lemma OwnNewest(id: nat, now: nat)
      requires NewestChild() == Some(id)
      ensures OwnCall(parentId, NewestChild(), WorkCall(id, now))
      ensures OwnCall(parentId, NewestChild(), CancelChildCall(id, now))
      ensures OwnCall(parentId, NewestChild(), RejectChildCall(id, now))
    {
      hide NewestAfter;
    }

    /** One leg: create the child, then reject it, or work it, fill it and cancel what is left. Unless the process
        dies it is done exactly if it can be recorded, and then one child and its fill have been added. */
    method RunLeg(leg: Leg, now: nat) returns (end: LegEnd)
      requires Valid()
      modifies this`life, this`history, oms, store
      ensures Valid()
      ensures if end.LegDone? then Fills() == old(Fills()) + end.filled && end.filled == LegFilled(leg)
              else Fills() >= old(Fills())
      ensures Fills() <= old(Fills()) + LegFilled(leg)
      ensures !end.LegCrashed? ==> (end.LegDone? <==> LegTaken(old(oms.View()), parentId, leg))
      ensures end.LegDone? ==>
                var id := |old(oms.children)| + 1;
                Grown(old(oms.View()), oms.View(), parentId, LegChild(id, parentId, leg, now),
                      LegFills(id, |old(oms.fills)| + 1, parentId, leg, now))
      ensures old(Trading()) || Fills() > old(Fills()) ==> Trading()
    {
      hide Valid, Do, Balanced, Trading, FilledFor, InTrade, NewestAfter;
      ghost var l0 := oms.View();
      ValidIsBalanced();
      var request := ChildRequest(parentId, leg.venue, leg.price, leg.requested, now);
      LegIsCreated(l0, request);
      WhenChildrenAreAccepted(l0, request);
      var crashed, answer := Call(ChildCall(request));
      if crashed { return LegCrashed; }
      if answer.Threw? { return LegThrew; }
      var id := answer.id;
      if leg.rejected {
        ValidIsBalanced();
        LegIsChanged(l0, oms.View(), parentId, NewChild(id, parentId, leg, now), [], RejectChildCall(id, now));
        crashed, answer := Call(RejectChildCall(id, now));
        return if crashed then LegCrashed else LegDone(0.0);
      }
      end := WorkLeg(id, leg, now, l0);
    }

    lemma LegHasRoom(leg: Leg, quantity: real)
      requires Room(quantity) && SoundLeg(leg) && leg.requested <= quantity
      ensures LegTaken(oms.View(), parentId, leg)
    {
    }

    lemma RoomInAccount(quantity: real)
      requires Valid() && Room(0.0) && job.filled == Fills() && quantity <= Shortfall(job.requested, job.filled)
      ensures Room(quantity)
    {
      hide Tracked, FilledFor;
    }

    lemma RoomAfterTrade(quantity: real)
      requires Valid() && Trading() && Fills() + quantity <= job.requested
      ensures Room(quantity)
    {
      hide Tracked, Balanced, FilledFor;
      TrackedIsBalanced();
      FillsAreTold(oms.View(), parentId);
    }

    lemma RoomIsRequested(quantity: real)
      requires Valid() && Room(quantity)
      ensures Fills() + quantity <= job.requested
    {
      hide Tracked, FilledFor;
    }

    /** All legs of one slice; the first that throws, or a crash, ends it. None throws if they are sound and ask for no
        more than there is room for. */
    method RunLegs(legs: seq<Leg>, now: nat) returns (end: LegEnd)
      requires Valid()
      modifies this`life, this`history, oms, store
      ensures Valid()
      ensures if end.LegDone? then Fills() == old(Fills()) + Executed(legs) && end.filled == Executed(legs)
              else Fills() >= old(Fills())
      ensures Fills() <= old(Fills()) + Executed(legs)
      ensures old(Trading()) || Fills() > old(Fills()) ==> Trading()
      ensures Sound(legs, Asked(legs)) && old(Room(Asked(legs))) ==>
                !end.LegThrew? && (end.LegDone? ==> Room(0.0))
    {
      hide Valid, Trading, Room, Sound, LegTaken;
      var filled := 0.0;
      for i := 0 to |legs|
        invariant Valid() && filled == Executed(legs[..i]) && Fills() == old(Fills()) + filled && filled >= 0.0
        invariant old(Trading()) || Fills() > old(Fills()) ==> Trading()
        invariant Sound(legs, Asked(legs)) && old(Room(Asked(legs))) ==> Room(Asked(legs) - Asked(legs[..i]))
      {
        assert legs[..i + 1][..i] == legs[..i];
        ExecutedGrows(legs, i + 1);
        ghost var room := Asked(legs) - Asked(legs[..i]);
        if Sound(legs, Asked(legs)) && old(Room(Asked(legs))) {
          SoundAt(legs, i);
          LegHasRoom(legs[i], room);
          RoomIsRequested(room);
        }
        var leg := RunLeg(legs[i], now);
        if !leg.LegDone? { return leg; }
        filled := filled + leg.filled;
        if Sound(legs, Asked(legs)) && old(Room(Asked(legs))) {
          RoomAfterTrade(room - legs[i].requested);
        }
      }
      assert legs[..|legs|] == legs;
      end := LegDone(filled);
    }

    /** The job's own account after a slice: what the slice filled is added, and the state is stored. */
    method CloseSlice(index: nat, filled: real) returns (crashed: bool)
      requires Tracked() && Honest(stored) && filled >= 0.0
      requires parentId in oms.parents && job.requested == oms.parents[parentId].quantity
      requires 0.0 <= job.filled && job.filled + filled <= Fills()
      modifies this`life, this`job, this`stored
      ensures Valid() && job.currentSlice == index + 1 && job.status == old(job).status
      ensures job.filled == old(job).filled + filled && job.requested == old(job).requested
    {
      hide Balanced, Executes, JobPaced, DoHistory;
      var total := job.filled + filled;
      job := job.(filled := total, remaining := Shortfall(job.requested, total), currentSlice := index + 1,
          nextSliceAt := 0);
      crashed := Persist();
    }

    /** The catch clause: cancel the parent, mark the job failed, store it. */
    method Fail(now: nat) returns (end: RunEnd)
      requires Valid()
      modifies this`life, this`history, this`job, this`stored, oms, store
      ensures Valid() && Fills() == old(Fills()) && (end.RunEnded? ==> job.status.Failed?)
      ensures end.RunEnded? ==> Terminal(oms.parents[parentId].status)
      ensures old(Trading()) ==> StillTrading(true)
    {
      hide Tracked, Trading;
      var crashed, _ := Call(CancelParentCall(parentId, now));
      if crashed { return RunCrashed; }
      job := job.(status := Failed, completedAt := now);
      crashed := Persist();
      return if crashed then RunCrashed else RunEnded;
    }

    /** The end of the schedule: complete if nothing remains, otherwise cancel the rest of the parent. */
    method Finish(cancelled: bool, now: nat) returns (end: RunEnd)
      requires Valid()
      modifies this`life, this`history, this`job, this`stored, oms, store
      ensures Valid() && Fills() == old(Fills()) && job.filled == old(job).filled
      ensures end.RunEnded? ==> Terminal(oms.parents[parentId].status)
      ensures end.RunEnded? ==>
                job.status == if cancelled && old(job).remaining > 0.0 then CancelledByUser else Completed
      ensures old(Trading()) ==> StillTrading(true)
    {
      hide Tracked, Terminal, Balanced, FilledFor, OwnsNewest, NewestAfter, Trading;
      var crashed: bool;
      TrackedIsBalanced();
      TradingIsTold();
      if job.remaining <= 0.0 {
        FilledUpEnds(oms.View(), parentId);
        job := job.(status := Completed);
      } else {
        var answer;
        crashed, answer := Call(CancelParentCall(parentId, now));
        if crashed { return RunCrashed; }
        job := job.(status := if cancelled then CancelledByUser else Completed);
      }
      job := job.(completedAt := now, nextSliceAt := 0);
      crashed := Persist();
      return if crashed then RunCrashed else RunEnded;
    }

    lemma TradingLasts()
      requires Valid()
      ensures Trading() ==> StillTrading(true)
    {
      hide Tracked, Trading, StillTrading;
      TradingIsTold();
    }

    lemma TradingIsTold()
      requires Tracked()
      ensures Trading() ==> StillTrading(true)
    {
      hide Balanced, FilledFor;
      TrackedIsBalanced();
      FillsAreTold(oms.View(), parentId);
    }

    /** The wait before a slice: a fresh deadline is stored, a stored one is kept, one that has passed is now. */
    method Wait(delay: nat, now: nat) returns (crashed: bool)
      requires Valid()
      modifies this`life, this`job, this`stored
      ensures Valid() && job.filled == old(job).filled && job.requested == old(job).requested
      ensures job.currentSlice == old(job).currentSlice && job.status == old(job).status
      ensures if old(job).nextSliceAt != 0 then !crashed && job == old(job) && stored == old(stored)
              else job.nextSliceAt == now + delay && (!crashed ==> stored == job)
    {
      hide Tracked;
      if job.nextSliceAt > now || job.nextSliceAt != 0 { return false; }
      job := job.(nextSliceAt := now + delay);
      crashed := Persist();
    }

    /** Cancelled before a slice: the parent is cancelled, and the job's last state is not stored. */
    method CancelNow(now: nat) returns (end: RunEnd)
      requires Valid()
      modifies this`life, this`history, this`job, oms, store
      ensures Valid() && Fills() == old(Fills()) && job.filled == old(job).filled
      ensures end.RunEnded? ==> Terminal(oms.parents[parentId].status) && job.status.CancelledByUser?
      ensures old(Trading()) ==> StillTrading(true)
    {
      hide Tracked, Terminal, Trading;
      var crashed, _ := Call(CancelParentCall(parentId, now));
      if crashed { return RunCrashed; }
      job := job.(status := CancelledByUser, completedAt := now);
      end := RunEnded;
    }

    /** What the job's account says remains; the deadline has been used up. */
    method TakeRemaining() returns (remaining: real)
      requires Valid()
      modifies this`job
      ensures Valid() && job == old(job).(nextSliceAt := 0)
      ensures remaining == Shortfall(job.requested, job.filled)
    {
      hide Tracked;
      remaining := job.remaining;
      job := job.(nextSliceAt := 0);
    }

    lemma Account()
      requires Valid()
      ensures job.remaining == Shortfall(job.requested, job.filled) && job.remaining >= 0.0
    {
      hide Tracked;
    }

    /** The legs of a slice, and then its account or the catch clause. */
    method RunSlice(index: nat, legs: seq<Leg>, now: nat) returns (stop: bool, end: RunEnd)
      requires Valid()
      modifies this`life, this`history, this`job, this`stored, oms, store
      ensures Valid() && old(Fills()) <= Fills() <= old(Fills()) + Executed(legs)
      ensures stop && end.RunEnded? ==> Terminal(oms.parents[parentId].status) && job.status.Failed?
      ensures !stop ==> job.filled - old(job).filled == Fills() - old(Fills()) && job.requested == old(job).requested
      ensures !stop ==> Fills() == old(Fills()) + Executed(legs) && job.status == old(job).status
      ensures old(Trading()) || Fills() > old(Fills()) ==> if stop then StillTrading(true) else Trading()
      ensures Sound(legs, Asked(legs)) && old(Room(Asked(legs))) ==> !(stop && end.RunEnded?) && (!stop ==> Room(0.0))
    {
      hide Tracked, Terminal, Executed, Trading, Sound, Room;
      stop, end := true, RunCrashed;
      var filled := RunLegs(legs, now);
      match filled {
        case LegCrashed => TradingIsTold();
        case LegThrew => end := Fail(now);
        case LegDone(amount) =>
          TrackedIsBalanced();
          TradingIsTold();
          ExecutedIsPositive(legs);
          stop := CloseSlice(index, amount);
      }
    }

    /** One slice: cancelled, waited for, or executed. */
    method MeetSlice(index: nat, slice: Slice, weather: Weather, now: nat) returns (next: SliceEnd)
      requires Valid()
      modifies this`life, this`history, this`job, this`stored, oms, store
      ensures Valid() && Fills() >= old(Fills())
      ensures var remaining := Shortfall(old(job).requested, old(job).filled);
              && (Moderated(weather) ==> Fills() - old(Fills()) <= Positive(Least(slice.quantity, remaining)))
              && (next.GoOn? ==>
                    !weather.cancelBefore &&
                    Fills() - old(Fills()) ==
                      if slice.delay > 0 && weather.cancelDuringWait then 0.0
                      else SliceTrades(slice, weather, remaining))
              && (next.GoOn? && !(slice.delay > 0 && weather.cancelDuringWait) ==> remaining > 0.0)
              && (next.Enough? ==>
                    !weather.cancelBefore && !(slice.delay > 0 && weather.cancelDuringWait) && remaining <= 0.0)
      ensures next.Enough? || (next == Stopped(RunEnded) && !job.status.Failed?) ==> Fills() == old(Fills())
      ensures !next.Stopped? || (next.end.RunEnded? && !job.status.Failed?) ==>
                job.filled - old(job).filled == Fills() - old(Fills())
      ensures !next.Stopped? ==> job.requested == old(job).requested
      ensures next == Stopped(RunEnded) ==>
                && Terminal(oms.parents[parentId].status)
                && (job.status.Failed? || (job.status.CancelledByUser? && weather.cancelBefore))
      ensures old(Trading()) || Fills() > old(Fills()) ==> if next.Stopped? then StillTrading(true) else Trading()
      ensures Smooth([weather]) && old(Room(0.0)) && old(job).filled == old(Fills()) ==>
                if next.Stopped? then next.end.RunCrashed? || !job.status.Failed? else Room(0.0)
    {
      hide Valid, Terminal, Executed, Trading, StillTrading, Room, Smooth, Sound, Asked;
      TradingLasts();
      Account();
      if weather.cancelBefore {
        var end := CancelNow(now);
        return Stopped(end);
      }
      if slice.delay > 0 {
        var crashed := Wait(slice.delay, now);
        if crashed { return Stopped(RunCrashed); }
        if weather.cancelDuringWait { return GoOn; }
      }
      var remaining := TakeRemaining();
      if remaining <= 0.0 { return Enough; }
      var quantity := if slice.quantity < remaining then slice.quantity else remaining;
      if quantity > 0.0 && weather.quoted && weather.routed {
        ExecutedIsPositive(weather.execution(quantity));
        if Smooth([weather]) && old(Room(0.0)) && old(job).filled == old(Fills()) {
          SmoothAt([weather], 0, quantity);
          SoundFits(weather.execution(quantity), quantity);
          RoomInAccount(Asked(weather.execution(quantity)));
        }
        var stop, end := RunSlice(index, weather.execution(quantity), now);
        if stop { return Stopped(end); }
      }
      next := GoOn;
    }

    /** The slices from the stored one on, until they are used up, nothing remains, or the job stops. */
    method RunSlices(schedule: seq<Slice>, weather: seq<Weather>, clock: nat -> nat) returns (stop: bool, end: RunEnd)
      requires Valid() && |weather| == |schedule|
      modifies this`life, this`history, this`job, this`stored, oms, store
      ensures Valid() && Fills() >= old(Fills())
      ensures Moderate(weather) ==> Fills() - old(Fills()) <= old(job).remaining
      ensures Moderate(weather) && old(job).currentSlice <= |schedule| ==>
                Fills() - old(Fills()) <= Planned(schedule[old(job).currentSlice..])
      ensures stop && end.RunEnded? ==> Terminal(oms.parents[parentId].status)
      ensures stop && end.RunEnded? ==>
                job.status.Failed? || (job.status.CancelledByUser? && !Undisturbed(weather, old(job).currentSlice))
      ensures !stop || (end.RunEnded? && !job.status.Failed?) ==>
                && job.filled - old(job).filled == Fills() - old(Fills())
                && Fills() - old(Fills()) == Traded(schedule, weather, old(job).currentSlice, old(job).remaining)
      ensures Fills() > old(Fills()) ==> if stop then StillTrading(true) else Trading()
      ensures Smooth(weather) && old(Room(0.0)) && old(job).filled == old(Fills()) ==>
                !(stop && end.RunEnded? && job.status.Failed?)
    {
      hide Valid, Terminal, Planned, Executed, Moderate, Moderated, Trading, Traded, StillTrading, Room, Smooth;
      Account();
      var index := if job.currentSlice < |schedule| then job.currentSlice else |schedule|;
      ghost var start, goal := index, Traded(schedule, weather, job.currentSlice, job.remaining);
      TradedFrom(schedule, weather, job.currentSlice, job.remaining);
      TradedFrom(schedule, weather, |schedule|, job.remaining);
      PlannedIsPositive(schedule[start..index]);
      while index < |schedule|
        invariant index <= |schedule| && Valid() && Fills() >= old(Fills())
        invariant job.filled - old(job).filled == Fills() - old(Fills()) && job.requested == old(job).requested
        invariant Moderate(weather) ==> Fills() - old(Fills()) <= old(job).remaining
        invariant start <= index && (start < |schedule| ==> start == old(job).currentSlice)
        invariant goal ==
                    Fills() - old(Fills()) + Traded(schedule, weather, index, Shortfall(job.requested, job.filled))
        invariant Fills() > old(Fills()) ==> Trading()
        invariant Smooth(weather) && old(Room(0.0)) && old(job).filled == old(Fills()) ==> Room(0.0)
        invariant Moderate(weather) ==> Fills() - old(Fills()) <= Planned(schedule[start..index])
      {
        TradedFrom(schedule, weather, index, Shortfall(job.requested, job.filled));
        PlannedMore(schedule, start, index);
        PlannedGrows(schedule, start, index);
        PlannedGrows(schedule, start, index + 1);
        EachWeather(weather, index);
        var next := MeetSlice(index, schedule[index], weather[index], clock(index));
        if next.Stopped? { return true, next.end; }
        if next.Enough? { break; }
        index := index + 1;
      }
      PlannedGrows(schedule, start, index);
      TradedFrom(schedule, weather, index, Shortfall(job.requested, job.filled));
      return false, RunEnded;
    }

    /** run_job, from the stored slice on. However it ends and wherever it crashes, it has touched only its own
        parent and its newest child, and claims no more than the ledger has recorded. If it was not cut short its
        parent has ended, and unless a call threw it has traded exactly what its slices trade, and its account says
        so: in fair weather all that was planned and remained. If the routes are moderate, it fills neither more than
        its account said remained nor more than its slices planned. A parent that it filled up is filled. With smooth
        routes, room in the parent and an exact account it never fails. */
    method RunJob(
        schedule: seq<Slice>, weather: seq<Weather>, clock: nat -> nat, cancelAtEnd: bool) returns (end: RunEnd)
      requires Valid() && |weather| == |schedule|
      modifies this`life, this`history, this`job, this`stored, oms, store
      ensures Valid() && Fills() >= old(Fills())
      ensures end.RunEnded? ==> Terminal(oms.parents[parentId].status)
      ensures Moderate(weather) ==> Fills() - old(Fills()) <= old(job).remaining
      ensures Moderate(weather) && old(job).currentSlice <= |schedule| ==>
                Fills() - old(Fills()) <= Planned(schedule[old(job).currentSlice..])
      ensures end.RunEnded? && !job.status.Failed? ==>
                && job.filled - old(job).filled == Fills() - old(Fills())
                && Fills() - old(Fills()) == Traded(schedule, weather, old(job).currentSlice, old(job).remaining)
      ensures end.RunEnded? && !job.status.Failed? && old(job).currentSlice <= |schedule| &&
              FairWeather(weather, old(job).currentSlice) ==>
                Fills() - old(Fills()) == Least(old(job).remaining, Planned(schedule[old(job).currentSlice..]))
      ensures end.RunEnded? && !job.status.Failed? && Undisturbed(weather, old(job).currentSlice) && !cancelAtEnd ==>
                job.status.Completed?
      ensures Smooth(weather) && old(Room(0.0)) && old(job).filled == old(Fills()) ==>
                !(end.RunEnded? && job.status.Failed?)
      ensures Fills() > old(Fills()) ==>
                && parentId in oms.parents
                && (Fills() >= oms.parents[parentId].quantity ==> oms.parents[parentId].status.Filled?)
    {
      hide Valid, Terminal, Planned, Executed, Moderate, Trading, FairWeather, Traded, Undisturbed, Smooth, Room;
      Account();
      if job.currentSlice <= |schedule| && FairWeather(weather, job.currentSlice) {
        FairWeatherTradesAll(schedule, weather, job.currentSlice, job.remaining);
      }
      var stop;
      stop, end := RunSlices(schedule, weather, clock);
      if !stop {
        TradingLasts();
        Account();
        end := Finish(cancelAtEnd, clock(|schedule|));
      }
    }

    /** No parent is overfilled by the job, on whatever ledger it started, and the ledger it leaves is one from
        which the next life may start. */
    lemma NeverOverfills()
      requires Tracked() && Balanced(origin) && Reserved(origin)
      ensures var l := oms.View(); Balanced(l) && Reserved(l) && NotOverfilled(l)
    {
      hide Balanced, Reserved, NotOverfilled, Executes, JobPaced, DoHistory, Image;
      forall other ensures JobPaced(other, Lookup(map[], other), history) {
        if other != parentId {
          OthersArePaced(parentId, other, None, history);
        }
      }
      PacedJobsNeverOverfill(origin, map[], history);
    }
  }

  // ---------- lives ----------

  /** What one life of the process meets: how many effects it lives to complete, and its slices' weather. */
  datatype Life = Life(effects: nat, start: nat, weather: seq<Weather>, clock: nat -> nat, cancelAtEnd: bool)

  /** The tables as a process finds them when it starts: they hold a ledger without over-allocation, and the job's
      stored state does not claim more than was filled. */
  ghost predicate Recoverable(t: Tables, parentId: nat, j: Job) {
    var l := Restored(Loaded(t));
    Balanced(l) && Reserved(l) && t == Image(l) && HonestOn(l, parentId, j)
  }

  lemma StillRecoverable(l: Ledger, parentId: nat, j: Job)
    requires Balanced(l) && Reserved(l) && HonestOn(l, parentId, j)
    ensures Recoverable(Image(l), parentId, j) && Restored(Loaded(Image(l))) == l
  {
    hide Balanced, Reserved, Image, Loaded, Restored, HonestOn;
    RestoreUndoesCrash(l);
  }

  lemma ImageIsKeyed(l: Ledger)
    requires Balanced(l)
    ensures Keyed(Image(l).parents)
  {
    hide ParentOk, FilledFor, FilledBy, FillRows, FillsOk;
  }

  /** What a job's account says when it is submitted. */
  function FirstState(quantity: real): Job { Job(quantity, 0.0, quantity, 0, 0, Running, 0, false, 0, 0) }

  lemma FirstStateIsHonest(l: Ledger, r: ParentRequest, t: nat)
    requires Balanced(l) && CreateParent(l, r, t).answer.Id?
    ensures var o := CreateParent(l, r, t); HonestOn(o.ledger, o.answer.id, FirstState(r.quantity))
  {
    hide FilledFor, FilledBy, ParentOk, ChildAdds, FilledOver, FillsOk;
    assert ChildrenOf(l.children, l.nextParent) == {};
    NeverFilledFor(l.fills, l.children, l.nextParent);
  }

  /** submit: create the parent and store the job's first state, from which its lives may start. None where
      create_parent throws. */
  method SubmitJob(oms: OrderManagementSystem, store: OmsStore, request: ParentRequest, now: nat)
    returns (parentId: Option<nat>, persisted: PersistedJob)
    requires Balanced(oms.View()) && Reserved(oms.View()) && store.View() == Image(oms.View())
    modifies oms, store
    ensures parentId.None? <==> request.symbol == "" || request.quantity <= 0.0
    ensures if parentId.None? then oms.View() == old(oms.View()) && store.View() == old(store.View())
            else
              && Recoverable(store.View(), parentId.value, persisted.state) && store.View() == Image(oms.View())
              && persisted == PersistedJob(FirstState(request.quantity), true)
  {
    hide Balanced, Reserved, Image, Loaded, Restored, HonestOn, Recoverable, Persisted;
    ghost var l := oms.View();
    var c := ParentCall(request, now);
    CallIsSaved(l, c);
    CallKeepsBalance(l, c);
    NewParentKeepsRoom(l, request, now);
    var told := |oms.mutations|;
    var answer := oms.MakeParent(request, now);
    SavedByCallback(l, CreateParent(l, request, now));
    if |oms.mutations| > told { store.OnMutation(oms.mutations[told], oms.children); }
    persisted := PersistedJob(FirstState(request.quantity), true);
    if answer.Threw? { return None, persisted; }
    FirstStateIsHonest(l, request, now);
    StillRecoverable(oms.View(), answer.id, persisted.state);
    parentId := Some(answer.id);
  }

  lemma SavedByCallback(l: Ledger, o: Outcome)
    ensures Persisted(Image(l), o) ==
              if o.mutation.None? then Image(l) else Saved(Image(l), o.mutation.value, o.ledger.children)
  {
  }

  /** One life: a new process loads the tables, restores its ledger, recovers the job and runs it, until it is done
      or dead. A job that is over, or that was stored without its request, does nothing, and the latter has failed. */
  method RunLife(store: OmsStore, parentId: nat, persisted: PersistedJob, schedule: seq<Slice>, life: Life)
    returns (left: PersistedJob)
    requires Recoverable(store.View(), parentId, persisted.state) && |life.weather| == |schedule|
    modifies store
    ensures Recoverable(store.View(), parentId, left.state) && left.hasRequest == persisted.hasRequest
    ensures NotOverfilled(Restored(Loaded(store.View())))
    ensures FilledFor(Restored(Loaded(old(store.View()))).fills, parentId) <=
              FilledFor(Restored(Loaded(store.View())).fills, parentId)
    ensures !persisted.hasRequest || !persisted.state.status.Running? ==>
              store.View() == old(store.View()) && !(left.state.status.Running? && life.effects > 0)
  {
    hide Balanced, Reserved, NotOverfilled, Image, Loaded, Restored, FilledFor, Keyed, Recovered;
    ghost var l := Restored(Loaded(store.View()));
    ImageIsKeyed(l);
    WhenJobsGoOn(persisted, life.start);
    var recovery := store.Load();
    var oms := new OrderManagementSystem();
    oms.RestoreFrom(recovery);
    var scheduler := new AlgoScheduler.Resume(oms, store, parentId, persisted, life.effects, life.start);
    if scheduler.job.status.Running? {
      var _ := scheduler.RunJob(schedule, life.weather, life.clock, life.cancelAtEnd);
    }
    left := PersistedJob(scheduler.stored, persisted.hasRequest);
    scheduler.NeverOverfills();
    StillRecoverable(oms.View(), parentId, left.state);
  }

  /** Crash-safe execution by the worker itself: over any number of lives, each cut short after any number of
      effects, no parent is overfilled and nothing filled is forgotten. */
  method RunLives(store: OmsStore, parentId: nat, persisted: PersistedJob, schedule: seq<Slice>, lives: seq<Life>)
    returns (left: PersistedJob)
    requires Recoverable(store.View(), parentId, persisted.state)
    requires forall k :: 0 <= k < |lives| ==> |lives[k].weather| == |schedule|
    modifies store
    ensures Recoverable(store.View(), parentId, left.state) && left.hasRequest == persisted.hasRequest
    ensures NotOverfilled(Restored(Loaded(store.View())))
    ensures FilledFor(Restored(Loaded(old(store.View()))).fills, parentId) <=
              FilledFor(Restored(Loaded(store.View())).fills, parentId)
  {
    hide Balanced, Reserved, NotOverfilled, Image, Loaded, Restored, FilledFor, HonestOn;
    left := persisted;
    ReservedMeansNoOverfill(Restored(Loaded(store.View())));
    for k := 0 to |lives|
      invariant Recoverable(store.View(), parentId, left.state) && left.hasRequest == persisted.hasRequest
      invariant NotOverfilled(Restored(Loaded(store.View())))
      invariant FilledFor(Restored(Loaded(old(store.View()))).fills, parentId) <=
                  FilledFor(Restored(Loaded(store.View())).fills, parentId)
    {
      left := RunLife(store, parentId, left, schedule, lives[k]);
    }
  }
}
