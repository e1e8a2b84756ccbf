/** The Binance synchronizer: it bridges a snapshot with overlapping ranges of update ids, and numbers what it
    accepts for a Level-2 book downstream. */
module Binance {
  import opened Depth
  import opened Level2

  datatype DepthUpdate = DepthUpdate(
    valid: bool, ignored: bool, first: nat, final: nat, timestamp: nat, bids: seq<PriceLevel>, asks: seq<PriceLevel>)

  datatype VenueSnapshot = VenueSnapshot(
    valid: bool, lastUpdateId: nat, timestamp: nat, bids: seq<PriceLevel>, asks: seq<PriceLevel>)

  datatype SyncStatus = WaitingForSnapshot | Synchronizing | Synchronized | Stale

  datatype SyncResult = SyncResult(
    accepted: bool, ignored: bool, snapshotRequired: bool, status: SyncStatus, updates: seq<Update>)

  datatype Sync = Sync(symbol: string, status: SyncStatus, lastId: nat, normalized: nat)

  const VENUE := "BINANCE"

  function UpdateFor(level: PriceLevel, symbol: string, sequence: nat, timestamp: nat, side: BookSide): Update {
    Update(VENUE, symbol, sequence, timestamp, side,
           if level.quantity <= 0.0 then Delete else Upsert, level.price, level.quantity)
  }

  function UpdatesFor(
      levels: seq<PriceLevel>, symbol: string, sequence: nat, timestamp: nat, side: BookSide): (us: seq<Update>)
    ensures |us| == |levels|
    ensures forall k :: 0 <= k < |us| ==> us[k] == UpdateFor(levels[k], symbol, sequence, timestamp, side)
  {
    if levels == [] then []
    else
      UpdatesFor(levels[..|levels| - 1], symbol, sequence, timestamp, side)
      + [UpdateFor(levels[|levels| - 1], symbol, sequence, timestamp, side)]
  }

  function Diff(s: Sync, u: DepthUpdate): seq<Update> {
    UpdatesFor(u.bids, s.symbol, s.normalized + 1, u.timestamp, Bid)
    + UpdatesFor(u.asks, s.symbol, s.normalized + 1, u.timestamp, Ask)
  }

  /** Is the update taken: valid, not stale, and not beyond the next expected id? */
  predicate Takes(s: Sync, u: DepthUpdate) {
    u.valid && !u.ignored && !s.status.WaitingForSnapshot? && u.first <= s.lastId + 1 <= u.final
  }

  function TakeUpdate(s: Sync, u: DepthUpdate): Sync {
    if !u.valid then s.(status := Stale)
    else if u.ignored || s.status.WaitingForSnapshot? || u.final <= s.lastId then s
    else if u.first > s.lastId + 1 then s.(status := Stale)
    else
      s.(status := if s.status.Synchronizing? then Synchronized else s.status,
         lastId := u.final, normalized := s.normalized + 1)
  }

  function UpdateResult(s: Sync, u: DepthUpdate): SyncResult {
    var next := TakeUpdate(s, u).status;
    if !u.valid then SyncResult(false, false, true, next, [])
    else if u.ignored then SyncResult(true, true, false, next, [])
    else if s.status.WaitingForSnapshot? then SyncResult(false, false, true, next, [])
    else if u.final <= s.lastId then SyncResult(true, true, false, next, [])
    else if u.first > s.lastId + 1 then SyncResult(false, false, true, next, [])
    else SyncResult(true, false, false, next, Diff(s, u))
  }

  function TakeSnapshot(s: Sync, snapshot: VenueSnapshot): Sync {
    if !snapshot.valid then s
    else s.(status := Synchronizing, lastId := snapshot.lastUpdateId, normalized := 0)
  }

  class BinanceBookSynchronizer {
    const symbol: string
    var status: SyncStatus
    var lastId: nat
    var normalized: nat

    ghost function View(): Sync
      reads this
    {
      Sync(symbol, status, lastId, normalized)
    }

    /** The source throws for an empty symbol. */
    constructor (symbol: string)
      requires symbol != ""
      ensures View() == Sync(symbol, WaitingForSnapshot, 0, 0)
    {
      this.symbol := symbol;
      status, lastId, normalized := WaitingForSnapshot, 0, 0;
    }

    method Reset()
      modifies this
      ensures View() == Sync(symbol, WaitingForSnapshot, 0, 0)
    {
      status, lastId, normalized := WaitingForSnapshot, 0, 0;
    }

    method ApplySnapshot(snapshot: VenueSnapshot) returns (accepted: bool)
      modifies this
      ensures View() == TakeSnapshot(old(View()), snapshot) && accepted == snapshot.valid
    {
      if !snapshot.valid { return false; }
      lastId := snapshot.lastUpdateId;
      normalized := 0;
      status := Synchronizing;
      return true;
    }

    method AppendUpdates(output: seq<Update>, levels: seq<PriceLevel>, sequence: nat, timestamp: nat, side: BookSide)
      returns (appended: seq<Update>)
      ensures appended == output + UpdatesFor(levels, symbol, sequence, timestamp, side)
    {
      appended := output;
      for i := 0 to |levels|
        invariant appended == output + UpdatesFor(levels[..i], symbol, sequence, timestamp, side)
      {
        assert levels[..i + 1][..i] == levels[..i];
        appended := appended + [UpdateFor(levels[i], symbol, sequence, timestamp, side)];
      }
      assert levels[..|levels|] == levels;
    }

    method ApplyUpdate(u: DepthUpdate) returns (result: SyncResult)
      modifies this
      ensures View() == TakeUpdate(old(View()), u) && result == UpdateResult(old(View()), u)
    {
      hide UpdatesFor;
      if !u.valid {
        status := Stale;
        return SyncResult(false, false, true, status, []);
      }
      if u.ignored {
        return SyncResult(true, true, false, status, []);
      }
      if status.WaitingForSnapshot? {
        return SyncResult(false, false, true, status, []);
      }
      if u.final <= lastId {
        return SyncResult(true, true, false, status, []);
      }
      var expected := lastId + 1;
      if status.Synchronizing? {
        if u.first > expected || u.final < expected {
          status := Stale;
          return SyncResult(false, false, true, status, []);
        }
        status := Synchronized;
      } else {
        if u.first > expected {
          status := Stale;
          return SyncResult(false, false, true, status, []);
        }
      }
      normalized := normalized + 1;
      var updates := AppendUpdates([], u.bids, normalized, u.timestamp, Bid);
      updates := AppendUpdates(updates, u.asks, normalized, u.timestamp, Ask);
      lastId := u.final;
      result := SyncResult(true, false, false, status, updates);
    }
  }

  // ---------- no id is skipped ----------

  function TakeAll(s: Sync, us: seq<DepthUpdate>): Sync
    decreases |us|
  {
    if us == [] then s else TakeAll(TakeUpdate(s, us[0]), us[1..])
  }

  function Taken(s: Sync, us: seq<DepthUpdate>): seq<DepthUpdate>
    decreases |us|
  {
    if us == [] then []
    else (if Takes(s, us[0]) then [us[0]] else []) + Taken(TakeUpdate(s, us[0]), us[1..])
  }

  ghost predicate Covered(us: seq<DepthUpdate>, id: int) {
    exists u :: u in us && u.first <= id <= u.final
  }

  /** For any updates in any order: what has been taken since covers every id up to the last without a hole,
      each taken update goes beyond the ones before it, and as many were numbered as were taken. */
  lemma {:induction false} TakenCoversEveryId(s: Sync, us: seq<DepthUpdate>)
    ensures var end := TakeAll(s, us);
            && end.lastId >= s.lastId
            && (forall id :: s.lastId < id <= end.lastId ==> Covered(Taken(s, us), id))
            && end.normalized == s.normalized + |Taken(s, us)|
    decreases |us|
  {
    if us != [] {
      var next := TakeUpdate(s, us[0]);
      TakenCoversEveryId(next, us[1..]);
      var rest := Taken(next, us[1..]);
      forall id | s.lastId < id <= TakeAll(next, us[1..]).lastId ensures Covered(Taken(s, us), id) {
        if id <= next.lastId {
          assert us[0] in Taken(s, us);
        } else {
          assert Covered(rest, id);
          var u :| u in rest && u.first <= id <= u.final;
          assert u in Taken(s, us);
        }
      }
    }
  }

  // ---------- a venue and its feed ----------

  /** `levels` mentions price `p`. */
  ghost predicate Names(levels: seq<PriceLevel>, p: real) {
    exists k :: 0 <= k < |levels| && levels[k].price == p
  }

  /** A venue's book after each update id, starting at id 0. */
  ghost predicate ProperVenue(venue: seq<Levels>) {
    forall n :: 0 <= n < |venue| ==> !Crossed(venue[n]) && AllPositive(venue[n])
  }

  /** What the update names has the quantity it had at the final id; what it does not name has not changed
      anywhere in its range. */
  ghost predicate CarriesSide(venue: seq<Levels>, u: DepthUpdate, levels: seq<PriceLevel>, side: BookSide)
    requires u.final < |venue|
  {
    && (forall k :: 0 <= k < |levels| ==> levels[k].quantity == Quantity(SideOf(venue[u.final], side), levels[k].price))
    && (forall n, p :: u.first <= n + 1 && 0 <= n <= u.final && !Names(levels, p) ==>
          Quantity(SideOf(venue[n], side), p) == Quantity(SideOf(venue[u.final], side), p))
  }

  /** The update carries the final quantity of every price changed in its range. */
  ghost predicate Carries(venue: seq<Levels>, u: DepthUpdate) {
    && ValidLevels(u.bids) && ValidLevels(u.asks) && u.final < |venue|
    && CarriesSide(venue, u, u.bids, Bid) && CarriesSide(venue, u, u.asks, Ask)
  }

  ghost predicate TrueSnapshot(venue: seq<Levels>, s: VenueSnapshot) {
    && ValidLevels(s.bids) && ValidLevels(s.asks) && s.lastUpdateId < |venue|
    && Built(s.bids) == venue[s.lastUpdateId].bids && Built(s.asks) == venue[s.lastUpdateId].asks
  }

  lemma DiffNames(s: Sync, u: DepthUpdate, side: BookSide, p: real)
    ensures Names(if side.Bid? then u.bids else u.asks, p) ==> Mentions(Diff(s, u), side, p)
  {
    if side.Bid? {
      if Names(u.bids, p) {
        var k :| 0 <= k < |u.bids| && u.bids[k].price == p;
        assert Diff(s, u)[k].price == p;
      }
    } else if Names(u.asks, p) {
      var k :| 0 <= k < |u.asks| && u.asks[k].price == p;
      assert Diff(s, u)[|u.bids| + k].price == p;
    }
  }

  lemma DiffStates(venue: seq<Levels>, s: Sync, u: DepthUpdate)
    requires Carries(venue, u)
    ensures States(Diff(s, u), venue[u.final])
  {
    hide Quantity, Names, UpdatesFor;
    var us := Diff(s, u);
    forall k | 0 <= k < |us| ensures QuantityOf(us[k]) == Quantity(SideOf(venue[u.final], us[k].side), us[k].price) {
      if k < |u.bids| {
        assert us[k] == UpdateFor(u.bids[k], s.symbol, s.normalized + 1, u.timestamp, Bid);
      } else {
        assert us[k] == UpdateFor(u.asks[k - |u.bids|], s.symbol, s.normalized + 1, u.timestamp, Ask);
      }
    }
  }

  /** An overlapping update takes the book at any id its range continues to the book at its final id. */
  lemma DiffCatchesUp(venue: seq<Levels>, s: Sync, u: DepthUpdate, n: nat)
    requires ProperVenue(venue) && Carries(venue, u) && u.first <= n + 1 && n <= u.final
    ensures PatchAll(venue[n], Diff(s, u)) == venue[u.final]
  {
    hide Quantity, Names, Mentions, Diff, States, PatchAll, Crossed, AllPositive, SideOf, ValidLevels;
    DiffStates(venue, s, u);
    var after := venue[u.final];
    forall side, p | Quantity(SideOf(venue[n], side), p) != Quantity(SideOf(after, side), p)
      ensures Mentions(Diff(s, u), side, p)
    {
      DiffNames(s, u, side, p);
    }
    PatchesReach(venue[n], Diff(s, u), after);
  }

  // ---------- the pipeline ----------

  datatype Pipeline = Pipeline(sync: Sync, book: Replica)

  function Normalized(snapshot: VenueSnapshot, symbol: string): DepthSnapshot {
    DepthSnapshot(VENUE, symbol, 0, snapshot.timestamp, snapshot.bids, snapshot.asks)
  }

  datatype FeedEvent = GotSnapshot(snapshot: VenueSnapshot) | GotUpdate(update: DepthUpdate)

  function Fresh(symbol: string): Sync { Sync(symbol, WaitingForSnapshot, 0, 0) }

  /** The feed starts every connection with a fresh synchronizer and a snapshot. It hands accepted, non-empty
      diffs to the book, drops empty and ignored ones, and gives the connection up on anything else. */
  ghost function Receive(p: Pipeline, e: FeedEvent): Pipeline {
    match e
    case GotSnapshot(s) =>
      if !s.valid then p.(sync := Fresh(p.sync.symbol))
      else Pipeline(TakeSnapshot(Fresh(p.sync.symbol), s), Level2.ApplySnapshot(p.book, Normalized(s, p.sync.symbol)))
    case GotUpdate(u) =>
      var result := UpdateResult(p.sync, u);
      if !u.valid || !result.accepted then p.(sync := Fresh(p.sync.symbol))
      else Pipeline(TakeUpdate(p.sync, u),
                    if !result.ignored && result.updates != [] then ApplyBatch(p.book, result.updates) else p.book)
  }

  ghost function ReceiveAll(p: Pipeline, es: seq<FeedEvent>): Pipeline
    decreases |es|
  {
    if es == [] then p else ReceiveAll(Receive(p, es[0]), es[1..])
  }

  ghost predicate TrueEvent(venue: seq<Levels>, e: FeedEvent) {
    match e
    case GotSnapshot(s) => s.valid ==> TrueSnapshot(venue, s)
    case GotUpdate(u) => u.valid && !u.ignored ==> Carries(venue, u)
  }

  /** An accepted update that says nothing still takes a number. */
  predicate Empty(u: DepthUpdate) { u.bids == [] && u.asks == [] }

  predicate SaysSomething(p: Pipeline, e: FeedEvent) {
    e.GotUpdate? && Takes(p.sync, e.update) ==> !Empty(e.update)
  }

  ghost predicate AlwaysSaysSomething(p: Pipeline, es: seq<FeedEvent>)
    decreases |es|
  {
    es != [] ==> SaysSomething(p, es[0]) && AlwaysSaysSomething(Receive(p, es[0]), es[1..])
  }

  /** The book is synchronized, agrees with the numbering, and is the venue's at the last update id. */
  ghost predicate InStep(venue: seq<Levels>, p: Pipeline) {
    && p.book.synchronized && p.book.sequence == p.sync.normalized
    && p.sync.lastId < |venue| && p.book.levels == venue[p.sync.lastId]
  }

  ghost predicate Mirrors(venue: seq<Levels>, p: Pipeline) {
    && p.sync.symbol != "" && p.book.buffer == map[]
    && (!p.sync.status.WaitingForSnapshot? ==> InStep(venue, p))
  }

  lemma StartMirrors(venue: seq<Levels>, symbol: string)
    requires symbol != ""
    ensures Mirrors(venue, Pipeline(Fresh(symbol), BLANK))
  {
  }

  lemma SnapshotMirrors(venue: seq<Levels>, p: Pipeline, s: VenueSnapshot)
    requires ProperVenue(venue) && Mirrors(venue, p) && s.valid && TrueSnapshot(venue, s)
    ensures Mirrors(venue, Receive(p, GotSnapshot(s)))
  {
    hide Built, ValidLevels, Level2.ApplySnapshot;
    var normalized := Normalized(s, p.sync.symbol);
    SnapshotIsValid(venue, s, p.sync.symbol);
    NothingToReplay(p.book, normalized);
  }

  lemma SnapshotIsValid(venue: seq<Levels>, s: VenueSnapshot, symbol: string)
    requires ProperVenue(venue) && TrueSnapshot(venue, s) && symbol != ""
    ensures ValidSnapshot(Normalized(s, symbol)) && LevelsOf(Normalized(s, symbol)) == venue[s.lastUpdateId]
  {
    hide Built, ValidLevels, Crossed;
  }

  lemma DiffIsCoherent(s: Sync, u: DepthUpdate)
    requires s.symbol != "" && ValidLevels(u.bids) && ValidLevels(u.asks)
    ensures Coherent(Diff(s, u))
    ensures Diff(s, u) != [] <==> !Empty(u)
    ensures Diff(s, u) != [] ==>
              var first := Diff(s, u)[0];
              first.sequence == s.normalized + 1 && first.venue == VENUE && first.symbol == s.symbol
  {
    var us := Diff(s, u);
    forall k | 0 <= k < |us|
      ensures us[k].venue == VENUE && us[k].symbol == s.symbol && us[k].sequence == s.normalized + 1
      ensures ValidLevel(us[k].price, us[k].quantity)
    {
    }
  }

  lemma DiffReachesVenue(venue: seq<Levels>, p: Pipeline, u: DepthUpdate)
    requires ProperVenue(venue) && InStep(venue, p) && Takes(p.sync, u) && Carries(venue, u)
    ensures PatchAll(p.book.levels, Diff(p.sync, u)) == venue[u.final] && !Crossed(venue[u.final])
  {
    hide PatchAll, Diff, Crossed, Carries;
    CarriesValid(venue, u);
    DiffCatchesUp(venue, p.sync, u, p.sync.lastId);
  }

  /** One update: the book follows exactly when what is taken says something. An empty diff that is taken uses
      up a number the book never sees. */
  lemma UpdateMirrors(venue: seq<Levels>, p: Pipeline, u: DepthUpdate)
    requires ProperVenue(venue) && Mirrors(venue, p) && (u.valid && !u.ignored ==> Carries(venue, u))
    ensures var next := Receive(p, GotUpdate(u));
            && next.book.buffer == map[]
            && (SaysSomething(p, GotUpdate(u)) ==> Mirrors(venue, next))
            && (!SaysSomething(p, GotUpdate(u)) ==> !InStep(venue, next) && next.book == p.book)
  {
    hide ApplyBatch, Diff, PatchAll, Crossed, Carries, Coherent;
    if Takes(p.sync, u) {
      CarriesValid(venue, u);
      DiffIsCoherent(p.sync, u);
      DiffReachesVenue(venue, p, u);
      if !Empty(u) {
        BatchFollows(p.book, Diff(p.sync, u));
      }
    }
  }

  lemma CarriesValid(venue: seq<Levels>, u: DepthUpdate)
    requires Carries(venue, u)
    ensures ValidLevels(u.bids) && ValidLevels(u.asks) && u.final < |venue|
  {
    hide CarriesSide, ValidLevels;
  }

  lemma BatchFollows(r: Replica, us: seq<Update>)
    requires us != [] && Identified(us[0].venue, us[0].symbol) && Coherent(us)
    requires r.synchronized && us[0].sequence == r.sequence + 1 && !Crossed(PatchAll(r.levels, us))
    ensures var next := ApplyBatch(r, us);
            && next.synchronized && next.sequence == r.sequence + 1
            && next.levels == PatchAll(r.levels, us) && next.buffer == r.buffer
  {
    hide Crossed, PatchAll, Coherent, Latest;
  }

  /** The Binance replica: for any overlaps, stale repeats, gaps, rejects and new snapshots, as long as what is
      taken says something, the book downstream is always the venue's book at the last update id. */
  lemma {:induction false} ReplicaMirrorsVenue(venue: seq<Levels>, p: Pipeline, es: seq<FeedEvent>)
    requires ProperVenue(venue) && Mirrors(venue, p) && AlwaysSaysSomething(p, es)
    requires forall e :: e in es ==> TrueEvent(venue, e)
    ensures Mirrors(venue, ReceiveAll(p, es))
    decreases |es|
  {
    hide ProperVenue, Mirrors, Receive, SaysSomething, Carries, TrueSnapshot;
    if es != [] {
      assert TrueEvent(venue, es[0]);
      match es[0] {
        case GotSnapshot(s) =>
          if s.valid { SnapshotMirrors(venue, p, s); } else { InvalidSnapshotStartsOver(venue, p, s); }
        case GotUpdate(u) => UpdateMirrors(venue, p, u);
      }
      ReplicaMirrorsVenue(venue, Receive(p, es[0]), es[1..]);
    }
  }

  /** From its first connection on: a synchronizer that has its snapshot and a blank book downstream of it. */
  lemma FreshReplicaMirrors(venue: seq<Levels>, symbol: string, es: seq<FeedEvent>)
    requires ProperVenue(venue) && symbol != "" && AlwaysSaysSomething(Pipeline(Fresh(symbol), BLANK), es)
    requires forall e :: e in es ==> TrueEvent(venue, e)
    ensures var p := ReceiveAll(Pipeline(Fresh(symbol), BLANK), es);
            !p.sync.status.WaitingForSnapshot? ==> InStep(venue, p)
  {
    hide ProperVenue, InStep, Receive, AlwaysSaysSomething, TrueEvent, ReceiveAll;
    StartMirrors(venue, symbol);
    ReplicaMirrorsVenue(venue, Pipeline(Fresh(symbol), BLANK), es);
  }

  // ---------- what a connection survives ----------

  /** What one update does to a connection that has its snapshot: a repeat of what is known, or a message that is not
      about depth, changes nothing at all; an update that continues the ids is taken to its last; an invalid one and
      one beyond the next id give the connection up, and the book keeps what it has. */
  lemma WhatUpdatesDo(p: Pipeline, u: DepthUpdate)
    requires !p.sync.status.WaitingForSnapshot?
    ensures var next := Receive(p, GotUpdate(u));
            var result := UpdateResult(p.sync, u);
            if u.valid && (u.ignored || u.final <= p.sync.lastId) then
              next == p && result.accepted && result.ignored && !result.snapshotRequired && result.updates == []
            else if u.valid && u.first <= p.sync.lastId + 1 then
              && next.sync.lastId == u.final && next.sync.normalized == p.sync.normalized + 1
              && !next.sync.status.WaitingForSnapshot? && result.accepted && !result.ignored
              && |result.updates| == |u.bids| + |u.asks|
            else
              && next.sync == Fresh(p.sync.symbol) && next.book == p.book
              && !result.accepted && result.snapshotRequired && result.updates == []
  {
    hide ApplyBatch;
  }

  /** What an update that is taken publishes: one increment per level, bids first, under the next number; a level
      without quantity is a delete and any other an upsert. */
  lemma WhatDiffsSay(s: Sync, u: DepthUpdate)
    ensures var us, n := Diff(s, u), |u.bids|;
            && |us| == n + |u.asks|
            && forall k :: 0 <= k < |us| ==>
                 var level := if k < n then u.bids[k] else u.asks[k - n];
                 && us[k].side == (if k < n then Bid else Ask)
                 && us[k].price == level.price && us[k].quantity == level.quantity
                 && (us[k].kind.Delete? <==> level.quantity <= 0.0)
                 && us[k].sequence == s.normalized + 1 && us[k].symbol == s.symbol && us[k].venue == "BINANCE"
                 && us[k].timestamp == u.timestamp
  {
    hide UpdatesFor;
  }

  /** The ids continue: each update is about nothing new or starts no later than the next id. */
  predicate GapFree(id: nat, us: seq<DepthUpdate>)
    decreases |us|
  {
    us != [] ==>
      && us[0].valid && (us[0].ignored || us[0].final <= id || us[0].first <= id + 1)
      && GapFree(Newest(id, us[0]), us[1..])
  }

  function Newest(id: nat, u: DepthUpdate): nat { if u.ignored || u.final <= id then id else u.final }

  function NewestOf(id: nat, us: seq<DepthUpdate>): nat
    decreases |us|
  {
    if us == [] then id else NewestOf(Newest(id, us[0]), us[1..])
  }

  function Events(us: seq<DepthUpdate>): (es: seq<FeedEvent>)
    ensures |es| == |us| && forall k :: 0 <= k < |us| ==> es[k] == GotUpdate(us[k])
    decreases |us|
  {
    if us == [] then [] else [GotUpdate(us[0])] + Events(us[1..])
  }

  lemma {:induction false} GivenUpIsForGood(p: Pipeline, us: seq<DepthUpdate>)
    requires p.sync == Fresh(p.sync.symbol)
    ensures ReceiveAll(p, Events(us)).sync.status.WaitingForSnapshot?
    decreases |us|
  {
    hide ApplyBatch;
    if us != [] {
      assert Events(us)[1..] == Events(us[1..]);
      GivenUpIsForGood(Receive(p, GotUpdate(us[0])), us[1..]);
    }
  }

  /** A connection lasts through a run of updates if and only if their ids leave no gap; it then ends at the newest of
      them, however many are repeated or overlap. */
  lemma {:induction false} WhenTheConnectionLasts(p: Pipeline, us: seq<DepthUpdate>)
    requires !p.sync.status.WaitingForSnapshot?
    ensures var end := ReceiveAll(p, Events(us));
            && (!end.sync.status.WaitingForSnapshot? <==> GapFree(p.sync.lastId, us))
            && (GapFree(p.sync.lastId, us) ==> end.sync.lastId == NewestOf(p.sync.lastId, us))
    decreases |us|
  {
    hide Receive;
    if us != [] {
      var next := Receive(p, GotUpdate(us[0]));
      assert Events(us)[1..] == Events(us[1..]);
      WhatUpdatesDo(p, us[0]);
      if next.sync.status.WaitingForSnapshot? {
        GivenUpIsForGood(next, us[1..]);
      } else {
        WhenTheConnectionLasts(next, us[1..]);
      }
    }
  }

  lemma InvalidSnapshotStartsOver(venue: seq<Levels>, p: Pipeline, s: VenueSnapshot)
    requires !s.valid && Mirrors(venue, p)
    ensures Mirrors(venue, Receive(p, GotSnapshot(s)))
  {
  }

  /** The first range of a numbering: what a synchronizer at id 0 takes, if it does not wait for a snapshot. */
  predicate Starts(u: DepthUpdate) { u.valid && !u.ignored && u.first <= 1 <= u.final }

  ghost predicate StartsSomewhere(us: seq<DepthUpdate>) { exists j :: 0 <= j < |us| && Starts(us[j]) }

  ghost predicate StartsAfterInvalid(us: seq<DepthUpdate>) {
    exists i, j :: 0 <= i < j < |us| && !us[i].valid && Starts(us[j])
  }

  lemma {:induction false} StaleTakesTheStart(s: Sync, us: seq<DepthUpdate>)
    requires s.status.Stale? && s.lastId == 0
    ensures Taken(s, us) == [] <==> !StartsSomewhere(us)
    decreases |us|
  {
    if us != [] {
      assert forall j :: 0 < j < |us| ==> us[j] == us[1..][j - 1];
      if Starts(us[0]) {
        assert Takes(s, us[0]);
      } else {
        StaleTakesTheStart(TakeUpdate(s, us[0]), us[1..]);
        assert [] + Taken(TakeUpdate(s, us[0]), us[1..]) == Taken(TakeUpdate(s, us[0]), us[1..]);
        if StartsSomewhere(us[1..]) {
          var j :| 0 <= j < |us[1..]| && Starts(us[1..][j]);
          assert Starts(us[j + 1]);
        }
      }
    }
  }

  /** Why the feed must not pass an invalid update on: without any snapshot, a run of updates is left alone if and only
      if no invalid one in it is followed by one that starts a numbering. */
  lemma {:induction false} InvalidUpdateSkipsTheSnapshot(symbol: string, us: seq<DepthUpdate>)
    ensures Taken(Fresh(symbol), us) == [] <==> !StartsAfterInvalid(us)
    decreases |us|
  {
    if us != [] {
      var rest := us[1..];
      assert forall j :: 0 < j < |us| ==> us[j] == rest[j - 1];
      var next := TakeUpdate(Fresh(symbol), us[0]);
      assert [] + Taken(next, rest) == Taken(next, rest);
      if us[0].valid {
        InvalidUpdateSkipsTheSnapshot(symbol, rest);
        if StartsAfterInvalid(rest) {
          var i, j :| 0 <= i < j < |rest| && !rest[i].valid && Starts(rest[j]);
          assert !us[i + 1].valid && Starts(us[j + 1]);
        }
      } else {
        StaleTakesTheStart(next, rest);
        if StartsSomewhere(rest) {
          var j :| 0 <= j < |rest| && Starts(rest[j]);
          assert Starts(us[j + 1]);
        } else {
          assert forall j :: 0 < j < |us| ==> !Starts(us[j]);
        }
      }
    }
  }

  /** Once an empty diff has been taken, the next diff that says something throws the book out of step: it is
      refused as a gap and the book asks for a snapshot. */
  lemma EmptyDiffDesynchronizes(p: Pipeline, u: DepthUpdate)
    requires p.book.synchronized && p.book.sequence < p.sync.normalized
    requires Takes(p.sync, u) && !Empty(u) && p.sync.symbol != ""
    requires ValidLevels(u.bids) && ValidLevels(u.asks)
    ensures var next := Receive(p, GotUpdate(u));
            !next.book.synchronized && next.book.levels == p.book.levels && next.sync.lastId == u.final
  {
    hide Diff, Coherent, PatchAll, Crossed, Latest;
    DiffIsCoherent(p.sync, u);
  }

  // ---------- a literal run ----------

  /** A venue whose first update changes nothing and whose second doubles the bid. */
  const QUIET: Levels := Levels(map[1.0 := 1.0], map[2.0 := 1.0])
  const DOUBLED: Levels := Levels(map[1.0 := 2.0], map[2.0 := 1.0])
  const QUIET_VENUE: seq<Levels> := [QUIET, QUIET, DOUBLED]

  const FIRST_SNAPSHOT: VenueSnapshot := VenueSnapshot(true, 0, 0, [PriceLevel(1.0, 1.0)], [PriceLevel(2.0, 1.0)])
  const EMPTY_UPDATE: DepthUpdate := DepthUpdate(true, false, 1, 1, 0, [], [])
  const NEXT_UPDATE: DepthUpdate := DepthUpdate(true, false, 2, 2, 0, [PriceLevel(1.0, 2.0)], [])

  lemma QuietVenueIsProper()
    ensures ProperVenue(QUIET_VENUE)
  {
  }

  lemma BuiltOne(level: PriceLevel)
    requires level.quantity > 0.0
    ensures Built([level]) == map[level.price := level.quantity]
  {
    assert [level][..0] == [];
  }

  lemma QuietEventsAreTrue()
    ensures TrueSnapshot(QUIET_VENUE, FIRST_SNAPSHOT)
    ensures Carries(QUIET_VENUE, EMPTY_UPDATE) && Carries(QUIET_VENUE, NEXT_UPDATE)
  {
    BuiltOne(PriceLevel(1.0, 1.0));
    BuiltOne(PriceLevel(2.0, 1.0));
    assert NEXT_UPDATE.bids[0].price == 1.0;
  }

  /** The empty update is taken, the book is still the venue's, and then the next update is refused by the book. */
  lemma EmptyDiffLosesTheVenue()
    ensures var p0 := Pipeline(Fresh("X"), BLANK);
            var p1 := Receive(p0, GotSnapshot(FIRST_SNAPSHOT));
            var p2 := Receive(p1, GotUpdate(EMPTY_UPDATE));
            var p3 := Receive(p2, GotUpdate(NEXT_UPDATE));
            && ProperVenue(QUIET_VENUE) && TrueEvent(QUIET_VENUE, GotSnapshot(FIRST_SNAPSHOT))
            && TrueEvent(QUIET_VENUE, GotUpdate(EMPTY_UPDATE)) && TrueEvent(QUIET_VENUE, GotUpdate(NEXT_UPDATE))
            && InStep(QUIET_VENUE, p1)
            && p2.book.levels == QUIET_VENUE[1] && p2.sync.lastId == 1
            && !p3.book.synchronized && p3.book.levels != QUIET_VENUE[2] && p3.sync.lastId == 2
  {
    hide ProperVenue, TrueSnapshot, Carries, Level2.ApplySnapshot, ApplyBatch, Built;
    QuietVenueIsProper();
    QuietEventsAreTrue();
    var p0 := Pipeline(Fresh("X"), BLANK);
    StartMirrors(QUIET_VENUE, "X");
    SnapshotMirrors(QUIET_VENUE, p0, FIRST_SNAPSHOT);
    var p1 := Receive(p0, GotSnapshot(FIRST_SNAPSHOT));
    var p2 := Receive(p1, GotUpdate(EMPTY_UPDATE));
    assert Diff(p1.sync, EMPTY_UPDATE) == [];
    CarriesValid(QUIET_VENUE, NEXT_UPDATE);
    EmptyDiffDesynchronizes(p2, NEXT_UPDATE);
    assert 1.0 in QUIET.bids && QUIET.bids[1.0] != DOUBLED.bids[1.0];
  }
}
