/** The Level-2 book: a replica of a venue's depth that follows numbered increments, notices a gap, buffers
    what comes during recovery, and replays the buffer on top of the next snapshot. */
module Level2 {
  import opened Ordered
  import opened Depth

  datatype Verdict =
    | Applied | StaleOrDuplicate | BufferFull | BufferedDuringRecovery | GapDetected | CrossedMarket
    | SnapshotAccepted | RecoveryCompleted | ReplayStillGapped | EmptyBatch | SnapshotRequired

  /** What a call answers; Thrown stands for std::invalid_argument, after which nothing has changed. */
  datatype Answer =
    | Decision(accepted: bool, gap: bool, expected: nat, received: nat, verdict: Verdict)
    | Thrown

  datatype Replica = Replica(
    levels: Levels, sequence: nat, timestamp: nat, synchronized: bool,
    buffer: map<nat, Update>, missing: nat, gaps: nat, recoveries: nat)

  const BLANK: Replica := Replica(NO_LEVELS, 0, 0, false, map[], 0, 0, 0)

  const MAX_BUFFER := 4096

  predicate ValidUpdate(u: Update) {
    Identified(u.venue, u.symbol) && ValidLevel(u.price, u.quantity) && u.sequence > 0
  }

  function Keep(buffer: map<nat, Update>, u: Update): map<nat, Update> {
    if u.sequence in buffer then buffer else buffer[u.sequence := u]
  }

  function Gapped(r: Replica, u: Update): Replica {
    r.(synchronized := false, missing := r.sequence + 1, gaps := r.gaps + 1, buffer := Keep(r.buffer, u))
  }

  function Advanced(r: Replica, u: Update): Replica {
    var levels := Patch(r.levels, u);
    if Crossed(levels) then r.(levels := levels, synchronized := false)
    else r.(levels := levels, sequence := u.sequence, timestamp := u.timestamp)
  }

  /** The replica after one increment. */
  function Apply(r: Replica, u: Update): Replica {
    if !ValidUpdate(u) || u.sequence <= r.sequence then r
    else if !r.synchronized then
      if |r.buffer| >= MAX_BUFFER && u.sequence !in r.buffer then r else r.(buffer := Keep(r.buffer, u))
    else if u.sequence > r.sequence + 1 then Gapped(r, u)
    else Advanced(r, u)
  }

  function ApplyAnswer(r: Replica, u: Update): Answer {
    if !ValidUpdate(u) then Thrown
    else if u.sequence <= r.sequence then Decision(false, false, r.sequence + 1, u.sequence, StaleOrDuplicate)
    else if !r.synchronized then
      if |r.buffer| >= MAX_BUFFER && u.sequence !in r.buffer then
        Decision(false, true, r.missing, u.sequence, BufferFull)
      else Decision(false, true, if r.missing != 0 then r.missing else r.sequence + 1, u.sequence,
             BufferedDuringRecovery)
    else if u.sequence > r.sequence + 1 then Decision(false, true, r.sequence + 1, u.sequence, GapDetected)
    else if Crossed(Patch(r.levels, u)) then Decision(false, false, r.sequence + 1, u.sequence, CrossedMarket)
    else Decision(true, false, r.sequence + 1, u.sequence, Applied)
  }

  function Replay(r: Replica, us: seq<Update>): Replica
    decreases |us|
  {
    if us == [] then r else Replay(if us[0].sequence <= r.sequence then r else Apply(r, us[0]), us[1..])
  }

  predicate ValidSnapshot(s: DepthSnapshot) {
    Identified(s.venue, s.symbol) && ValidLevels(s.bids) && ValidLevels(s.asks) && !Crossed(LevelsOf(s))
  }

  /** The replica just after a snapshot has been installed, before the buffer is replayed. */
  function Installed(r: Replica, s: DepthSnapshot): Replica {
    Replica(LevelsOf(s), s.sequence, s.timestamp, true, map[], 0, r.gaps, r.recoveries)
  }

  predicate WasRecovering(r: Replica) { r.buffer != map[] || r.missing != 0 }

  /** Buffered updates, lowest sequence first. */
  ghost function Buffered(r: Replica): seq<Update> { Rows(r.buffer, Ascending(r.buffer.Keys)) }

  ghost function Replayed(r: Replica, s: DepthSnapshot): Replica {
    Replay(Installed(r, s), Buffered(r))
  }

  ghost function ApplySnapshot(r: Replica, s: DepthSnapshot): Replica {
    if !ValidSnapshot(s) then r
    else
      var done := Replayed(r, s);
      if WasRecovering(r) && done.synchronized then done.(recoveries := done.recoveries + 1) else done
  }

  ghost function SnapshotAnswer(r: Replica, s: DepthSnapshot): Answer {
    if !ValidSnapshot(s) then Thrown
    else
      var done := Replayed(r, s);
      if done.synchronized then
        Decision(true, false, done.sequence + 1, s.sequence,
                 if WasRecovering(r) then RecoveryCompleted else SnapshotAccepted)
      else Decision(true, true, done.missing, s.sequence, ReplayStillGapped)
  }

  /** With nothing buffered a valid snapshot is simply the new state. */
  lemma NothingToReplay(r: Replica, s: DepthSnapshot)
    requires r.buffer == map[] && ValidSnapshot(s)
    ensures var next := ApplySnapshot(r, s);
            && next.synchronized && next.sequence == s.sequence && next.levels == LevelsOf(s) && next.buffer == map[]
  {
    hide Crossed, Built, ValidLevels;
    assert r.buffer.Keys == {};
    EmptyListing(Ascending(r.buffer.Keys), {});
    assert Buffered(r) == [];
  }

  /** Every update of a batch is valid and belongs to the same book and the same sequence as the first. */
  predicate Coherent(us: seq<Update>) {
    forall k :: 0 <= k < |us| ==>
      && Identified(us[k].venue, us[k].symbol)
      && us[k].venue == us[0].venue && us[k].symbol == us[0].symbol && us[k].sequence == us[0].sequence
      && ValidLevel(us[k].price, us[k].quantity)
  }

  function Latest(us: seq<Update>): nat
    requires us != []
  {
    if |us| == 1 then us[0].timestamp
    else
      var before := Latest(us[..|us| - 1]);
      if us[|us| - 1].timestamp > before then us[|us| - 1].timestamp else before
  }

  function ApplyBatch(r: Replica, us: seq<Update>): Replica {
    if us == [] || !Identified(us[0].venue, us[0].symbol) || !r.synchronized then r
    else if us[0].sequence != r.sequence + 1 then r.(synchronized := false)
    else if !Coherent(us) then r
    else if Crossed(PatchAll(r.levels, us)) then r.(synchronized := false)
    else r.(levels := PatchAll(r.levels, us), sequence := us[0].sequence, timestamp := Latest(us))
  }

  function BatchAnswer(r: Replica, us: seq<Update>): Answer {
    if us == [] then Decision(true, false, r.sequence, r.sequence, EmptyBatch)
    else if !Identified(us[0].venue, us[0].symbol) then Thrown
    else if !r.synchronized then Decision(false, true, r.sequence + 1, us[0].sequence, SnapshotRequired)
    else if us[0].sequence != r.sequence + 1 then Decision(false, true, r.sequence + 1, us[0].sequence, GapDetected)
    else if !Coherent(us) then Thrown
    else if Crossed(PatchAll(r.levels, us)) then Decision(false, false, r.sequence + 1, us[0].sequence, CrossedMarket)
    else Decision(true, false, r.sequence + 1, us[0].sequence, Applied)
  }

  class Level2Book {
    var levels: Levels
    var sequence: nat
    var timestamp: nat
    var synchronized: bool
    var buffer: map<nat, Update>
    var missing: nat
    var gaps: nat
    var recoveries: nat

    ghost function View(): Replica
      reads this
    {
      Replica(levels, sequence, timestamp, synchronized, buffer, missing, gaps, recoveries)
    }

    constructor ()
      ensures View() == BLANK
    {
      levels, sequence, timestamp, synchronized := NO_LEVELS, 0, 0, false;
      buffer, missing, gaps, recoveries := map[], 0, 0, 0;
    }

    method Clear()
      modifies this
      ensures View() == BLANK
    {
      levels := NO_LEVELS;
      buffer := map[];
      sequence, timestamp := 0, 0;
      synchronized, missing, gaps, recoveries := false, 0, 0, 0;
    }

    /** try_emplace: an update already buffered under its sequence stays. */
    method Buffer(u: Update)
      modifies this`buffer
      ensures buffer == Keep(old(buffer), u)
    {
      if u.sequence !in buffer {
        buffer := buffer[u.sequence := u];
      }
    }

    method ApplyOne(u: Update) returns (answer: Answer)
      modifies this
      ensures View() == Apply(old(View()), u) && answer == ApplyAnswer(old(View()), u)
    {
      hide Crossed, Patch;
      if !Identified(u.venue, u.symbol) || !ValidLevel(u.price, u.quantity) || u.sequence == 0 {
        return Thrown;
      }
      if u.sequence <= sequence {
        return Decision(false, false, sequence + 1, u.sequence, StaleOrDuplicate);
      }
      if !synchronized {
        if |buffer| >= MAX_BUFFER && u.sequence !in buffer {
          return Decision(false, true, missing, u.sequence, BufferFull);
        }
        Buffer(u);
        return Decision(false, true, if missing != 0 then missing else sequence + 1, u.sequence,
            BufferedDuringRecovery);
      }
      var expected := sequence + 1;
      if u.sequence > expected {
        synchronized := false;
        missing := expected;
        gaps := gaps + 1;
        Buffer(u);
        return Decision(false, true, expected, u.sequence, GapDetected);
      }
      levels := Patch(levels, u);
      var crossed := IsCrossed(levels);
      if crossed {
        synchronized := false;
        return Decision(false, false, expected, u.sequence, CrossedMarket);
      }
      sequence := u.sequence;
      timestamp := u.timestamp;
      return Decision(true, false, expected, u.sequence, Applied);
    }

    method Install(s: DepthSnapshot, bids: map<real, real>, asks: map<real, real>)
      requires bids == Built(s.bids) && asks == Built(s.asks)
      modifies this
      ensures View() == Installed(old(View()), s)
    {
      buffer := map[];
      levels := Levels(bids, asks);
      sequence, timestamp := s.sequence, s.timestamp;
      synchronized, missing := true, 0;
    }

    method ReplayAll(us: seq<Update>)
      modifies this
      ensures View() == Replay(old(View()), us)
    {
      hide Apply, ApplyAnswer;
      var i := 0;
      while i < |us|
        invariant i <= |us| && Replay(old(View()), us) == Replay(View(), us[i..])
      {
        assert us[i..][1..] == us[i + 1..];
        if us[i].sequence > sequence {
          var _ := ApplyOne(us[i]);
        }
        i := i + 1;
      }
    }

    method TakeSnapshot(s: DepthSnapshot) returns (answer: Answer)
      modifies this
      ensures View() == ApplySnapshot(old(View()), s) && answer == SnapshotAnswer(old(View()), s)
    {
      hide Crossed, Built, Replay, Rows, Ascending;
      if !Identified(s.venue, s.symbol) || !ValidLevels(s.bids) || !ValidLevels(s.asks) {
        return Thrown;
      }
      var bids := Rebuild(s.bids);
      var asks := Rebuild(s.asks);
      var crossed := IsCrossed(Levels(bids, asks));
      if crossed {
        return Thrown;
      }
      var wasRecovering := buffer != map[] || missing != 0;
      var buffered := SortedRows(buffer);
      Install(s, bids, asks);
      ReplayAll(buffered);
      if wasRecovering && synchronized {
        recoveries := recoveries + 1;
      }
      answer := Decision(true, !synchronized, if synchronized then sequence + 1 else missing, s.sequence,
                         if !synchronized then ReplayStillGapped
                         else if wasRecovering then RecoveryCompleted else SnapshotAccepted);
    }

    /** The loop of apply_batch: patch a copy, or throw at the first update that does not belong. */
    method PatchCopy(us: seq<Update>) returns (next: Levels, latest: nat, thrown: bool)
      requires us != []
      ensures thrown == !Coherent(us)
      ensures !thrown ==> next == PatchAll(levels, us) && latest == Latest(us)
    {
      hide Patch;
      next, latest := levels, us[0].timestamp;
      var i := 0;
      while i < |us|
        invariant i <= |us| && Coherent(us[..i])
        invariant next == PatchAll(levels, us[..i])
        invariant latest == if i == 0 then us[0].timestamp else Latest(us[..i])
      {
        var u := us[i];
        assert us[..i + 1][..i] == us[..i];
        if !Identified(u.venue, u.symbol) || u.venue != us[0].venue || u.symbol != us[0].symbol
           || u.sequence != us[0].sequence || !ValidLevel(u.price, u.quantity) {
          return next, latest, true;
        }
        if u.timestamp > latest { latest := u.timestamp; }
        next := Patch(next, u);
        i := i + 1;
      }
      assert us[..i] == us;
      thrown := false;
    }

    method ApplyAll(us: seq<Update>) returns (answer: Answer)
      modifies this
      ensures View() == ApplyBatch(old(View()), us) && answer == BatchAnswer(old(View()), us)
    {
      hide Crossed, PatchAll, Latest, Coherent;
      if us == [] {
        return Decision(true, false, sequence, sequence, EmptyBatch);
      }
      var first := us[0];
      if !Identified(first.venue, first.symbol) {
        return Thrown;
      }
      if !synchronized {
        return Decision(false, true, sequence + 1, first.sequence, SnapshotRequired);
      }
      var expected := sequence + 1;
      if first.sequence != expected {
        synchronized := false;
        return Decision(false, true, expected, first.sequence, GapDetected);
      }
      var next, latest, thrown := PatchCopy(us);
      if thrown {
        return Thrown;
      }
      var crossed := IsCrossed(next);
      if crossed {
        synchronized := false;
        return Decision(false, false, expected, first.sequence, CrossedMarket);
      }
      levels, sequence, timestamp := next, first.sequence, latest;
      return Decision(true, false, expected, first.sequence, Applied);
    }
  }
}
