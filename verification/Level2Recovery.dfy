/** What a Level-2 book is worth. Whatever is delivered, a book that calls itself synchronized has nothing
    missing or buffered and is not crossed; and if what is delivered comes from one numbered, never-crossing
    stream, in any order, with losses and repeats and with correct snapshots, its levels are the stream's. */
module Level2Recovery {
  import opened Ordered
  import opened Depth
  import opened Level2

  datatype Delivery =
    | Increment(update: Update)
    | Batch(updates: seq<Update>)
    | Resync(snapshot: DepthSnapshot)
    | Clear

  ghost function Deliver(r: Replica, d: Delivery): Replica {
    match d
    case Increment(u) => Apply(r, u)
    case Batch(us) => ApplyBatch(r, us)
    case Resync(s) => ApplySnapshot(r, s)
    case Clear => BLANK
  }

  ghost function DeliverAll(r: Replica, ds: seq<Delivery>): Replica
    decreases |ds|
  {
    if ds == [] then r else DeliverAll(Deliver(r, ds[0]), ds[1..])
  }

  // ---------- whatever is delivered ----------

  /** What holds of every replica, whatever it was fed. */
  ghost predicate Sound(r: Replica) {
    && (r.synchronized ==> r.buffer == map[] && r.missing == 0 && !Crossed(r.levels))
    && (forall k :: k in r.buffer ==> k > r.sequence && r.buffer[k].sequence == k && ValidUpdate(r.buffer[k]))
    && |r.buffer| <= MAX_BUFFER
  }

  lemma ApplyKeepsSound(r: Replica, u: Update)
    requires Sound(r)
    ensures Sound(Apply(r, u))
  {
    hide Crossed, Patch;
  }

  lemma {:induction false} ReplayKeepsSound(r: Replica, us: seq<Update>)
    requires Sound(r)
    ensures Sound(Replay(r, us))
    decreases |us|
  {
    hide Sound, Apply;
    if us != [] {
      ApplyKeepsSound(r, us[0]);
      ReplayKeepsSound(if us[0].sequence <= r.sequence then r else Apply(r, us[0]), us[1..]);
    }
  }

  lemma DeliveryKeepsSound(r: Replica, d: Delivery)
    requires Sound(r)
    ensures Sound(Deliver(r, d))
  {
    hide Crossed, Patch, PatchAll, Apply, Replay, Ascending, Rows, Latest, Built;
    match d
    case Increment(u) => ApplyKeepsSound(r, u);
    case Batch(us) =>
    case Resync(s) =>
      if ValidSnapshot(s) {
        ReplayKeepsSound(Installed(r, s), Buffered(r));
      }
    case Clear => NothingIsUncrossed();
  }

  lemma NothingIsUncrossed()
    ensures !Crossed(NO_LEVELS)
  {
  }

  /** Synchronized always means: nothing buffered, nothing missing, not crossed. */
  lemma {:induction false} AlwaysSound(ds: seq<Delivery>, r: Replica)
    requires Sound(r)
    ensures Sound(DeliverAll(r, ds)) && Sound(BLANK)
    decreases |ds|
  {
    hide Deliver, Crossed;
    if ds != [] {
      DeliveryKeepsSound(r, ds[0]);
      AlwaysSound(ds[1..], Deliver(r, ds[0]));
    }
  }

  // ---------- one stream ----------

  datatype Stream = Stream(base: Levels, updates: seq<Update>)
  {
    function At(n: nat): Levels
      requires n <= |updates|
    {
      PatchAll(base, updates[..n])
    }
  }

  ghost predicate Proper(f: Stream) {
    && (forall i :: 0 <= i < |f.updates| ==> ValidUpdate(f.updates[i]) && f.updates[i].sequence == i + 1)
    && (forall n :: 0 <= n <= |f.updates| ==> !Crossed(f.At(n)))
  }

  ghost predicate OfStream(f: Stream, u: Update) {
    1 <= u.sequence <= |f.updates| && u == f.updates[u.sequence - 1]
  }

  /** Increments are increments of the stream, snapshots are the stream's state at their sequence. */
  ghost predicate Faithful(f: Stream, d: Delivery) {
    match d
    case Increment(u) => OfStream(f, u)
    case Batch(us) => us == [] || (|us| == 1 && OfStream(f, us[0]))
    case Resync(s) => ValidSnapshot(s) ==> s.sequence <= |f.updates| && LevelsOf(s) == f.At(s.sequence)
    case Clear => true
  }

  ghost predicate Agrees(f: Stream, r: Replica) {
    && (r.synchronized ==> r.sequence <= |f.updates| && r.levels == f.At(r.sequence))
    && (forall k :: k in r.buffer ==> 1 <= k <= |f.updates| && r.buffer[k] == f.updates[k - 1])
  }

  lemma NextAgrees(f: Stream, r: Replica, u: Update)
    requires Proper(f) && Agrees(f, r) && OfStream(f, u) && r.synchronized && u.sequence == r.sequence + 1
    ensures Patch(r.levels, u) == f.At(u.sequence) && !Crossed(Patch(r.levels, u))
  {
    hide Patch, Crossed;
    OneMorePatch(f.base, f.updates, r.sequence);
  }

  lemma ApplyAgrees(f: Stream, r: Replica, u: Update)
    requires Proper(f) && Agrees(f, r) && OfStream(f, u)
    ensures Agrees(f, Apply(r, u))
  {
    hide Patch, Crossed, PatchAll, Proper;
    if r.synchronized && u.sequence == r.sequence + 1 {
      NextAgrees(f, r, u);
    }
  }

  ghost predicate FromStream(f: Stream, us: seq<Update>) {
    forall i :: 0 <= i < |us| ==> OfStream(f, us[i])
  }

  lemma {:induction false} ReplayAgrees(f: Stream, r: Replica, us: seq<Update>)
    requires Proper(f) && Agrees(f, r) && FromStream(f, us)
    ensures Agrees(f, Replay(r, us))
    decreases |us|
  {
    hide Apply, Agrees, Proper;
    if us != [] {
      ApplyAgrees(f, r, us[0]);
      ReplayAgrees(f, if us[0].sequence <= r.sequence then r else Apply(r, us[0]), us[1..]);
    }
  }

  lemma BufferIsFromStream(f: Stream, r: Replica)
    requires Sound(r) && Agrees(f, r)
    ensures FromStream(f, Buffered(r)) && Rising(Buffered(r)) && |Buffered(r)| <= MAX_BUFFER
    ensures forall k :: k in r.buffer <==> Listed(Buffered(r), k)
  {
    hide PatchAll, Crossed, Ascending, Rows, ValidUpdate;
    var ss := Ascending(r.buffer.Keys);
    var us := Buffered(r);
    forall i | 0 <= i < |us| ensures us[i].sequence == ss[i] && OfStream(f, us[i]) {
      assert ss[i] in ss;
    }
    forall k | k in r.buffer ensures Listed(us, k) {
      assert k in ss;
      var i :| 0 <= i < |ss| && ss[i] == k;
      assert us[i].sequence == k;
    }
    ListingSize(ss, r.buffer.Keys);
  }

  lemma SnapshotAgrees(f: Stream, r: Replica, s: DepthSnapshot)
    requires Proper(f) && Sound(r) && Agrees(f, r) && Faithful(f, Resync(s))
    ensures Agrees(f, ApplySnapshot(r, s))
  {
    hide Proper, Replay, Ascending, Rows, ValidSnapshot, PatchAll, LevelsOf, FromStream, Crossed;
    if ValidSnapshot(s) {
      BufferIsFromStream(f, r);
      ReplayAgrees(f, Installed(r, s), Buffered(r));
    }
  }

  lemma BatchAgrees(f: Stream, r: Replica, us: seq<Update>)
    requires Proper(f) && Agrees(f, r) && Faithful(f, Batch(us))
    ensures Agrees(f, ApplyBatch(r, us))
  {
    hide Patch, Crossed, Latest;
    if us != [] && r.synchronized && us[0].sequence == r.sequence + 1 {
      NextAgrees(f, r, us[0]);
      assert us[..0] == [] && PatchAll(r.levels, []) == r.levels;
      assert PatchAll(r.levels, us) == Patch(r.levels, us[0]);
    }
  }

  lemma DeliveryAgrees(f: Stream, r: Replica, d: Delivery)
    requires Proper(f) && Sound(r) && Agrees(f, r) && Faithful(f, d)
    ensures Agrees(f, Deliver(r, d))
  {
    hide Proper, Sound, Apply, ApplyBatch, ApplySnapshot, Agrees, PatchAll;
    match d
    case Increment(u) => ApplyAgrees(f, r, u);
    case Batch(us) => BatchAgrees(f, r, us);
    case Resync(s) => SnapshotAgrees(f, r, s);
    case Clear => BlankAgrees(f);
  }

  lemma BlankAgrees(f: Stream)
    ensures Agrees(f, BLANK) && Sound(BLANK)
  {
    hide Crossed, PatchAll;
  }

  /** Whenever the book says it is synchronized, its levels are the stream's at its sequence: for deliveries in
      any order, with losses and repeats, snapshots and resets in between. */
  lemma {:induction false} SynchronizedMeansTheStream(f: Stream, r: Replica, ds: seq<Delivery>)
    requires Proper(f) && Sound(r) && Agrees(f, r)
    requires forall d :: d in ds ==> Faithful(f, d)
    ensures var end := DeliverAll(r, ds);
            && Sound(end) && Agrees(f, end)
            && (end.synchronized ==> end.sequence <= |f.updates| && end.levels == f.At(end.sequence))
    decreases |ds|
  {
    hide Proper, Sound, Deliver, Faithful, PatchAll;
    if ds != [] {
      DeliveryAgrees(f, r, ds[0]);
      DeliveryKeepsSound(r, ds[0]);
      SynchronizedMeansTheStream(f, Deliver(r, ds[0]), ds[1..]);
    }
  }

  // ---------- how far a snapshot recovers ----------

  ghost predicate Rising(us: seq<Update>) {
    forall i, j :: 0 <= i < j < |us| ==> us[i].sequence < us[j].sequence
  }

  ghost predicate Listed(us: seq<Update>, sequence: int) {
    exists i :: 0 <= i < |us| && us[i].sequence == sequence
  }

  /** After a replay that began in step at `from`: everything up to the first hole has been applied, and
      exactly what lies beyond the hole is waiting for it. */
  ghost predicate CaughtUp(end: Replica, from: nat, us: seq<Update>) {
    && from <= end.sequence
    && (forall k :: from < k <= end.sequence ==> Listed(us, k))
    && !Listed(us, end.sequence + 1)
    && (end.synchronized <==> forall i :: 0 <= i < |us| ==> us[i].sequence <= end.sequence)
    && (!end.synchronized ==> end.missing == end.sequence + 1)
    && (forall k :: k in end.buffer <==> Listed(us, k) && k > end.sequence)
  }

  lemma ListedHead(us: seq<Update>, k: int)
    requires us != []
    ensures Listed(us, k) <==> us[0].sequence == k || Listed(us[1..], k)
  {
    if Listed(us[1..], k) {
      var i :| 0 <= i < |us[1..]| && us[1..][i].sequence == k;
      assert us[i + 1].sequence == k;
    }
    if Listed(us, k) && us[0].sequence != k {
      var i :| 0 <= i < |us| && us[i].sequence == k;
      assert us[1..][i - 1].sequence == k;
    }
  }

  lemma KeepSize(buffer: map<nat, Update>, u: Update)
    ensures |Keep(buffer, u)| <= |buffer| + 1
    ensures forall k :: k in Keep(buffer, u) <==> k in buffer || k == u.sequence
  {
  }

  lemma {:induction false} RestIsBuffered(r: Replica, us: seq<Update>)
    requires !r.synchronized && |r.buffer| + |us| <= MAX_BUFFER
    requires forall i :: 0 <= i < |us| ==> ValidUpdate(us[i]) && us[i].sequence > r.sequence
    ensures var end := Replay(r, us);
            && end == r.(buffer := end.buffer)
            && forall k :: k in end.buffer <==> k in r.buffer || Listed(us, k)
    decreases |us|
  {
    hide Keep, ValidUpdate;
    if us != [] {
      KeepSize(r.buffer, us[0]);
      var next := Apply(r, us[0]);
      assert next == r.(buffer := Keep(r.buffer, us[0]));
      RestIsBuffered(next, us[1..]);
      forall k ensures Listed(us, k) <==> us[0].sequence == k || Listed(us[1..], k) {
        ListedHead(us, k);
      }
    }
  }

  lemma GapStopsReplay(r: Replica, us: seq<Update>)
    requires r.synchronized && r.buffer == map[] && us != [] && |us| <= MAX_BUFFER && Rising(us)
    requires us[0].sequence > r.sequence + 1
    requires forall i :: 0 <= i < |us| ==> ValidUpdate(us[i])
    ensures CaughtUp(Replay(r, us), r.sequence, us)
  {
    hide ValidUpdate;
    var next := Gapped(r, us[0]);
    KeepSize(r.buffer, us[0]);
    assert Keep(map[], us[0]) == map[us[0].sequence := us[0]];
    RestIsBuffered(next, us[1..]);
    forall k ensures Listed(us, k) <==> us[0].sequence == k || Listed(us[1..], k) {
      ListedHead(us, k);
    }
    assert us[0].sequence in Replay(r, us).buffer;
  }

  lemma {:induction false} ReplayCatchesUp(f: Stream, r: Replica, us: seq<Update>)
    requires Proper(f) && Agrees(f, r) && r.synchronized && r.buffer == map[]
    requires FromStream(f, us) && Rising(us) && |us| <= MAX_BUFFER
    ensures CaughtUp(Replay(r, us), r.sequence, us)
    decreases |us|
  {
    hide PatchAll, Patch, Crossed;
    if us == [] {
    } else if us[0].sequence > r.sequence + 1 {
      GapStopsReplay(r, us);
    } else {
      ReplayGoesOn(f, r, us);
    }
  }

  lemma {:induction false} ReplayGoesOn(f: Stream, r: Replica, us: seq<Update>)
    requires Proper(f) && Agrees(f, r) && r.synchronized && r.buffer == map[]
    requires FromStream(f, us) && Rising(us) && |us| <= MAX_BUFFER
    requires us != [] && us[0].sequence <= r.sequence + 1
    ensures CaughtUp(Replay(r, us), r.sequence, us)
    decreases |us|, 0
  {
    hide PatchAll, Patch, Crossed, Agrees, Proper;
    var next := if us[0].sequence <= r.sequence then r else Apply(r, us[0]);
    if us[0].sequence == r.sequence + 1 {
      NextAgrees(f, r, us[0]);
      ApplyAgrees(f, r, us[0]);
      StreamIsValid(f, us[0]);
      assert next.synchronized && next.buffer == map[] && next.sequence == r.sequence + 1;
    }
    ReplayCatchesUp(f, next, us[1..]);
    forall k ensures Listed(us, k) <==> us[0].sequence == k || Listed(us[1..], k) {
      ListedHead(us, k);
    }
    Extends(Replay(r, us), r.sequence, next.sequence, us);
  }

  lemma StreamIsValid(f: Stream, u: Update)
    requires Proper(f) && OfStream(f, u)
    ensures ValidUpdate(u)
  {
    hide Crossed, PatchAll;
  }

  lemma Extends(end: Replica, from: nat, next: nat, us: seq<Update>)
    requires us != [] && CaughtUp(end, next, us[1..])
    requires (us[0].sequence <= from && next == from) || (us[0].sequence == from + 1 == next)
    ensures CaughtUp(end, from, us)
  {
    hide Listed;
    forall k ensures Listed(us, k) <==> us[0].sequence == k || Listed(us[1..], k) {
      ListedHead(us, k);
    }
    assert forall i :: 0 < i < |us| ==> us[i] == us[1..][i - 1];
  }

  /** Recovery is exact: after a snapshot the book has applied everything buffered up to the first hole, names
      that hole, keeps exactly what lies beyond it, and is synchronized if and only if nothing does. */
  lemma RecoveryIsExact(f: Stream, r: Replica, s: DepthSnapshot)
    requires Proper(f) && Sound(r) && Agrees(f, r) && Faithful(f, Resync(s)) && ValidSnapshot(s)
    ensures var end := ApplySnapshot(r, s);
            && s.sequence <= end.sequence
            && (forall k :: s.sequence < k <= end.sequence ==> k in r.buffer)
            && end.sequence + 1 !in r.buffer
            && (end.synchronized <==> forall k :: k in r.buffer ==> k <= end.sequence)
            && (!end.synchronized ==> end.missing == end.sequence + 1)
            && (forall k :: k in end.buffer <==> k in r.buffer && k > end.sequence)
  {
    hide Proper, Replay, Buffered, ValidSnapshot, FromStream, Rising, CaughtUp, Sound, Agrees, LevelsOf;
    BufferIsFromStream(f, r);
    InstalledAgrees(f, r, s);
    var end := Replay(Installed(r, s), Buffered(r));
    ReplayCatchesUp(f, Installed(r, s), Buffered(r));
    CaughtUpWithBuffer(r, s.sequence, end);
    assert Replayed(r, s) == end;
  }

  lemma InstalledAgrees(f: Stream, r: Replica, s: DepthSnapshot)
    requires Faithful(f, Resync(s)) && ValidSnapshot(s)
    ensures Agrees(f, Installed(r, s))
  {
    hide PatchAll, Crossed, Built;
  }

  lemma CaughtUpWithBuffer(r: Replica, from: nat, end: Replica)
    requires CaughtUp(end, from, Buffered(r))
    requires forall k :: k in r.buffer <==> Listed(Buffered(r), k)
    ensures from <= end.sequence
    ensures forall k :: from < k <= end.sequence ==> k in r.buffer
    ensures end.sequence + 1 !in r.buffer
    ensures end.synchronized <==> forall k :: k in r.buffer ==> k <= end.sequence
    ensures !end.synchronized ==> end.missing == end.sequence + 1
    ensures forall k :: k in end.buffer <==> k in r.buffer && k > end.sequence
  {
    hide Buffered;
    var us := Buffered(r);
    if forall k :: k in r.buffer ==> k <= end.sequence {
      forall i | 0 <= i < |us| ensures us[i].sequence <= end.sequence {
        assert Listed(us, us[i].sequence);
      }
    }
  }

  // ---------- what the answers tell ----------

  /** The answer to an increment tells what became of it: accepted exactly if the book has moved on to its number,
      a gap exactly if it came too early or while the book waits for a snapshot, and then it is in the buffer unless
      that was full. A stale or invalid one changes nothing. */
  lemma AnswersTellIncrements(r: Replica, u: Update)
    ensures var next, answer := Apply(r, u), ApplyAnswer(r, u);
            && (answer.Thrown? <==> !ValidUpdate(u))
            && (answer.Thrown? || u.sequence <= r.sequence ==> next == r)
            && (answer.Decision? ==>
                  && answer.received == u.sequence
                  && (answer.accepted <==> next.sequence != r.sequence)
                  && (answer.accepted ==>
                        u.sequence == r.sequence + 1 == next.sequence && r.synchronized && next.synchronized)
                  && (answer.gap <==> u.sequence > r.sequence && (!r.synchronized || u.sequence > r.sequence + 1))
                  && (answer.gap ==>
                        && !next.synchronized && next.levels == r.levels
                        && (answer.verdict.BufferFull? ==> next == r && |r.buffer| >= 4096)
                        && (!answer.verdict.BufferFull? ==> u.sequence in next.buffer))
                  && (answer.gap && r.synchronized ==>
                        answer.expected == r.sequence + 1 == next.missing && next.gaps == r.gaps + 1)
                  && (r.synchronized && u.sequence == r.sequence + 1 && !answer.accepted ==>
                        answer.verdict.CrossedMarket? && !next.synchronized && Crossed(next.levels)))
  {
    hide Crossed, Patch;
  }

  /** A snapshot is accepted exactly if it is valid; the answer names a gap exactly if the replay has found a hole, and
      the number that is expected is the one the book waits for. */
  lemma AnswersTellSnapshots(r: Replica, s: DepthSnapshot)
    ensures var next, answer := ApplySnapshot(r, s), SnapshotAnswer(r, s);
            && (answer.Thrown? <==> !ValidSnapshot(s)) && (answer.Thrown? ==> next == r)
            && (answer.Decision? ==>
                  && answer.accepted && answer.received == s.sequence && (answer.gap <==> !next.synchronized)
                  && answer.expected == (if next.synchronized then next.sequence + 1 else next.missing)
                  && (answer.verdict.RecoveryCompleted? <==>
                        next.synchronized && (r.buffer != map[] || r.missing != 0))
                  && next.recoveries ==
                       Replayed(r, s).recoveries + (if answer.verdict.RecoveryCompleted? then 1 else 0))
  {
    hide Replayed, ValidSnapshot;
  }

  /** A batch is accepted exactly if it is empty or the book has moved on to its number; whatever else happens, the
      levels stay. */
  lemma AnswersTellBatches(r: Replica, us: seq<Update>)
    ensures var next, answer := ApplyBatch(r, us), BatchAnswer(r, us);
            && (answer.Thrown? ==> next == r)
            && (answer.Decision? ==>
                  && (answer.accepted <==> us == [] || next.sequence == r.sequence + 1)
                  && (!answer.accepted ==> !next.synchronized && next.levels == r.levels)
                  && (answer.gap ==> !r.synchronized || us[0].sequence != r.sequence + 1))
  {
    hide PatchAll, Crossed, Coherent, Latest;
  }

  /** A batch is dated by the latest of its updates. */
  lemma {:induction false} LatestIsTheGreatest(us: seq<Update>)
    requires us != []
    ensures forall k :: 0 <= k < |us| ==> us[k].timestamp <= Latest(us)
    ensures exists k :: 0 <= k < |us| && us[k].timestamp == Latest(us)
    decreases |us|
  {
    var n := |us| - 1;
    if n == 0 {
      assert us[0].timestamp == Latest(us);
    } else {
      var init := us[..n];
      LatestIsTheGreatest(init);
      var k :| 0 <= k < |init| && init[k].timestamp == Latest(init);
      assert us[k] == init[k] && forall j :: 0 <= j < n ==> us[j] == init[j];
      assert us[n].timestamp == Latest(us) || us[k].timestamp == Latest(us);
    }
  }
}
