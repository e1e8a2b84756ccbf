/** The Kraken normalizer: a top-N book kept from partial levels, and the numbered differences between one
    published book and the next. */
module Kraken {
  import opened Depth

  /** A stored level keeps the texts its checksum is computed from. */
  datatype Stored = Stored(quantity: real, priceText: string, quantityText: string)

  datatype ChecksumLevel = ChecksumLevel(price: real, quantity: real, priceText: string, quantityText: string)

  datatype Message = Message(
    valid: bool, ignored: bool, snapshot: bool, timestamp: nat, checksum: nat,
    bids: seq<ChecksumLevel>, asks: seq<ChecksumLevel>)

  datatype Depths = Depths(bids: map<real, Stored>, asks: map<real, Stored>)

  datatype Normalizer = Normalizer(symbol: string, depth: nat, sequence: nat, synchronized: bool, book: Depths)

  const VENUE := "KRAKEN"

  function Entered(m: map<real, Stored>, level: ChecksumLevel): map<real, Stored> {
    if level.quantity == 0.0 then m - {level.price}
    else m[level.price := Stored(level.quantity, level.priceText, level.quantityText)]
  }

  function EnteredAll(m: map<real, Stored>, levels: seq<ChecksumLevel>): map<real, Stored> {
    if levels == [] then m else Entered(EnteredAll(m, levels[..|levels| - 1]), levels[|levels| - 1])
  }

  predicate Better(highest: bool, a: real, b: real) { if highest then a > b else a < b }

  /** The prices of `m` better than `p`. */
  function BetterThan(prices: set<real>, p: real, highest: bool): set<real> {
    set x | x in prices && Better(highest, x, p)
  }

  /** The best `depth` levels: those with fewer than `depth` better ones. */
  function Top(m: map<real, Stored>, depth: nat, highest: bool): map<real, Stored> {
    map p | p in m && |BetterThan(m.Keys, p, highest)| < depth :: m[p]
  }

  function Trimmed(d: Depths, depth: nat): Depths {
    Depths(Top(d.bids, depth, true), Top(d.asks, depth, false))
  }

  function Absorbed(d: Depths, m: Message, depth: nat): Depths {
    Trimmed(Depths(EnteredAll(d.bids, m.bids), EnteredAll(d.asks, m.asks)), depth)
  }

  // ---------- trimming ----------

  ghost predicate IsWorst(prices: set<real>, p: real, highest: bool) {
    p in prices && forall x :: x in prices && x != p ==> Better(highest, x, p)
  }

  lemma BetterWithoutWorst(m: map<real, Stored>, highest: bool, worst: real, p: real)
    requires IsWorst(m.Keys, worst, highest) && p in m && p != worst
    ensures BetterThan(m.Keys, p, highest) == BetterThan((m - {worst}).Keys, p, highest)
  {
  }

  lemma AllBetterThanWorst(m: map<real, Stored>, highest: bool, worst: real)
    requires IsWorst(m.Keys, worst, highest)
    ensures |BetterThan(m.Keys, worst, highest)| == |m| - 1
  {
    assert BetterThan(m.Keys, worst, highest) == m.Keys - {worst};
    assert |m.Keys - {worst}| == |m.Keys| - 1;
  }

  /** The worst of more than `depth` levels has `depth` better ones or more; taking it off changes no other
      level's count. */
  lemma TopWithoutWorst(m: map<real, Stored>, depth: nat, highest: bool, worst: real)
    requires |m| > depth && IsWorst(m.Keys, worst, highest)
    ensures Top(m, depth, highest) == Top(m - {worst}, depth, highest)
  {
    hide BetterThan, IsWorst;
    AllBetterThanWorst(m, highest, worst);
    forall p | p in m && p != worst
      ensures BetterThan(m.Keys, p, highest) == BetterThan((m - {worst}).Keys, p, highest)
    {
      BetterWithoutWorst(m, highest, worst, p);
    }
  }

  lemma {:induction false} SubsetIsNoLarger(a: set<real>, b: set<real>)
    requires a <= b
    ensures |a| <= |b|
    decreases |a|
  {
    SomeMember(a);
    if a != {} {
      var x :| x in a;
      SubsetIsNoLarger(a - {x}, b - {x});
    }
  }

  /** When nothing has to go, nothing goes. */
  lemma TopOfFew(m: map<real, Stored>, depth: nat, highest: bool)
    requires |m| <= depth
    ensures Top(m, depth, highest) == m
  {
    hide Better;
    forall p | p in m ensures |BetterThan(m.Keys, p, highest)| < depth {
      BetterIsStrict(highest, p);
      SubsetIsNoLarger(BetterThan(m.Keys, p, highest), m.Keys - {p});
    }
  }

  lemma BetterIsStrict(highest: bool, p: real)
    ensures !Better(highest, p, p)
  {
  }

  lemma WorstExists(m: map<real, Stored>, highest: bool) returns (worst: real)
    requires m != map[]
    ensures IsWorst(m.Keys, worst, highest)
  {
    assert m.Keys != {};
    BestPriceExists(m.Keys, !highest);
    worst :| worst in m.Keys && forall x :: x in m.Keys ==> if !highest then x <= worst else x >= worst;
  }

  lemma {:induction false} TopSize(m: map<real, Stored>, depth: nat, highest: bool)
    ensures |Top(m, depth, highest)| == if |m| < depth then |m| else depth
    decreases |m|
  {
    hide Top, Better;
    if |m| <= depth {
      TopOfFew(m, depth, highest);
    } else {
      var worst := WorstExists(m, highest);
      TopWithoutWorst(m, depth, highest, worst);
      assert (m - {worst}).Keys == m.Keys - {worst};
      TopSize(m - {worst}, depth, highest);
    }
  }

  /** The kept levels are the best ones: as many as fit, each better than every level that was dropped. */
  lemma TopKeepsTheBest(m: map<real, Stored>, depth: nat, highest: bool)
    ensures var top := Top(m, depth, highest);
            && |top| == (if |m| < depth then |m| else depth)
            && (forall p :: p in top ==> p in m && top[p] == m[p])
            && (forall p, q :: p in top && q in m && q !in top ==> Better(highest, p, q))
  {
    TopSize(m, depth, highest);
    var top := Top(m, depth, highest);
    forall p, q | p in top && q in m && q !in top ensures Better(highest, p, q) {
      if !Better(highest, p, q) {
        SubsetIsNoLarger(BetterThan(m.Keys, q, highest), BetterThan(m.Keys, p, highest));
      }
    }
  }

  // ---------- the normalizer ----------

  function Quantities(m: map<real, Stored>): map<real, real> { map p | p in m :: m[p].quantity }

  function Plain(d: Depths): Levels { Levels(Quantities(d.bids), Quantities(d.asks)) }

  function StoredSide(d: Depths, side: BookSide): map<real, Stored> { if side.Bid? then d.bids else d.asks }

  predicate Gone(before: map<real, Stored>, after: map<real, Stored>, p: real) { p in before && p !in after }

  predicate Changed(before: map<real, Stored>, after: map<real, Stored>, p: real) {
    p in after && (p !in before || before[p].quantity != after[p].quantity)
  }

  /** The update deletes a level that is gone, or publishes one that is new or has another quantity. */
  predicate Earned(u: Update, before: map<real, Stored>, after: map<real, Stored>) {
    if u.kind.Delete? then u.quantity == 0.0 && Gone(before, after, u.price)
    else u.kind.Upsert? && Changed(before, after, u.price) && u.quantity == after[u.price].quantity
  }

  /** `us` are exactly the differences between two published books, numbered `sequence`. */
  ghost predicate IsDiff(
    us: seq<Update>, symbol: string, sequence: nat, timestamp: nat, before: Depths, after: Depths)
  {
    && (forall k :: 0 <= k < |us| ==> Labelled(us[k], symbol, sequence, timestamp))
    && (forall k :: 0 <= k < |us| ==> Earned(us[k], StoredSide(before, us[k].side), StoredSide(after, us[k].side)))
    && (forall side, p :: Gone(StoredSide(before, side), StoredSide(after, side), p) ==> Mentions(us, side, p))
    && (forall side, p :: Changed(StoredSide(before, side), StoredSide(after, side), p) ==> Mentions(us, side, p))
    && Arranged(us)
  }

  /** Which of the four loops of normalize_update writes the update. */
  function Section(u: Update): nat { (if u.kind.Delete? then 0 else 2) + (if u.side.Bid? then 0 else 1) }

  predicate Precedes(u: Update, v: Update) {
    Section(u) < Section(v) || (Section(u) == Section(v) && Better(u.side.Bid?, u.price, v.price))
  }

  /** Deletes before upserts, bids before asks, better prices first; so no side lists a price twice. */
  ghost predicate Arranged(us: seq<Update>) { forall i, j :: 0 <= i < j < |us| ==> Precedes(us[i], us[j]) }

  /** Everything from `from` on in the order of an ordered map. */
  ghost predicate InOrderFrom(us: seq<Update>, from: nat, highest: bool) {
    forall i, j :: from <= i < j < |us| ==> Better(highest, us[i].price, us[j].price)
  }

  lemma SectionsArrange(us: seq<Update>, a: nat, b: nat, c: nat)
    requires a <= b <= c <= |us|
    requires forall k :: 0 <= k < |us| ==>
              Section(us[k]) == if k < a then 0 else if k < b then 1 else if k < c then 2 else 3
    requires InOrderFrom(us[..a], 0, true) && InOrderFrom(us[..b], a, false)
    requires InOrderFrom(us[..c], b, true) && InOrderFrom(us, c, false)
    ensures Arranged(us)
  {
    hide Better;
    forall i, j | 0 <= i < j < |us| ensures Precedes(us[i], us[j]) {
      assert j < a ==> us[..a][i] == us[i] && us[..a][j] == us[j];
      assert j < b ==> us[..b][i] == us[i] && us[..b][j] == us[j];
      assert j < c ==> us[..c][i] == us[i] && us[..c][j] == us[j];
      SectionSide(us[i]);
    }
  }

  lemma SectionSide(u: Update)
    ensures u.side.Bid? <==> Section(u) == 0 || Section(u) == 2
  {
  }

  /** Levels in the order of the map they come from. */
  ghost predicate BestFirst(levels: seq<PriceLevel>, highest: bool) {
    forall i, j :: 0 <= i < j < |levels| ==> Better(highest, levels[i].price, levels[j].price)
  }

  predicate Labelled(u: Update, symbol: string, sequence: nat, timestamp: nat) {
    u.venue == VENUE && u.symbol == symbol && u.sequence == sequence && u.timestamp == timestamp
  }

  /** `levels` lists each level of `m` once. */
  ghost predicate Enumerates(levels: seq<PriceLevel>, m: map<real, Stored>) {
    && |levels| == |m|
    && (forall k :: 0 <= k < |levels| ==> levels[k].price in m && levels[k].quantity == m[levels[k].price].quantity)
    && (forall p :: p in m ==> exists k :: 0 <= k < |levels| && levels[k].price == p)
  }

  datatype SnapshotOutcome = Published(snapshot: DepthSnapshot) | NotASnapshot | SnapshotMismatch

  datatype UpdateOutcome = Diffed(updates: seq<Update>) | NotAnUpdate | SnapshotNeeded | UpdateMismatch

  predicate ChecksumHolds(m: Message, actual: nat) { m.checksum == 0 || actual == m.checksum }

  predicate IsSnapshot(m: Message) { m.valid && !m.ignored && m.snapshot }

  predicate IsUpdate(m: Message) { m.valid && !m.ignored && !m.snapshot }

  function TakeSnapshot(n: Normalizer, m: Message, checksumOf: Depths -> nat): Normalizer {
    if !IsSnapshot(m) then n
    else
      var book := Absorbed(Depths(map[], map[]), m, n.depth);
      n.(sequence := 0, book := book, synchronized := ChecksumHolds(m, checksumOf(book)))
  }

  function TakeUpdate(n: Normalizer, m: Message, checksumOf: Depths -> nat): Normalizer {
    if !IsUpdate(m) || !n.synchronized then n
    else
      var book := Absorbed(n.book, m, n.depth);
      if ChecksumHolds(m, checksumOf(book)) then n.(sequence := n.sequence + 1, book := book)
      else n.(book := book, synchronized := false)
  }

  class KrakenBookNormalizer {
    const symbol: string
    const depth: nat
    /** The checksum is not modelled further: any function of the stored book. */
    const checksumOf: Depths -> nat
    var sequence: nat
    var synchronized: bool
    var bids: map<real, Stored>
    var asks: map<real, Stored>

    ghost function View(): Normalizer
      reads this
    {
      Normalizer(symbol, depth, sequence, synchronized, Depths(bids, asks))
    }

    /** The source throws for an empty symbol or a depth of zero. */
    constructor (symbol: string, depth: nat, checksumOf: Depths -> nat)
      requires symbol != "" && depth > 0
      ensures View() == Normalizer(symbol, depth, 0, false, Depths(map[], map[]))
      ensures this.checksumOf == checksumOf
    {
      this.symbol, this.depth, this.checksumOf := symbol, depth, checksumOf;
      sequence, synchronized, bids, asks := 0, false, map[], map[];
    }

    method Reset()
      modifies this
      ensures View() == Normalizer(symbol, depth, 0, false, Depths(map[], map[]))
    {
      sequence, synchronized, bids, asks := 0, false, map[], map[];
    }

    method ApplyLevels(levels: seq<ChecksumLevel>, side: BookSide)
      modifies this`bids, this`asks
      ensures bids == if side.Bid? then EnteredAll(old(bids), levels) else old(bids)
      ensures asks == if side.Ask? then EnteredAll(old(asks), levels) else old(asks)
    {
      hide Entered;
      for i := 0 to |levels|
        invariant bids == if side.Bid? then EnteredAll(old(bids), levels[..i]) else old(bids)
        invariant asks == if side.Ask? then EnteredAll(old(asks), levels[..i]) else old(asks)
      {
        assert levels[..i + 1][..i] == levels[..i];
        if side.Bid? { bids := Entered(bids, levels[i]); } else { asks := Entered(asks, levels[i]); }
      }
      assert levels[..|levels|] == levels;
    }

    static method Trim(levels: map<real, Stored>, depth: nat, highest: bool) returns (m: map<real, Stored>)
      ensures m == Top(levels, depth, highest)
    {
      hide Top, BetterThan;
      m := levels;
      while |m| > depth
        invariant Top(m, depth, highest) == Top(levels, depth, highest)
        decreases |m|
      {
        assert m.Keys != {};
        var worst := Best(m.Keys, !highest);
        TopWithoutWorst(m, depth, highest, worst);
        assert (m - {worst}).Keys == m.Keys - {worst};
        m := m - {worst};
      }
      TopOfFew(m, depth, highest);
    }

    method TrimToDepth()
      modifies this`bids, this`asks
      ensures Depths(bids, asks) == Trimmed(Depths(old(bids), old(asks)), depth)
    {
      hide Top;
      bids := Trim(bids, depth, true);
      asks := Trim(asks, depth, false);
    }

    static method LevelList(m: map<real, Stored>, highest: bool) returns (levels: seq<PriceLevel>)
      ensures Enumerates(levels, m) && BestFirst(levels, highest)
    {
      levels := [];
      var todo := m.Keys;
      while todo != {}
        invariant todo <= m.Keys && |levels| == |m| - |todo|
        invariant forall k :: 0 <= k < |levels| ==>
                  levels[k].price in m && levels[k].quantity == m[levels[k].price].quantity
        invariant forall p :: p in m ==> p in todo || exists k :: 0 <= k < |levels| && levels[k].price == p
        invariant BestFirst(levels, highest)
        invariant forall k, x :: 0 <= k < |levels| && x in todo ==> Better(highest, levels[k].price, x)
        decreases |todo|
      {
        var p := Best(todo, highest);
        ghost var before := levels;
        levels := levels + [PriceLevel(p, m[p].quantity)];
        assert levels[|before|].price == p;
        forall x | x in m && x !in todo ensures exists k :: 0 <= k < |levels| && levels[k].price == x {
          var k :| 0 <= k < |before| && before[k].price == x;
          assert levels[k].price == x;
        }
        todo := todo - {p};
      }
    }

    method NormalizeSnapshot(m: Message) returns (outcome: SnapshotOutcome)
      modifies this
      ensures View() == TakeSnapshot(old(View()), m, checksumOf)
      ensures if !IsSnapshot(m) then outcome == NotASnapshot
              else if !synchronized then outcome == SnapshotMismatch
              else
                && outcome.Published?
                && var s := outcome.snapshot;
                   && s.venue == VENUE && s.symbol == symbol && s.sequence == 0 && s.timestamp == m.timestamp
                   && Enumerates(s.bids, bids) && BestFirst(s.bids, true)
                   && Enumerates(s.asks, asks) && BestFirst(s.asks, false)
    {
      hide EnteredAll, Top, Enumerates, BestFirst;
      if !m.valid || m.ignored || !m.snapshot { return NotASnapshot; }
      sequence := 0;
      bids, asks := map[], map[];
      ApplyLevels(m.bids, Bid);
      ApplyLevels(m.asks, Ask);
      TrimToDepth();
      var actual := checksumOf(Depths(bids, asks));
      synchronized := m.checksum == 0 || actual == m.checksum;
      if !synchronized { return SnapshotMismatch; }
      var bidList := LevelList(bids, true);
      var askList := LevelList(asks, false);
      return Published(DepthSnapshot(VENUE, symbol, sequence, m.timestamp, bidList, askList));
    }

    method AppendDeletes(
        us: seq<Update>, before: map<real, Stored>, after: map<real, Stored>, side: BookSide, timestamp: nat)
      returns (r: seq<Update>)
      ensures us <= r && InOrderFrom(r, |us|, side.Bid?)
      ensures forall k :: |us| <= k < |r| ==> r[k].kind == Delete
      ensures forall k :: |us| <= k < |r| ==>
                r[k].side == side && Labelled(r[k], symbol, sequence, timestamp) && Earned(r[k], before, after)
      ensures forall p :: Gone(before, after, p) ==> Mentions(r, side, p)
    {
      hide Mentions;
      r := us;
      var todo := before.Keys;
      while todo != {}
        invariant todo <= before.Keys && us <= r
        invariant forall k :: |us| <= k < |r| ==>
                    r[k].side == side && Labelled(r[k], symbol, sequence, timestamp) && Earned(r[k], before, after)
        invariant forall p :: Gone(before, after, p) ==> p in todo || Mentions(r, side, p)
        invariant InOrderFrom(r, |us|, side.Bid?) && forall k :: |us| <= k < |r| ==> r[k].kind == Delete
        invariant forall k, x :: |us| <= k < |r| && x in todo ==> Better(side.Bid?, r[k].price, x)
        decreases |todo|
      {
        var p := Best(todo, side.Bid?);
        todo := todo - {p};
        if p !in after {
          var u := Update(VENUE, symbol, sequence, timestamp, side, Delete, p, 0.0);
          StillMentioned(r, u);
          r := r + [u];
        }
      }
    }

    method AppendUpserts(
        us: seq<Update>, before: map<real, Stored>, after: map<real, Stored>, side: BookSide, timestamp: nat)
      returns (r: seq<Update>)
      ensures us <= r && InOrderFrom(r, |us|, side.Bid?)
      ensures forall k :: |us| <= k < |r| ==> r[k].kind == Upsert
      ensures forall k :: |us| <= k < |r| ==>
                r[k].side == side && Labelled(r[k], symbol, sequence, timestamp) && Earned(r[k], before, after)
      ensures forall p :: Changed(before, after, p) ==> Mentions(r, side, p)
    {
      hide Mentions;
      r := us;
      var todo := after.Keys;
      while todo != {}
        invariant todo <= after.Keys && us <= r
        invariant forall k :: |us| <= k < |r| ==>
                    r[k].side == side && Labelled(r[k], symbol, sequence, timestamp) && Earned(r[k], before, after)
        invariant forall p :: Changed(before, after, p) ==> p in todo || Mentions(r, side, p)
        invariant InOrderFrom(r, |us|, side.Bid?) && forall k :: |us| <= k < |r| ==> r[k].kind == Upsert
        invariant forall k, x :: |us| <= k < |r| && x in todo ==> Better(side.Bid?, r[k].price, x)
        decreases |todo|
      {
        var p := Best(todo, side.Bid?);
        todo := todo - {p};
        if p !in before || before[p].quantity != after[p].quantity {
          var u := Update(VENUE, symbol, sequence, timestamp, side, Upsert, p, after[p].quantity);
          StillMentioned(r, u);
          r := r + [u];
        }
      }
    }

    /** The difference between the book published before and the book now. */
    method Differences(previousBids: map<real, Stored>, previousAsks: map<real, Stored>, timestamp: nat)
      returns (us: seq<Update>)
      ensures IsDiff(us, symbol, sequence, timestamp, Depths(previousBids, previousAsks), Depths(bids, asks))
    {
      hide Mentions, Labelled, Earned, Gone, Changed, InOrderFrom, Arranged, Better;
      var us1 := AppendDeletes([], previousBids, bids, Bid, timestamp);
      var us2 := AppendDeletes(us1, previousAsks, asks, Ask, timestamp);
      var us3 := AppendUpserts(us2, previousBids, bids, Bid, timestamp);
      us := AppendUpserts(us3, previousAsks, asks, Ask, timestamp);
      MentionedInPrefix(us1, us2);
      MentionedInPrefix(us2, us3);
      MentionedInPrefix(us3, us);
      assert us[..|us1|] == us1 && us[..|us2|] == us2 && us[..|us3|] == us3;
      SectionsArrange(us, |us1|, |us2|, |us3|);
      forall k | 0 <= k < |us|
        ensures Labelled(us[k], symbol, sequence, timestamp)
        ensures if us[k].side.Bid? then Earned(us[k], previousBids, bids) else Earned(us[k], previousAsks, asks)
      {
        assert k < |us3| ==> us[k] == us3[k];
        assert k < |us2| ==> us[k] == us2[k];
        assert k < |us1| ==> us[k] == us1[k];
      }
    }

    method NormalizeUpdate(m: Message) returns (outcome: UpdateOutcome)
      modifies this
      ensures View() == TakeUpdate(old(View()), m, checksumOf)
      ensures if !IsUpdate(m) then outcome == NotAnUpdate
              else if !old(synchronized) then outcome == SnapshotNeeded
              else if !synchronized then outcome == UpdateMismatch
              else
                && outcome.Diffed?
                && IsDiff(outcome.updates, symbol, sequence, m.timestamp, Depths(old(bids), old(asks)),
                     Depths(bids, asks))
    {
      hide EnteredAll, Top, IsDiff;
      if !m.valid || m.ignored || m.snapshot { return NotAnUpdate; }
      if !synchronized { return SnapshotNeeded; }
      var previousBids, previousAsks := bids, asks;
      ApplyLevels(m.bids, Bid);
      ApplyLevels(m.asks, Ask);
      TrimToDepth();
      var actual := checksumOf(Depths(bids, asks));
      if m.checksum != 0 && actual != m.checksum {
        synchronized := false;
        return UpdateMismatch;
      }
      sequence := sequence + 1;
      var updates := Differences(previousBids, previousAsks, m.timestamp);
      return Diffed(updates);
    }
  }

  lemma StillMentioned(us: seq<Update>, u: Update)
    ensures Mentions(us + [u], u.side, u.price)
    ensures forall side, p :: Mentions(us, side, p) ==> Mentions(us + [u], side, p)
  {
    assert (us + [u])[|us|] == u;
    MentionedInPrefix(us, us + [u]);
  }

  lemma MentionedInPrefix(a: seq<Update>, b: seq<Update>)
    requires a <= b
    ensures forall side, p :: Mentions(a, side, p) ==> Mentions(b, side, p)
  {
    forall side, p | Mentions(a, side, p) ensures Mentions(b, side, p) {
      var k :| 0 <= k < |a| && a[k].side == side && a[k].price == p;
      assert b[k] == a[k];
    }
  }
}
