/** The Exchange class and its snapshots: a list of records, one per symbol in increasing order, each with the
    book's sequence, resting orders and state hash. */
module Venues {
  import opened Options
  import opened Ordered
  import opened Trading
  import opened BookSpec
  import opened BookWalk
  import opened BookSnapshot
  import opened VenueSpec
  import opened Matching

  datatype BookRecord = BookRecord(symbol: nat, sequence: nat, orders: seq<OrderRequest>, hash: bv64)

  function RecordOf(b: Book): BookRecord { BookRecord(b.symbol, b.sequence, RestingOrders(b), StateHash(b)) }

  function Records(books: map<nat, Book>, ss: seq<nat>): (r: seq<BookRecord>)
    requires forall s :: s in ss ==> s in books
    ensures |r| == |ss|
  {
    if ss == [] then [] else Records(books, ss[..|ss| - 1]) + [RecordOf(books[ss[|ss| - 1]])]
  }

  ghost function Snapshot(v: Venue): seq<BookRecord> { Records(v.books, Ascending(v.books.Keys)) }

  /** Rebuild one book; None stands for any of the exceptions. */
  function Rebuilt(record: BookRecord, capacity: nat, policy: StpPolicy): Option<Book> {
    if |record.orders| > capacity then None
    else
      match Restore(Empty(record.symbol, capacity, policy), record.orders, record.sequence)
      case None => None
      case Some(b) => if StateHash(b) == record.hash then Some(b) else None
  }

  datatype Loaded = Loaded(books: map<nat, Book>, ok: bool)

  /** Records are rebuilt in turn; the first that cannot be rebuilt ends the load with the books so far. */
  function Load(books: map<nat, Book>, records: seq<BookRecord>, capacity: nat, policy: StpPolicy): Loaded
    decreases |records|
  {
    if records == [] then Loaded(books, true)
    else
      match Rebuilt(records[0], capacity, policy)
      case None => Loaded(books, false)
      case Some(b) =>
        Load(if b.symbol in books then books else books[b.symbol := b], records[1..], capacity, policy)
  }

  lemma LoadNothing(books: map<nat, Book>, capacity: nat, policy: StpPolicy)
    ensures Load(books, [], capacity, policy) == Loaded(books, true)
  {
  }

  lemma LoadNext(books: map<nat, Book>, records: seq<BookRecord>, i: nat, capacity: nat, policy: StpPolicy)
    requires i < |records|
    ensures Load(books, records[i..], capacity, policy) ==
              match Rebuilt(records[i], capacity, policy)
              case None => Loaded(books, false)
              case Some(b) =>
                Load(if b.symbol in books then books else books[b.symbol := b], records[i + 1..], capacity, policy)
  {
    hide Rebuilt;
    assert records[i..][1..] == records[i + 1..];
  }

  function Settled(b: Book, capacity: nat, policy: StpPolicy): Book { b.(capacity := capacity, policy := policy) }

  lemma RequestsDependOnQueue(b: Book, capacity: nat, policy: StpPolicy)
    ensures RestingOrders(Settled(b, capacity, policy)) == RestingOrders(b)
    ensures |RestingOrders(b)| == |b.bids| + |b.asks|
    ensures StateHash(Settled(b, capacity, policy)) == StateHash(b)
  {
    hide MixAll, WordsOf;
  }

  /** One record rebuilds its book under the loading venue's settings, exactly when its orders fit. */
  lemma RecordRebuilds(b: Book, capacity: nat, policy: StpPolicy)
    requires WellFormed(b)
    ensures Rebuilt(RecordOf(b), capacity, policy) ==
              if |b.bids| + |b.asks| <= capacity then Some(Settled(b, capacity, policy)) else None
  {
    hide StateHash, Restore, RestingOrders;
    RequestsDependOnQueue(b, capacity, policy);
    if |b.bids| + |b.asks| <= capacity {
      SettledIsWellFormed(b, capacity, policy);
      RestoreOwnSnapshot(Settled(b, capacity, policy), Empty(b.symbol, capacity, policy));
    }
  }

  lemma SettledIsWellFormed(b: Book, capacity: nat, policy: StpPolicy)
    requires WellFormed(b) && |b.bids| + |b.asks| <= capacity
    ensures WellFormed(Settled(b, capacity, policy))
  {
  }

  ghost predicate Fits(books: map<nat, Book>, capacity: nat) {
    forall s :: s in books ==> |books[s].bids| + |books[s].asks| <= capacity
  }

  lemma NoRecords(books: map<nat, Book>)
    ensures Records(books, []) == []
  {
  }

  lemma OneMoreRecord(books: map<nat, Book>, ss: seq<nat>, i: nat)
    requires (forall s :: s in ss ==> s in books) && i < |ss|
    ensures Records(books, ss[..i + 1]) == Records(books, ss[..i]) + [RecordOf(books[ss[i]])]
  {
    hide RecordOf;
    assert ss[..i + 1][..i] == ss[..i];
  }

  lemma {:induction false} RecordsAt(books: map<nat, Book>, ss: seq<nat>, k: nat)
    requires (forall s :: s in ss ==> s in books) && k < |ss|
    ensures Records(books, ss)[k] == RecordOf(books[ss[k]])
    decreases |ss|
  {
    hide RecordOf;
    if |ss| > 1 {
      RecordsAt(books, ss[..|ss| - 1], if k < |ss| - 1 then k else 0);
    }
  }

  function SettledBooks(books: map<nat, Book>, capacity: nat, policy: StpPolicy, keys: set<nat>): map<nat, Book> {
    map s | s in books && s in keys :: Settled(books[s], capacity, policy)
  }

  function FirstOf(ss: seq<nat>, k: nat): set<nat>
    requires k <= |ss|
  {
    set i | 0 <= i < k :: ss[i]
  }

  lemma {:induction false} LoadFrom(books: map<nat, Book>, ss: seq<nat>, k: nat, capacity: nat, policy: StpPolicy)
    requires Lists(ss, books.Keys) && k <= |ss| && (forall s :: s in ss ==> s in books)
    requires forall s :: s in books ==> WellFormed(books[s]) && books[s].symbol == s
    requires forall i :: 0 <= i < k ==> |books[ss[i]].bids| + |books[ss[i]].asks| <= capacity
    ensures var done := SettledBooks(books, capacity, policy, FirstOf(ss, k));
            var loaded := Load(done, Records(books, ss)[k..], capacity, policy);
            && (loaded.ok <==> Fits(books, capacity))
            && (loaded.ok ==> loaded.books == SettledBooks(books, capacity, policy, books.Keys))
    decreases |ss| - k
  {
    hide WellFormed, Rebuilt, RecordOf, Records, Settled;
    var records := Records(books, ss);
    var done := SettledBooks(books, capacity, policy, FirstOf(ss, k));
    if k == |ss| {
      AllOf(ss, books.Keys);
      assert done == SettledBooks(books, capacity, policy, books.Keys);
      assert Fits(books, capacity);
    } else {
      RecordsAt(books, ss, k);
      var b := books[ss[k]];
      RecordRebuilds(b, capacity, policy);
      if |b.bids| + |b.asks| <= capacity {
        NextLoaded(books, ss, k, capacity, policy);
        assert records[k..][1..] == records[k + 1..];
        LoadFrom(books, ss, k + 1, capacity, policy);
      }
    }
  }

  lemma AllOf(ss: seq<nat>, keys: set<nat>)
    requires Lists(ss, keys)
    ensures FirstOf(ss, |ss|) == keys
  {
    forall s | s in keys ensures s in FirstOf(ss, |ss|) {
      var i :| 0 <= i < |ss| && ss[i] == s;
    }
  }

  lemma OneMore(ss: seq<nat>, k: nat, keys: set<nat>)
    requires Lists(ss, keys) && k < |ss|
    ensures FirstOf(ss, k + 1) == FirstOf(ss, k) + {ss[k]} && ss[k] !in FirstOf(ss, k)
  {
  }

  lemma NextLoaded(books: map<nat, Book>, ss: seq<nat>, k: nat, capacity: nat, policy: StpPolicy)
    requires Lists(ss, books.Keys) && k < |ss| && (forall s :: s in ss ==> s in books)
    requires books[ss[k]].symbol == ss[k]
    ensures var done := SettledBooks(books, capacity, policy, FirstOf(ss, k));
            var b := Settled(books[ss[k]], capacity, policy);
            && b.symbol == ss[k] && b.symbol !in done
            && done[b.symbol := b] == SettledBooks(books, capacity, policy, FirstOf(ss, k + 1))
  {
    var done := SettledBooks(books, capacity, policy, FirstOf(ss, k));
    var b := Settled(books[ss[k]], capacity, policy);
    OneMore(ss, k, books.Keys);
    var next := SettledBooks(books, capacity, policy, FirstOf(ss, k + 1));
    assert done[b.symbol := b].Keys == next.Keys;
  }

  /** A venue's own snapshot loads into any venue exactly when every book fits its capacity, and then gives
      back every book, sequence numbers and queue order included, under the loading venue's settings. */
  lemma OwnSnapshotLoads(v: Venue, into: Venue)
    requires Orderly(v)
    ensures var loaded := Load(map[], Snapshot(v), into.capacity, into.policy);
            && (loaded.ok <==> Fits(v.books, into.capacity))
            && (loaded.ok ==> loaded.books == SettledBooks(v.books, into.capacity, into.policy, v.books.Keys))
  {
    hide WellFormed, Load, Records;
    var ss := Ascending(v.books.Keys);
    LoadFrom(v.books, ss, 0, into.capacity, into.policy);
    assert SettledBooks(v.books, into.capacity, into.policy, FirstOf(ss, 0)) == map[];
    assert Records(v.books, ss)[0..] == Records(v.books, ss);
  }

  /** With the same settings, gate and policy, the restored venue is the venue: every later run agrees. */
  lemma RestoredVenueBehavesTheSame(v: Venue, into: Venue, future: seq<VenueCommand>)
    requires Orderly(v)
    requires into.(books := v.books) == v
    ensures var loaded := Load(map[], Snapshot(v), into.capacity, into.policy);
            loaded.ok && VenueRun(into.(books := loaded.books), future) == VenueRun(v, future)
  {
    hide Load, Snapshot, VenueRun, WellFormed;
    OwnSnapshotLoads(v, into);
    EveryBookFits(v);
    assert SettledBooks(v.books, v.capacity, v.policy, v.books.Keys) == v.books by {
      hide WellFormed;
    }
  }

  lemma EveryBookFits(v: Venue)
    requires Orderly(v)
    ensures Fits(v.books, v.capacity)
  {
  }

  function MixWord(hash: bv64, word: bv64): bv64 { (hash ^ word) * 1099511628211 }

  /** The hash of a venue over its symbols in increasing order. */
  function VenueHash(books: map<nat, Book>, ss: seq<nat>): bv64
    requires forall s :: s in ss ==> s in books
  {
    if ss == [] then HASH_SEED
    else
      var s := ss[|ss| - 1];
      MixWord(Mix(VenueHash(books, ss[..|ss| - 1]), s), StateHash(books[s]))
  }

  lemma NothingHashed(books: map<nat, Book>)
    ensures VenueHash(books, []) == HASH_SEED
  {
  }

  lemma OneMoreHashed(books: map<nat, Book>, ss: seq<nat>, i: nat)
    requires (forall s :: s in ss ==> s in books) && i < |ss|
    ensures VenueHash(books, ss[..i + 1]) == MixWord(Mix(VenueHash(books, ss[..i]), ss[i]), StateHash(books[ss[i]]))
  {
    hide Mix, MixWord, StateHash;
    assert ss[..i + 1][..i] == ss[..i];
  }

  /** The hash sees the books only, so a snapshot restores it too. */
  lemma {:induction false} HashSurvivesSettings(books: map<nat, Book>, ss: seq<nat>, capacity: nat, policy: StpPolicy)
    requires forall s :: s in ss ==> s in books
    ensures VenueHash(SettledBooks(books, capacity, policy, books.Keys), ss) == VenueHash(books, ss)
    decreases |ss|
  {
    hide Mix, MixWord, StateHash;
    if ss != [] {
      HashSurvivesSettings(books, ss[..|ss| - 1], capacity, policy);
      RequestsDependOnQueue(books[ss[|ss| - 1]], capacity, policy);
    }
  }

  lemma PolicyStep(v: Venue, p: StpPolicy)
    ensures VenueStep(v, SetPolicy(p)).venue == v.(policy := p, books := WithPolicy(v.books, p))
  {
  }

  class Exchange {
    const capacity: nat
    var books: map<nat, OrderBook>
    var policy: StpPolicy
    var globallyHalted: bool
    var haltedSymbols: set<nat>
    var bands: map<nat, Band>
    /** What the trade and report handlers have received. */
    var emitted: seq<Emission>

    /** The books and their node pools. */
    ghost function Footprint(): set<object>
      reads this`books
    {
      (set s | s in books :: books[s] as object) + (set s | s in books :: books[s].nodes as object)
    }

    /** Every symbol has a sound book of its own; no two share a node pool. */
    ghost predicate Valid()
      reads this`books, Footprint()
    {
      && (forall s :: s in books ==> books[s].Valid() && books[s].symbol == s && books[s].nodes.Length == capacity)
      && Apart()
    }

    ghost predicate Apart()
      reads this`books
    {
      forall s, t :: s in books && t in books && s != t ==> books[s] != books[t] && books[s].nodes != books[t].nodes
    }

    /** The abstract books these represent. */
    ghost function Models(): map<nat, Book>
      reads this`books, Footprint()
    {
      map s | s in books :: books[s].Model()
    }

    ghost function View(): Venue
      reads this, Footprint()
    {
      Venue(capacity, policy, Models(), globallyHalted, haltedSymbols, bands)
    }

    constructor (capacity: nat)
      ensures Valid() && View() == Venue(capacity, NoPrevention, map[], false, {}, map[]) && emitted == []
      ensures Footprint() == {}
    {
      this.capacity := capacity;
      books, policy, globallyHalted, haltedSymbols, bands, emitted := map[], NoPrevention, false, {}, map[], [];
    }

    /** What changes no book changes nothing here. */
    twostate lemma Undisturbed()
      requires old(Valid()) && books == old(books)
      requires forall t :: t in books ==> unchanged(books[t]) && unchanged(books[t].nodes)
      ensures Valid() && Models() == old(Models())
    {
      hide OrderBook.Valid, OrderBook.Model;
      forall t | t in books ensures books[t].Valid() && books[t].Model() == old(books[t].Model()) {
      }
    }

    /** When one book has changed, the others are what they were. */
    twostate lemma OneBookMoved(s: nat)
      requires old(Valid()) && books == old(books) && s in books && books[s].Valid()
      requires forall t :: t in books && t != s ==> unchanged(books[t]) && unchanged(books[t].nodes)
      ensures Valid() && Models() == old(Models())[s := books[s].Model()]
    {
      hide OrderBook.Valid, OrderBook.Model;
      forall t | t in books && t != s ensures books[t].Valid() && books[t].Model() == old(books[t].Model()) {
      }
    }

    /** When a book has been added, the others are what they were. */
    twostate lemma OneBookAdded(s: nat, new b: OrderBook)
      requires old(Valid()) && s !in old(books) && books == old(books)[s := b]
      requires b.Valid() && b.symbol == s && b.nodes.Length == capacity && fresh(b) && fresh(b.nodes)
      requires forall t :: t in old(books) ==> unchanged(old(books)[t]) && unchanged(old(books)[t].nodes)
      ensures Valid() && Models() == old(Models())[s := b.Model()] && fresh(Footprint() - old(Footprint()))
    {
      hide OrderBook.Valid, OrderBook.Model;
      forall t | t in old(books)
        ensures books[t].Valid() && books[t].Model() == old(books[t].Model()) && books[t] != b
        ensures books[t].nodes != b.nodes
      {
      }
    }

    /** A symbol's book, created on first use under the venue's policy. */
    method BookOf(symbol: nat) returns (b: OrderBook)
      requires Valid()
      modifies this`books
      ensures Valid() && symbol in books && books[symbol] == b && fresh(Footprint() - old(Footprint()))
      ensures b.Model() == BookFor(old(View()), symbol)
      ensures View() == old(View()).(books := old(Models())[symbol := b.Model()])
    {
      hide OrderBook.Valid, Valid, Models, Footprint;
      ModelOf(symbol);
      if symbol !in books {
        b := new OrderBook(capacity, symbol);
        b.SetStpPolicy(policy);
        books := books[symbol := b];
        OneBookAdded(symbol, b);
      }
      b := books[symbol];
    }

    lemma ModelOf(symbol: nat)
      requires Valid()
      ensures symbol in books ==> symbol in Models() && Models()[symbol] == books[symbol].Model()
      ensures symbol in books ==> books[symbol].symbol == symbol && books[symbol].Valid()
      ensures symbol !in books ==> symbol !in Models()
    {
      hide OrderBook.Valid;
    }

    static method Hand(b: OrderBook, c: Command) returns (ok: bool)
      requires b.Valid()
      modifies b, b.nodes
      ensures b.Valid()
      ensures var o := Step(old(b.Model()), c);
              b.Model() == o.book && b.emitted == old(b.emitted) + o.emitted && ok == o.ok
    {
      hide OrderBook.Valid, OrderBook.Model, BookSpec.Submit, BookSpec.Cancel, BookSpec.Replace;
      match c {
        case SubmitOrder(r) => ok := b.Submit(r);
        case CancelOrder(r) => ok := b.Cancel(r);
        case ReplaceOrder(r) => ok := b.Replace(r);
      }
    }

    /** Hand a command to its symbol's book, whose handlers pass on what it emits. */
    method Apply(c: Command) returns (ok: bool)
      requires Valid()
      modifies this`books, this`emitted, Footprint()
      ensures Valid() && fresh(Footprint() - old(Footprint()))
      ensures var o := ToBook(old(View()), c);
              View() == o.venue && emitted == old(emitted) + o.emitted && ok == o.ok
    {
      hide OrderBook.Valid, OrderBook.Model, Step, Valid, Models;
      var b := BookOf(SymbolOf(c));
      ModelOf(SymbolOf(c));
      Members(SymbolOf(c));
      label Found:
      var sofar := |b.emitted|;
      ok := Hand(b, c);
      emitted := emitted + b.emitted[sofar..];
      OneBookMoved@Found(SymbolOf(c));
    }

    lemma Members(s: nat)
      requires Valid() && s in books
      ensures books[s] in Footprint() && books[s].nodes in Footprint()
      ensures forall t :: t in books && t != s ==> books[t] != books[s] && books[t].nodes != books[s].nodes
    {
      hide OrderBook.Valid;
    }

    method Submit(r: OrderRequest) returns (ok: bool)
      requires Valid()
      modifies this`books, this`emitted, Footprint()
      ensures Valid() && fresh(Footprint() - old(Footprint()))
      ensures var o := TradeOn(old(View()), SubmitOrder(r));
              View() == o.venue && emitted == old(emitted) + o.emitted && ok == o.ok
    {
      hide ToBook, Valid, Models;
      if globallyHalted || r.symbol in haltedSymbols {
        emitted := emitted + [GateReport(r, TradingHalted)];
        return false;
      }
      if !r.kind.Market? {
        if r.symbol in bands {
          var band := bands[r.symbol];
          if !band.Admits(r.price) {
            emitted := emitted + [GateReport(r, PriceBandViolation)];
            return false;
          }
        }
      }
      ok := Apply(SubmitOrder(r));
    }

    method Cancel(r: CancelRequest) returns (ok: bool)
      requires Valid()
      modifies this`books, this`emitted, Footprint()
      ensures Valid() && fresh(Footprint() - old(Footprint()))
      ensures var o := TradeOn(old(View()), CancelOrder(r));
              View() == o.venue && emitted == old(emitted) + o.emitted && ok == o.ok
    {
      hide ToBook, Valid, Models;
      ok := Apply(CancelOrder(r));
    }

    method Replace(r: ReplaceRequest) returns (ok: bool)
      requires Valid()
      modifies this`books, this`emitted, Footprint()
      ensures Valid() && fresh(Footprint() - old(Footprint()))
      ensures var o := TradeOn(old(View()), ReplaceOrder(r));
              View() == o.venue && emitted == old(emitted) + o.emitted && ok == o.ok
    {
      hide ToBook, Valid, Models;
      ok := Apply(ReplaceOrder(r));
    }

    method SetStpPolicy(p: StpPolicy)
      requires Valid()
      modifies this`policy, Footprint()
      ensures Valid() && View() == VenueStep(old(View()), SetPolicy(p)).venue && emitted == old(emitted)
    {
      hide Valid, Models, VenueStep, WithPolicy, Footprint;
      PolicyStep(View(), p);
      NotOneOfItsBooks();
      policy := p;
      SpreadPolicy(p);
    }

    lemma NotOneOfItsBooks()
      ensures this !in Footprint()
    {
    }

    /** The loop over the books. */
    method SpreadPolicy(p: StpPolicy)
      requires Valid()
      modifies Footprint()
      ensures Valid() && Models() == WithPolicy(old(Models()), p) && Footprint() == old(Footprint())
    {
      hide Valid, Models, Footprint;
      ghost var before := Models();
      KeysOfModels();
      var todo := books.Keys;
      while todo != {}
        invariant todo <= books.Keys && Valid() && Models().Keys == before.Keys == books.Keys
        invariant Footprint() == old(Footprint()) && books == old(books)
        invariant forall s :: s in before ==>
                    Models()[s] == if s in todo then before[s] else before[s].(policy := p)
        decreases |todo|
      {
        var s :| s in todo;
        SetPolicyOf(s, p);
        todo := todo - {s};
      }
      assert Models() == WithPolicy(before, p);
    }

    method SetPolicyOf(s: nat, p: StpPolicy)
      requires Valid() && s in books
      modifies Footprint()
      ensures Valid() && books == old(books) && Footprint() == old(Footprint()) && s in old(Models())
      ensures Models() == old(Models())[s := old(Models())[s].(policy := p)]
    {
      hide OrderBook.Valid, OrderBook.Model, Valid, Models;
      ModelOf(s);
      Members(s);
      var b := books[s];
      b.SetStpPolicy(p);
      OneBookMoved(s);
    }

    lemma KeysOfModels()
      ensures Models().Keys == books.Keys
    {
    }

    method Halt(symbol: Option<nat>)
      requires Valid()
      modifies this`globallyHalted, this`haltedSymbols
      ensures Valid() && emitted == old(emitted)
      ensures View() == VenueStep(old(View()), if symbol.Some? then HaltSymbol(symbol.value) else HaltAll).venue
    {
      hide OrderBook.Valid;
      if symbol.Some? { haltedSymbols := haltedSymbols + {symbol.value}; } else { globallyHalted := true; }
    }

    method Resume(symbol: Option<nat>)
      requires Valid()
      modifies this`globallyHalted, this`haltedSymbols
      ensures Valid() && emitted == old(emitted)
      ensures View() == VenueStep(old(View()), if symbol.Some? then ResumeSymbol(symbol.value) else ResumeAll).venue
    {
      hide OrderBook.Valid;
      if symbol.Some? { haltedSymbols := haltedSymbols - {symbol.value}; } else { globallyHalted := false; }
    }

    /** The result is false where the source throws. */
    method SetBand(symbol: nat, reference: int, percent: real) returns (ok: bool)
      requires Valid()
      modifies this`bands
      ensures Valid() && emitted == old(emitted)
      ensures var o := VenueStep(old(View()), SetPriceBand(symbol, reference, percent)); View() == o.venue && ok == o.ok
    {
      hide OrderBook.Valid;
      if reference <= 0 || percent <= 0.0 { return false; }
      bands := bands[symbol := Band(reference, percent)];
      ok := true;
    }

    method ClearBand(symbol: nat)
      requires Valid()
      modifies this`bands
      ensures Valid() && emitted == old(emitted)
      ensures View() == VenueStep(old(View()), ClearPriceBand(symbol)).venue
    {
      hide OrderBook.Valid;
      bands := bands - {symbol};
    }

    method StateHashOf() returns (hash: bv64)
      requires Valid()
      ensures Models().Keys == books.Keys && hash == VenueHash(Models(), Ascending(books.Keys))
    {
      hide Ascending, OrderBook.Valid, OrderBook.Model, Valid, Models, VenueHash, BookWalk.StateHash;
      var ss := SortedKeys(books.Keys);
      Undisturbed();
      ghost var models := Models();
      KeysOfModels();
      hash := HASH_SEED;
      NothingHashed(models);
      assert ss[..0] == [];
      var i := 0;
      while i < |ss|
        invariant i <= |ss| && (forall s :: s in ss ==> s in books) && Valid() && Models() == models
        invariant hash == VenueHash(models, ss[..i])
      {
        ModelOf(ss[i]);
        label Next:
        var bookHash := books[ss[i]].StateHash();
        Undisturbed@Next();
        hash := MixWord(Mix(hash, ss[i]), bookHash);
        OneMoreHashed(models, ss, i);
        i := i + 1;
      }
      assert ss[..i] == ss;
    }

    method WriteSnapshot() returns (records: seq<BookRecord>)
      requires Valid()
      ensures Models().Keys == books.Keys && records == Records(Models(), Ascending(books.Keys))
    {
      hide Ascending, OrderBook.Valid, Valid, Models, Records, BookSnapshot.RestingOrders, BookWalk.StateHash;
      var symbols := SortedKeys(books.Keys);
      Undisturbed();
      ghost var models := Models();
      KeysOfModels();
      records := [];
      NoRecords(models);
      assert symbols[..0] == [];
      var i := 0;
      while i < |symbols|
        invariant i <= |symbols| && (forall s :: s in symbols ==> s in books) && Valid() && Models() == models
        invariant records == Records(models, symbols[..i])
      {
        ModelOf(symbols[i]);
        label Next:
        var b := books[symbols[i]];
        var orders := b.RestingOrders();
        var hash := b.StateHash();
        Undisturbed@Next();
        records := records + [BookRecord(b.symbol, b.sequence, orders, hash)];
        OneMoreRecord(models, symbols, i);
        i := i + 1;
      }
      assert symbols[..i] == symbols;
    }

    /** Build one book from its record; null where any step throws. */
    method Rebuild(record: BookRecord) returns (b: OrderBook?)
      ensures var rebuilt := Rebuilt(record, capacity, policy);
              if b == null then rebuilt.None?
              else
                && fresh(b) && fresh(b.nodes) && b.Valid() && b.symbol == record.symbol && b.nodes.Length == capacity
                && rebuilt == Some(b.Model()) && b.Model().symbol == b.symbol
    {
      hide OrderBook.Valid, Restore, BookWalk.StateHash;
      if |record.orders| > capacity { return null; }
      var built := new OrderBook(capacity, record.symbol);
      built.SetStpPolicy(policy);
      var ok := built.RestoreRestingOrders(record.orders, record.sequence);
      if !ok { return null; }
      var hash := built.StateHash();
      b := if hash == record.hash then built else null;
    }

    method LoadSnapshot(records: seq<BookRecord>) returns (ok: bool)
      modifies this`books
      ensures Valid() && fresh(Footprint())
      ensures var loaded := Load(map[], records, capacity, policy);
              View() == old(View()).(books := loaded.books) && ok == loaded.ok
    {
      hide Rebuilt, OrderBook.Valid, OrderBook.Model, Valid, Models, Load;
      books := map[];
      NoBooks();
      var i := 0;
      assert records[0..] == records;
      while i < |records|
        invariant i <= |records| && Valid() && fresh(Footprint())
        invariant Load(map[], records, capacity, policy) == Load(Models(), records[i..], capacity, policy)
      {
        LoadNext(Models(), records, i, capacity, policy);
        KeysOfModels();
        label Next:
        var b := Rebuild(records[i]);
        if b == null { return false; }
        if b.symbol !in books {
          books := books[b.symbol := b];
          OneBookAdded@Next(b.symbol, b);
        } else {
          Undisturbed@Next();
        }
        i := i + 1;
      }
      LoadNothing(Models(), capacity, policy);
      assert records[i..] == [];
      ok := true;
    }

    lemma NoBooks()
      requires books == map[]
      ensures Valid() && Models() == map[] && Footprint() == {}
    {
    }
  }
}
