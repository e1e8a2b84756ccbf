/** The drop-copy store: a bounded cache, newest first, and a per-order index of it, in front of an append-only
    table. What it answers for an order must be what the table would answer. */
module DropCopy {

  datatype Event = Event(
    id: nat, timestamp: nat, orderId: nat, symbol: nat, eventType: string, status: string, remaining: nat, reason: nat)

  function Min(a: nat, b: nat): nat { if a < b then a else b }

  function ForOrder(rows: seq<Event>, orderId: nat): seq<Event> {
    if rows == [] then []
    else
      var last := rows[|rows| - 1];
      ForOrder(rows[..|rows| - 1], orderId) + (if last.orderId == orderId then [last] else [])
  }

  predicate Occurs(rows: seq<Event>, orderId: nat) {
    exists k :: 0 <= k < |rows| && rows[k].orderId == orderId
  }

  /** How many rows are too old for the cache. */
  function Cut(rows: seq<Event>, capacity: nat): (n: nat)
    ensures n <= |rows|
  {
    if |rows| <= capacity then 0 else |rows| - capacity
  }

  function Older(rows: seq<Event>, capacity: nat): seq<Event> { rows[..Cut(rows, capacity)] }

  function Window(rows: seq<Event>, capacity: nat): seq<Event> { rows[Cut(rows, capacity)..] }

  function Reversed(rows: seq<Event>): seq<Event> {
    if rows == [] then [] else [rows[|rows| - 1]] + Reversed(rows[..|rows| - 1])
  }

  /** Row ids rise. */
  ghost predicate Rising(rows: seq<Event>) {
    && (forall k :: 0 <= k < |rows| ==> rows[k].id > 0)
    && (forall i, j :: 0 <= i < j < |rows| ==> rows[i].id < rows[j].id)
  }

  ghost predicate Below(rows: seq<Event>, id: nat) { forall k :: 0 <= k < |rows| ==> rows[k].id < id }

  // ---------- the store as a table and a set of marks ----------

  /** Cache and index follow from the table; which orders are marked incomplete depends on the past. */
  datatype Store = Store(table: seq<Event>, incomplete: set<nat>)

  function OrdersOf(rows: seq<Event>): set<nat> { set k | 0 <= k < |rows| :: rows[k].orderId }

  function Opened(table: seq<Event>, capacity: nat): Store {
    Store(table, if |Window(table, capacity)| >= capacity then OrdersOf(Window(table, capacity)) else {})
  }

  function Published(s: Store, e: Event, capacity: nat): Store {
    var table := s.table + [e];
    Store(table, s.incomplete + (if |table| > capacity then {table[|table| - capacity - 1].orderId} else {}))
  }

  function PublishedAll(s: Store, es: seq<Event>, capacity: nat): Store {
    if es == [] then s else Published(PublishedAll(s, es[..|es| - 1], capacity), es[|es| - 1], capacity)
  }

  /** events_for_order: from the index if the order is cached and not marked, otherwise from the table. */
  function Answer(s: Store, capacity: nat, orderId: nat): seq<Event> {
    if Occurs(Window(s.table, capacity), orderId) && orderId !in s.incomplete then
      ForOrder(Window(s.table, capacity), orderId)
    else ForOrder(s.table, orderId)
  }

  // ---------- agreement ----------

  lemma {:induction false} ForOrderJoins(a: seq<Event>, b: seq<Event>, orderId: nat)
    ensures ForOrder(a + b, orderId) == ForOrder(a, orderId) + ForOrder(b, orderId)
    decreases |b|
  {
    if b == [] {
      assert a + b == a;
    } else {
      assert (a + b)[..|a + b| - 1] == a + b[..|b| - 1];
      ForOrderJoins(a, b[..|b| - 1], orderId);
    }
  }

  lemma {:induction false} NoneFound(rows: seq<Event>, orderId: nat)
    ensures ForOrder(rows, orderId) == [] <==> !Occurs(rows, orderId)
    decreases |rows|
  {
    if rows != [] {
      var n := |rows| - 1;
      NoneFound(rows[..n], orderId);
      assert Occurs(rows[..n], orderId) ==> Occurs(rows, orderId);
    }
  }

  /** The index answers for the table exactly when the order has no row older than the cache. */
  lemma IndexAnswers(table: seq<Event>, capacity: nat, orderId: nat)
    ensures ForOrder(Window(table, capacity), orderId) == ForOrder(table, orderId) <==>
              !Occurs(Older(table, capacity), orderId)
  {
    hide ForOrder, Occurs;
    var older, recent := Older(table, capacity), Window(table, capacity);
    assert table == older + recent;
    ForOrderJoins(older, recent, orderId);
    NoneFound(older, orderId);
    if ForOrder(older, orderId) == [] {
      assert [] + ForOrder(recent, orderId) == ForOrder(recent, orderId);
    } else {
      assert |ForOrder(table, orderId)| > |ForOrder(recent, orderId)|;
    }
  }

  /** Every order with a row older than the cache is marked. */
  ghost predicate Marked(s: Store, capacity: nat) {
    forall o :: Occurs(Older(s.table, capacity), o) ==> o in s.incomplete
  }

  lemma MarkedAnswers(s: Store, capacity: nat, orderId: nat)
    requires Marked(s, capacity)
    ensures Answer(s, capacity, orderId) == ForOrder(s.table, orderId)
  {
    hide ForOrder, Occurs;
    IndexAnswers(s.table, capacity, orderId);
  }

  lemma PublishKeepsMarks(s: Store, e: Event, capacity: nat)
    requires Marked(s, capacity) && capacity > 0
    ensures Marked(Published(s, e, capacity), capacity)
  {
    var s' := Published(s, e, capacity);
    forall o | Occurs(Older(s'.table, capacity), o) ensures o in s'.incomplete {
      var k :| 0 <= k < |Older(s'.table, capacity)| && Older(s'.table, capacity)[k].orderId == o;
      if k < |Older(s.table, capacity)| {
        assert Older(s.table, capacity)[k].orderId == o;
      }
    }
  }

  lemma {:induction false} RunKeepsMarks(s: Store, es: seq<Event>, capacity: nat)
    requires Marked(s, capacity) && capacity > 0
    ensures Marked(PublishedAll(s, es, capacity), capacity)
    decreases |es|
  {
    hide Marked, Published;
    if es != [] {
      RunKeepsMarks(s, es[..|es| - 1], capacity);
      PublishKeepsMarks(PublishedAll(s, es[..|es| - 1], capacity), es[|es| - 1], capacity);
    }
  }

  /** Opened on a table that fits, the store answers as the table does after any number of events. */
  lemma OpenedOnFewAgrees(table: seq<Event>, es: seq<Event>, capacity: nat, orderId: nat)
    requires capacity > 0 && |table| <= capacity
    ensures var s := PublishedAll(Opened(table, capacity), es, capacity);
            Answer(s, capacity, orderId) == ForOrder(s.table, orderId)
  {
    hide PublishedAll, Answer, ForOrder;
    RunKeepsMarks(Opened(table, capacity), es, capacity);
    MarkedAnswers(PublishedAll(Opened(table, capacity), es, capacity), capacity, orderId);
  }

  /** Can a caller check this before opening? Every order with rows too old for the cache also has one in it. */
  ghost predicate Represented(table: seq<Event>, capacity: nat) {
    forall o :: Occurs(Older(table, capacity), o) ==> Occurs(Window(table, capacity), o)
  }

  ghost predicate AlwaysAgrees(s: Store, capacity: nat) {
    forall es, o :: Answer(PublishedAll(s, es, capacity), capacity, o) ==
        ForOrder(PublishedAll(s, es, capacity).table, o)
  }

  lemma RepresentedIsMarked(table: seq<Event>, capacity: nat)
    requires Represented(table, capacity)
    ensures Marked(Opened(table, capacity), capacity)
  {
    forall o | Occurs(Older(table, capacity), o) ensures o in Opened(table, capacity).incomplete {
      var k :| 0 <= k < |Window(table, capacity)| && Window(table, capacity)[k].orderId == o;
    }
  }

  /** An order only found among the old rows: the next event for it is taken for its whole history. */
  lemma ForgottenOrderDisagrees(table: seq<Event>, capacity: nat, e: Event)
    requires capacity > 0 && Occurs(Older(table, capacity), e.orderId) && !Occurs(Window(table, capacity), e.orderId)
    ensures var s := Published(Opened(table, capacity), e, capacity);
            Answer(s, capacity, e.orderId) != ForOrder(s.table, e.orderId)
  {
    hide ForOrder;
    var s := Published(Opened(table, capacity), e, capacity);
    var more := s.table;
    assert more[|more| - capacity - 1] == Window(table, capacity)[0];
    assert Window(more, capacity)[|Window(more, capacity)| - 1] == e;
    var k :| 0 <= k < |Older(table, capacity)| && Older(table, capacity)[k].orderId == e.orderId;
    assert Older(more, capacity)[k].orderId == e.orderId;
    IndexAnswers(more, capacity, e.orderId);
  }

  /** Opened on any table, the store agrees with it for ever if and only if every order with old rows is also
      represented in the cache. */
  lemma AgreementIsExact(table: seq<Event>, capacity: nat)
    requires capacity > 0
    ensures AlwaysAgrees(Opened(table, capacity), capacity) <==> Represented(table, capacity)
  {
    hide Answer, ForOrder, Occurs, Older, Window, Opened, Published;
    var s := Opened(table, capacity);
    if Represented(table, capacity) {
      RepresentedIsMarked(table, capacity);
      forall es, o
        ensures Answer(PublishedAll(s, es, capacity), capacity, o) == ForOrder(PublishedAll(s, es, capacity).table, o)
      {
        RunKeepsMarks(s, es, capacity);
        MarkedAnswers(PublishedAll(s, es, capacity), capacity, o);
      }
    } else {
      var o :| Occurs(Older(table, capacity), o) && !Occurs(Window(table, capacity), o);
      var e := Event(0, 0, o, 0, "", "", 0, 0);
      ForgottenOrderDisagrees(table, capacity, e);
      assert PublishedAll(s, [], capacity) == s;
      assert [e][..0] == [];
      assert PublishedAll(s, [e], capacity) == Published(s, e, capacity);
    }
  }

  // ---------- the cache and its index ----------

  ghost predicate Indexes(index: map<nat, seq<Event>>, rows: seq<Event>) {
    forall o :: (o in index <==> Occurs(rows, o)) && (o in index ==> index[o] == ForOrder(rows, o))
  }

  lemma {:induction false} ReversedEnds(rows: seq<Event>)
    requires rows != []
    ensures var r := Reversed(rows);
            r != [] && r[|r| - 1] == rows[0] && r[..|r| - 1] == Reversed(rows[1..])
    decreases |rows|
  {
    var n := |rows| - 1;
    if n == 0 {
      assert rows[..0] == [] && rows[1..] == [];
    } else {
      ReversedEnds(rows[..n]);
      assert rows[1..][..n - 1] == rows[..n][1..];
      assert rows[1..][n - 1] == rows[n];
      var inner := Reversed(rows[..n]);
      assert Reversed(rows) == [rows[n]] + inner;
      assert Reversed(rows)[..|inner|] == [rows[n]] + inner[..|inner| - 1];
    }
  }

  lemma {:induction false} ReversedSize(rows: seq<Event>)
    ensures |Reversed(rows)| == |rows|
    decreases |rows|
  {
    if rows != [] {
      ReversedSize(rows[..|rows| - 1]);
    }
  }

  lemma ReversedGrows(rows: seq<Event>, e: Event)
    ensures Reversed(rows + [e]) == [e] + Reversed(rows)
  {
    assert (rows + [e])[..|rows|] == rows;
  }

  lemma OneRow(e: Event, o: nat)
    ensures ForOrder([e], o) == (if e.orderId == o then [e] else [])
    ensures Occurs([e], o) <==> e.orderId == o
  {
    assert [e][..0] == [];
    assert [e][0] == e;
  }

  lemma OccursJoins(a: seq<Event>, b: seq<Event>, o: nat)
    ensures Occurs(a + b, o) <==> Occurs(a, o) || Occurs(b, o)
  {
    if Occurs(a, o) {
      var k :| 0 <= k < |a| && a[k].orderId == o;
      assert (a + b)[k].orderId == o;
    }
    if Occurs(b, o) {
      var k :| 0 <= k < |b| && b[k].orderId == o;
      assert (a + b)[|a| + k].orderId == o;
    }
  }

  function Pushed(index: map<nat, seq<Event>>, e: Event): map<nat, seq<Event>> {
    index[e.orderId := (if e.orderId in index then index[e.orderId] else []) + [e]]
  }

  lemma PushIndexes(index: map<nat, seq<Event>>, rows: seq<Event>, e: Event)
    requires Indexes(index, rows)
    ensures Indexes(Pushed(index, e), rows + [e])
  {
    hide ForOrder, Occurs;
    forall o
      ensures o in Pushed(index, e) <==> Occurs(rows + [e], o)
      ensures o in Pushed(index, e) ==> Pushed(index, e)[o] == ForOrder(rows + [e], o)
    {
      OccursJoins(rows, [e], o);
      ForOrderJoins(rows, [e], o);
      OneRow(e, o);
      NoneFound(rows, o);
      assert ForOrder(rows, o) + [] == ForOrder(rows, o);
    }
  }

  function Dropped(index: map<nat, seq<Event>>, orderId: nat): map<nat, seq<Event>>
    requires orderId in index && index[orderId] != []
  {
    if |index[orderId]| == 1 then index - {orderId} else index[orderId := index[orderId][1..]]
  }

  /** The oldest cached event is the front of its order's vector, and taking both away keeps the index. */
  lemma DropIndexes(index: map<nat, seq<Event>>, rows: seq<Event>)
    requires Indexes(index, rows) && rows != []
    ensures var o := rows[0].orderId;
            && o in index && index[o] != [] && index[o][0] == rows[0]
            && Indexes(Dropped(index, o), rows[1..])
  {
    hide ForOrder, Occurs;
    var first, rest := [rows[0]], rows[1..];
    assert rows == first + rest;
    var mine := rows[0].orderId;
    forall o
      ensures Occurs(rows, o) <==> o == mine || Occurs(rest, o)
      ensures ForOrder(rows, o) == (if o == mine then first else []) + ForOrder(rest, o)
      ensures ForOrder(rest, o) == [] <==> !Occurs(rest, o)
    {
      OccursJoins(first, rest, o);
      ForOrderJoins(first, rest, o);
      OneRow(rows[0], o);
      NoneFound(rest, o);
    }
    DropIndexesMore(index, rows, mine);
  }

  lemma DropIndexesMore(index: map<nat, seq<Event>>, rows: seq<Event>, mine: nat)
    requires Indexes(index, rows) && rows != [] && mine == rows[0].orderId
    requires forall o :: Occurs(rows, o) <==> o == mine || Occurs(rows[1..], o)
    requires forall o :: ForOrder(rows, o) == (if o == mine then [rows[0]] else []) + ForOrder(rows[1..], o)
    requires forall o :: ForOrder(rows[1..], o) == [] <==> !Occurs(rows[1..], o)
    ensures mine in index && index[mine] != [] && index[mine][0] == rows[0] && Indexes(Dropped(index, mine), rows[1..])
  {
    hide ForOrder, Occurs;
    assert index[mine] == [rows[0]] + ForOrder(rows[1..], mine);
    assert index[mine][1..] == ForOrder(rows[1..], mine);
    forall o | o != mine ensures ForOrder(rows, o) == ForOrder(rows[1..], o) {
      assert [] + ForOrder(rows[1..], o) == ForOrder(rows[1..], o);
    }
  }

  class DropCopyStore {
    const capacity: nat
    /** The SQL table: the authority. */
    var table: seq<Event>
    /** The cache, newest first. */
    var events: seq<Event>
    var byOrder: map<nat, seq<Event>>
    var incomplete: set<nat>
    var nextId: nat

    ghost predicate Valid()
      reads this
    {
      && capacity > 0 && nextId > 0 && Rising(table) && Below(table, nextId)
      && events == Reversed(Window(table, capacity)) && Indexes(byOrder, Window(table, capacity))
    }

    ghost function View(): Store
      reads this
    {
      Store(table, incomplete)
    }

    /** The newest rows, newest first, and the largest id among them. */
    static method ReadRecent(rows: seq<Event>, size: nat) returns (recent: seq<Event>, maxId: nat)
      requires Rising(rows)
      ensures recent == Reversed(Window(rows, size)) && Below(Window(rows, size), maxId + 1)
    {
      hide Reversed;
      recent := [];
      maxId := 0;
      var i: nat := |rows|;
      assert rows[i..] == [];
      ReversedNothing();
      while i > 0 && |recent| < size
        invariant i <= |rows| && recent == Reversed(rows[i..]) && |recent| == |rows| - i && |recent| <= size
        invariant Below(rows[i..], maxId + 1)
      {
        i := i - 1;
        assert rows[i..][1..] == rows[i + 1..];
        ReversedEnds(rows[i..]);
        recent := recent + [rows[i]];
        maxId := if rows[i].id > maxId then rows[i].id else maxId;
      }
      assert i == Cut(rows, size);
    }

    /** Index a newest-first list oldest first. */
    static method IndexRecent(recent: seq<Event>, ghost window: seq<Event>) returns (index: map<nat, seq<Event>>)
      requires recent == Reversed(window)
      ensures Indexes(index, window)
    {
      hide Reversed, Indexes;
      ReversedSize(window);
      index := map[];
      var k: nat := |recent|;
      assert window[..0] == [];
      NothingIndexed();
      while k > 0
        invariant k <= |recent| && Indexes(index, window[..|recent| - k])
      {
        k := k - 1;
        ReversedAt(window, k);
        PushIndexes(index, window[..|recent| - k - 1], recent[k]);
        assert window[..|recent| - k] == window[..|recent| - k - 1] + [recent[k]];
        index := Pushed(index, recent[k]);
      }
      assert window[..|recent|] == window;
    }

    /** A capacity of zero is taken as one. Opening reads the newest rows and indexes them oldest first. */
    constructor (rows: seq<Event>, requested: nat)
      requires Rising(rows)
      ensures Valid() && capacity == (if requested > 1 then requested else 1) && View() == Opened(rows, capacity)
    {
      hide Reversed, Indexes;
      var size := if requested > 1 then requested else 1;
      var recent, maxId := ReadRecent(rows, size);
      var index := IndexRecent(recent, Window(rows, size));
      ReversedSize(Window(rows, size));
      RecentOrders(Window(rows, size), index);
      LastIsLargest(rows, size, maxId + 1);
      capacity, table, events, byOrder, nextId := size, rows, recent, index, maxId + 1;
      incomplete := if |recent| >= size then index.Keys else {};
    }

    /** Take the oldest event off the cache and off the front of its order's vector, and mark the order. */
    method EvictOldest(ghost cached: seq<Event>)
      requires cached != [] && events == Reversed(cached) && Indexes(byOrder, cached)
      modifies this`events, this`byOrder, this`incomplete
      ensures events == Reversed(cached[1..]) && Indexes(byOrder, cached[1..])
      ensures incomplete == old(incomplete) + {cached[0].orderId}
    {
      hide Reversed, Indexes;
      ReversedEnds(cached);
      DropIndexes(byOrder, cached);
      var evicted := events[|events| - 1];
      events := events[..|events| - 1];
      if evicted.orderId in byOrder {
        var own := byOrder[evicted.orderId];
        if own != [] && own[0].id == evicted.id {
          byOrder := Dropped(byOrder, evicted.orderId);
        } else {
          assert false;
        }
      }
      incomplete := incomplete + {evicted.orderId};
    }

    /** publish: append to the table, push to cache and index, and evict what no longer fits. */
    method Publish(event: Event)
      requires Valid()
      modifies this
      ensures Valid() && View() == Published(old(View()), event.(id := old(nextId)), capacity)
      ensures nextId == old(nextId) + 1
    {
      hide Indexes, Reversed;
      ghost var before := Window(table, capacity);
      var e := event.(id := nextId);
      nextId := nextId + 1;
      table := table + [e];
      PushIndexes(byOrder, before, e);
      ReversedGrows(before, e);
      byOrder := Pushed(byOrder, e);
      events := [e] + events;
      ghost var cached := before + [e];
      ReversedSize(cached);
      assert Rising(table) && Below(table, nextId);
      WindowMoves(old(table), e, capacity);
      while |events| > capacity
        invariant nextId == old(nextId) + 1 && table == old(table) + [e] && Rising(table) && Below(table, nextId)
        invariant events == Reversed(cached) && |events| == |cached| && Indexes(byOrder, cached)
        invariant if |cached| == |before| + 1 then cached == before + [e] && incomplete == old(incomplete)
                  else
                    && |before| == capacity && cached == (before + [e])[1..]
                    && incomplete == old(incomplete) + {before[0].orderId}
        decreases |events|
      {
        EvictOldest(cached);
        cached := cached[1..];
        ReversedSize(cached);
      }
    }

    method Recent(limit: nat) returns (r: seq<Event>)
      requires Valid()
      ensures r == Reversed(Window(table, capacity))[..Min(limit, |events|)]
    {
      r := events[..Min(limit, |events|)];
    }

    method EventsForOrder(orderId: nat) returns (r: seq<Event>)
      requires Valid()
      ensures r == Answer(View(), capacity, orderId)
    {
      hide ForOrder, Reversed;
      if orderId in byOrder && orderId !in incomplete {
        return byOrder[orderId];
      }
      r := [];
      SelectNone(orderId);
      assert table[..0] == [];
      for i := 0 to |table|
        invariant r == ForOrder(table[..i], orderId)
      {
        SelectOne(table, i, orderId);
        if table[i].orderId == orderId { r := r + [table[i]]; }
      }
      assert table[..|table|] == table;
    }
  }

  lemma LastIsLargest(rows: seq<Event>, capacity: nat, id: nat)
    requires Rising(rows) && capacity > 0 && Below(Window(rows, capacity), id)
    ensures Below(rows, id)
  {
    if rows != [] {
      var w := Window(rows, capacity);
      assert w[|w| - 1] == rows[|rows| - 1];
    }
  }

  lemma ReversedNothing()
    ensures Reversed([]) == []
  {
  }

  /** How the window moves when a row is appended. */
  lemma WindowMoves(rows: seq<Event>, e: Event, capacity: nat)
    requires capacity > 0
    ensures var w := Window(rows, capacity);
            && |w| <= capacity
            && Window(rows + [e], capacity) == (if |w| < capacity then w + [e] else (w + [e])[1..])
            && (|w| == capacity ==> |rows| >= capacity && (rows + [e])[|rows| - capacity] == w[0])
            && (|w| < capacity <==> |rows| < capacity)
  {
  }

  lemma NothingIndexed()
    ensures Indexes(map[], [])
  {
  }

  lemma {:induction false} ReversedAt(rows: seq<Event>, k: nat)
    requires k < |rows|
    ensures |Reversed(rows)| == |rows| && Reversed(rows)[k] == rows[|rows| - 1 - k]
    decreases k
  {
    ReversedSize(rows);
    if k > 0 {
      ReversedAt(rows[..|rows| - 1], k - 1);
    }
  }

  lemma RecentOrders(rows: seq<Event>, index: map<nat, seq<Event>>)
    requires Indexes(index, rows)
    ensures index.Keys == OrdersOf(rows)
  {
    forall o ensures o in index <==> o in OrdersOf(rows) {
      assert o in index <==> Occurs(rows, o);
    }
  }

  lemma SelectNone(orderId: nat)
    ensures ForOrder([], orderId) == []
  {
  }

  lemma SelectOne(rows: seq<Event>, i: nat, orderId: nat)
    requires i < |rows|
    ensures ForOrder(rows[..i + 1], orderId) ==
              ForOrder(rows[..i], orderId) + (if rows[i].orderId == orderId then [rows[i]] else [])
  {
    assert rows[..i + 1][..i] == rows[..i];
  }
}
