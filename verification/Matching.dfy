/** The order book as the engine keeps it: a fixed pool of nodes with a free list, an intrusive FIFO list per
    price on each side, an index by order id and cached level totals, all updated in place. Every operation
    is proved to be the function of the same name on the abstract book. */
module Matching {
  import opened Options
  import opened Trading
  import opened BookSpec
  import opened BookInvariants
  import opened BookRep
  import opened BookUnlink
  import opened BookLink
  import opened BookPool
  import opened BookState
  import opened BookWalk
  import BookSnapshot

  class OrderBook {
    const symbol: nat
    const nodes: array<Node>
    var freeList: seq<nat>
    var byId: map<nat, nat>
    var bids: map<int, Level>
    var asks: map<int, Level>
    var activeCount: nat
    var sequence: nat
    var policy: StpPolicy

    /** Everything the trade and the report handler have been given, in order. */
    var emitted: seq<Emission>

    /** The linked nodes of each side in priority order, and the orders they carry. */
    ghost var bidNodes: seq<nat>
    ghost var askNodes: seq<nat>
    ghost var bidQueue: seq<Resting>
    ghost var askQueue: seq<Resting>

    function Levels(s: Side): map<int, Level>
      reads this`bids, this`asks
    {
      if s.Buy? then bids else asks
    }

    ghost function NodesOn(s: Side): seq<nat>
      reads this`bidNodes, this`askNodes
    {
      if s.Buy? then bidNodes else askNodes
    }

    ghost function QueueOn(s: Side): seq<Resting>
      reads this`bidQueue, this`askQueue
    {
      if s.Buy? then bidQueue else askQueue
    }

    /** The representation invariant, with leave for the level of side `s` at `spared` to be hollow. */
    ghost predicate ValidBut(s: Side, spared: Option<int>)
      reads this`freeList, this`byId, this`bids, this`asks, this`activeCount
      reads this`bidNodes, this`askNodes, this`bidQueue, this`askQueue, nodes
    {
      && InPool(nodes[..], NodesOn(s)) && InPool(nodes[..], NodesOn(s.Opposite()))
      && QueueOn(s) == View(nodes[..], NodesOn(s))
      && QueueOn(s.Opposite()) == View(nodes[..], NodesOn(s.Opposite()))
      && Rep(nodes[..], freeList, byId, Levels(s), NodesOn(s), Levels(s.Opposite()), NodesOn(s.Opposite()), s, spared)
      && activeCount == |NodesOn(s)| + |NodesOn(s.Opposite())|
    }

    ghost predicate Valid()
      reads this`freeList, this`byId, this`bids, this`asks, this`activeCount
      reads this`bidNodes, this`askNodes, this`bidQueue, this`askQueue, nodes
    {
      ValidBut(Buy, None)
    }

    /** The abstract book this one represents. */
    ghost function Model(): Book
      reads this`policy, this`bidQueue, this`askQueue, this`sequence
    {
      Book(symbol, nodes.Length, policy, bidQueue, askQueue, sequence)
    }

    lemma ValidOnEitherSide(s: Side)
      ensures Valid() <==> ValidBut(s, None)
    {
      RepIsSymmetric(nodes[..], freeList, byId, bids, bidNodes, asks, askNodes, Buy);
    }

    lemma ModelQueues(s: Side)
      ensures Model().Queue(s) == QueueOn(s)
    {
    }

    /** Bring the ghost picture of side `s` up to date. */
    ghost method Record(s: Side, mine: seq<nat>, q: seq<Resting>)
      modifies this`bidNodes, this`askNodes, this`bidQueue, this`askQueue
      ensures NodesOn(s) == mine && QueueOn(s) == q
      ensures NodesOn(s.Opposite()) == old(NodesOn(s.Opposite())) && QueueOn(s.Opposite()) == old(QueueOn(s.Opposite()))
      ensures Model() == old(Model()).WithQueue(s, q)
    {
      if s.Buy? {
        bidNodes, bidQueue := mine, q;
      } else {
        askNodes, askQueue := mine, q;
      }
    }

    constructor (capacity: nat, symbol: nat)
      ensures Valid() && Model() == Empty(symbol, capacity, NoPrevention)
      ensures emitted == [] && fresh(nodes)
    {
      this.symbol := symbol;
      nodes := new Node[capacity](_ => BLANK);
      byId, bids, asks := map[], map[], map[];
      activeCount, sequence, policy, emitted := 0, 0, NoPrevention, [];
      bidNodes, askNodes, bidQueue, askQueue := [], [], [], [];
      freeList := [];
      new;
      var i := capacity;
      while i > 0
        invariant i <= capacity && nodes.Length == capacity
        invariant |freeList| == capacity - i
        invariant forall j :: 0 <= j < |freeList| ==> freeList[j] == capacity - 1 - j
        invariant forall j :: 0 <= j < capacity ==> nodes[j] == BLANK
        invariant byId == map[] && bids == map[] && asks == map[] && bidNodes == [] && askNodes == []
        invariant bidQueue == [] && askQueue == []
        invariant activeCount == 0 && sequence == 0 && policy == NoPrevention && emitted == []
      {
        i := i - 1;
        freeList := freeList + [i];
      }
      EmptyRep(nodes[..], freeList);
    }

    // ---------- the node pool and the handlers ----------

    method EmitReport(id: nat, status: Status, remaining: nat, reason: RejectReason)
      modifies this`sequence, this`emitted
      ensures sequence == old(sequence) + 1
      ensures emitted == old(emitted) + [Report(sequence, id, status, remaining, reason, symbol)]
    {
      sequence := sequence + 1;
      emitted := emitted + [Report(sequence, id, status, remaining, reason, symbol)];
    }

    method EmitTrade(maker: Node, taker: OrderRequest, price: int, quantity: nat)
      modifies this`sequence, this`emitted
      ensures sequence == old(sequence) + 1
      ensures emitted == old(emitted)
                         + [Trade(sequence, maker.id, taker.orderId, price, quantity, taker.side, symbol)]
    {
      sequence := sequence + 1;
      emitted := emitted + [Trade(sequence, maker.id, taker.orderId, price, quantity, taker.side, symbol)];
    }

    /** None where the source throws: the pool is used up. */
    method AllocateNode() returns (idx: Option<nat>)
      modifies this`freeList
      ensures var free := old(freeList);
              if free == [] then idx.None? && freeList == free
              else idx == Some(free[|free| - 1]) && freeList == free[..|free| - 1]
    {
      if freeList == [] { return None; }
      idx := Some(freeList[|freeList| - 1]);
      freeList := freeList[..|freeList| - 1];
    }

    method ReleaseNode(idx: nat)
      requires idx < nodes.Length
      modifies this`freeList, nodes
      ensures nodes[..] == old(nodes[..])[idx := BLANK] && freeList == old(freeList) + [idx]
    {
      nodes[idx] := BLANK;
      freeList := freeList + [idx];
    }

    /** Hook `n`, written at `idx`, behind the tail of its price level. */
    method Append(idx: nat, n: Node)
      requires idx < nodes.Length
      requires var tail := LevelAt(Levels(n.side), n.price).tail; tail.At? ==>
                tail.index < nodes.Length && tail.index != idx
      modifies nodes, this`bids, this`asks
      ensures nodes[..] == Appended(old(nodes[..]), idx, n, LevelAt(old(Levels(n.side)), n.price).tail)
      ensures Levels(n.side)
           == old(Levels(n.side))[n.price := LevelWith(LevelAt(old(Levels(n.side)), n.price), idx, n.remaining)]
      ensures Levels(n.side.Opposite()) == old(Levels(n.side.Opposite()))
    {
      var level := LevelAt(Levels(n.side), n.price);
      nodes[idx] := n;
      nodes[idx] := nodes[idx].(prev := level.tail, next := Npos);
      if level.tail.At? {
        nodes[level.tail.index] := nodes[level.tail.index].(next := At(idx));
      } else {
        level := level.(head := At(idx));
      }
      level := level.(tail := At(idx), total := level.total + n.remaining, count := level.count + 1);
      if n.side.Buy? {
        bids := bids[n.price := level];
      } else {
        asks := asks[n.price := level];
      }
    }

    /** rest: a node for the order at the end of its price level; fails only when the pool is empty. */
    method Rest(r: OrderRequest, remaining: nat) returns (ok: bool)
      requires Valid() && r.orderId !in byId
      modifies this, nodes
      ensures Valid() && emitted == old(emitted)
      ensures ok == (old(freeList) != [])
      ensures Model() == if ok then RestOrder(old(Model()), r.side, Leftover(r, remaining)) else old(Model())
    {
      hide Rep, View, Appended, LevelWith, LevelAt, PlaceIn, SpotFor, Insert, Levels, NodesOn, QueueOn;
      ModelQueues(r.side);
      ValidOnEitherSide(r.side);
      ghost var pool, mine := nodes[..], NodesOn(r.side);
      var n := Node(r.orderId, r.clientId, r.price, remaining, Npos, Npos, r.side, true);
      if freeList != [] {
        AppendFully(pool, freeList, byId, Levels(r.side), mine, Levels(r.side.Opposite()),
                    NodesOn(r.side.Opposite()), r.side, n);
      }
      var node := AllocateNode();
      if node.None? {
        return false;
      }
      var idx := node.value;
      Append(idx, n);
      byId := byId[r.orderId := idx];
      activeCount := activeCount + 1;
      Record(r.side, PlaceIn(mine, SpotFor(pool, mine, r.side, n), idx), Insert(r.side, QueueOn(r.side), RestingOf(n)));
      ValidOnEitherSide(r.side);
      ok := true;
    }

    /** unlink: bypass the node in its list, and drop its level if that was the last order there. */
    method Unlink(idx: nat)
      requires idx < nodes.Length && Links(nodes[..], idx) && nodes[idx].price in Levels(nodes[idx].side)
      requires var level := Levels(nodes[idx].side)[nodes[idx].price];
               nodes[idx].remaining <= level.total && level.count > 0
      modifies nodes, this`bids, this`asks
      ensures nodes[..] == Bypassed(old(nodes[..]), idx)
      ensures var n := old(nodes[idx]);
              && Levels(n.side) == LevelsWithout(old(Levels(n.side)), n)
              && Levels(n.side.Opposite()) == old(Levels(n.side.Opposite()))
    {
      var n := nodes[idx];
      var level := Levels(n.side)[n.price];
      if n.prev.At? {
        nodes[n.prev.index] := nodes[n.prev.index].(next := n.next);
      } else {
        level := level.(head := n.next);
      }
      if n.next.At? {
        nodes[n.next.index] := nodes[n.next.index].(prev := n.prev);
      } else {
        level := level.(tail := n.prev);
      }
      level := level.(total := level.total - n.remaining, count := level.count - 1);
      var levels := if level.head.Npos? then Levels(n.side) - {n.price} else Levels(n.side)[n.price := level];
      if n.side.Buy? {
        bids := levels;
      } else {
        asks := levels;
      }
    }

    /** remove_without_report, for the order at position `k` of side `s`. */
    method RemoveWithoutReport(idx: nat, ghost s: Side, ghost k: nat)
      requires Valid() && k < |NodesOn(s)| && NodesOn(s)[k] == idx
      modifies this, nodes
      ensures Valid() && emitted == old(emitted)
      ensures k < |old(Model()).Queue(s)| && Model() == Removed(old(Model()), Place(s, k))
    {
      hide Rep, View, Bypassed, LevelsWithout, Drop, Without, Links, Levels, NodesOn, QueueOn;
      ModelQueues(s);
      ValidOnEitherSide(s);
      ghost var pool, mine := nodes[..], NodesOn(s);
      NodeIsPlaced(pool, freeList, byId, Levels(s), mine, Levels(s.Opposite()), NodesOn(s.Opposite()), s, k);
      RemoveFully(pool, freeList, byId, Levels(s), mine, Levels(s.Opposite()), NodesOn(s.Opposite()), s, k);
      var id := nodes[idx].id;
      Unlink(idx);
      byId := byId - {id};
      ReleaseNode(idx);
      activeCount := activeCount - 1;
      DropIsOneShorter(mine, k);
      Record(s, Drop(mine, k), Without(QueueOn(s), k));
      ValidOnEitherSide(s);
    }

    // ---------- matching ----------

    /** The first key of the ordered map of side `s`. */
    method BestPrice(s: Side) returns (p: int)
      requires Valid() && Levels(s) != map[]
      ensures NodesOn(s) != [] && p in Levels(s) && Levels(s)[p].head == At(NodesOn(s)[0])
      ensures Model().Queue(s) != [] && p == Model().Queue(s)[0].price
      ensures BestKey(s, Levels(s), p) && ValidBut(s, Some(p))
    {
      hide SideRep, View, PoolRep;
      ValidOnEitherSide(s);
      BestLevelIsFirst(nodes[..], Levels(s), NodesOn(s), s);
      NodeIsPlaced(nodes[..], freeList, byId, Levels(s), NodesOn(s), Levels(s.Opposite()), NodesOn(s.Opposite()), s, 0);
      var keys := Levels(s);
      p :| p in keys && forall x :: x in keys ==> AtLeastAsGood(s, p, x);
      assert BestKey(s, keys, p);
    }

    /** Take `quantity` off a node and off the total of its level. */
    method Reduce(idx: nat, quantity: nat)
      requires idx < nodes.Length && quantity <= nodes[idx].remaining && nodes[idx].price in Levels(nodes[idx].side)
      requires quantity <= Levels(nodes[idx].side)[nodes[idx].price].total
      modifies nodes, this`bids, this`asks
      ensures nodes[..] == Lowered(old(nodes[..]), idx, old(nodes[idx]).remaining - quantity)
      ensures var n := old(nodes[idx]);
              var level := old(Levels(n.side))[n.price];
              && Levels(n.side) == old(Levels(n.side))[n.price := level.(total := level.total - quantity)]
              && Levels(n.side.Opposite()) == old(Levels(n.side.Opposite()))
    {
      var n := nodes[idx];
      nodes[idx] := n.(remaining := n.remaining - quantity);
      var level := Levels(n.side)[n.price];
      if n.side.Buy? {
        bids := bids[n.price := level.(total := level.total - quantity)];
      } else {
        asks := asks[n.price := level.(total := level.total - quantity)];
      }
    }

    /** Trade `fill` with the order at the head of its level: reduce the maker and its level, announce both,
        and let an exhausted maker go. The level stays, hollow or not, for the outer loop. */
    method TradeWithHead(idx: nat, taker: OrderRequest, fill: nat)
      requires idx < nodes.Length && fill <= nodes[idx].remaining && nodes[idx].price in Levels(nodes[idx].side)
      requires fill <= Levels(nodes[idx].side)[nodes[idx].price].total
      requires Levels(nodes[idx].side)[nodes[idx].price].count > 0 && activeCount > 0
      requires nodes[idx].next.At? ==> nodes[idx].next.index < nodes.Length
      requires taker.symbol == symbol
      modifies nodes, this`bids, this`asks, this`sequence, this`emitted, this`byId, this`freeList, this`activeCount
      ensures nodes[..] == FilledNodes(old(nodes[..]), idx, fill)
      ensures var n := old(nodes[idx]);
              && Levels(n.side) == old(Levels(n.side))[n.price := FilledLevel(old(Levels(n.side))[n.price], n, fill)]
              && Levels(n.side.Opposite()) == old(Levels(n.side.Opposite()))
              && sequence == old(sequence) + 2
              && emitted == old(emitted) + FillEmissions(RestingOf(n), taker, fill, old(sequence))
              && byId == (if fill == n.remaining then old(byId) - {n.id} else old(byId))
              && freeList == (if fill == n.remaining then old(freeList) + [idx] else old(freeList))
              && activeCount == (if fill == n.remaining then old(activeCount) - 1 else old(activeCount))
              && n.price in Levels(n.side) && Levels(n.side).Keys == old(Levels(n.side)).Keys
    {
      var maker := nodes[idx];
      Reduce(idx, fill);
      EmitTrade(maker, taker, maker.price, fill);
      EmitReport(maker.id, if nodes[idx].remaining == 0 then Filled else PartiallyFilled, nodes[idx].remaining,
          NoReason);
      if nodes[idx].remaining == 0 {
        var level := Levels(maker.side)[maker.price].(head := maker.next);
        if level.head.At? {
          nodes[level.head.index] := nodes[level.head.index].(prev := Npos);
        } else {
          level := level.(tail := Npos);
        }
        level := level.(count := level.count - 1);
        if maker.side.Buy? {
          bids := bids[maker.price := level];
        } else {
          asks := asks[maker.price := level];
        }
        byId := byId - {maker.id};
        ReleaseNode(idx);
        activeCount := activeCount - 1;
      }
    }

    lemma HeadNode(s: Side)
      requires Valid() && NodesOn(s) != []
      ensures NodesOn(s)[0] < nodes.Length && Model().Queue(s) != []
      ensures Model().Queue(s)[0] == RestingOf(nodes[NodesOn(s)[0]])
    {
      hide Rep, View;
      ValidOnEitherSide(s);
      NodeIsPlaced(nodes[..], freeList, byId, Levels(s), NodesOn(s), Levels(s.Opposite()), NodesOn(s.Opposite()), s, 0);
    }

    /** One trade with the order at the front of side `s`. */
    method FillMaker(s: Side, idx: nat, taker: OrderRequest, ghost maker: Resting, fill: nat)
      requires Valid() && NodesOn(s) != [] && NodesOn(s)[0] == idx && taker.symbol == symbol
      requires Model().Queue(s) != [] && maker == Model().Queue(s)[0] && fill <= maker.remaining
      modifies this, nodes
      ensures ValidBut(s, Some(maker.price)) && maker.price in Levels(s) && Levels(s).Keys == old(Levels(s)).Keys
      ensures emitted == old(emitted) + FillEmissions(maker, taker, fill, old(sequence))
      ensures Model() ==
                old(Model()).WithQueue(s, FilledQueue(old(Model()).Queue(s), fill)).(sequence := old(sequence) + 2)
    {
      hide Rep, View, Drop, FillEmissions, FilledNodes, FilledLevel, FilledQueue, RestingOf, Levels, NodesOn, QueueOn;
      ModelQueues(s);
      ValidOnEitherSide(s);
      RestingFields(nodes[idx]);
      ghost var pool, mine := nodes[..], NodesOn(s);
      NodeIsPlaced(pool, freeList, byId, Levels(s), mine, Levels(s.Opposite()), NodesOn(s.Opposite()), s, 0);
      FillKeepsRep(pool, freeList, byId, Levels(s), mine, Levels(s.Opposite()), NodesOn(s.Opposite()), s, fill);
      TradeWithHead(idx, taker, fill);
      DropIsOneShorter(mine, 0);
      Record(s, if fill == maker.remaining then Drop(mine, 0) else mine, FilledQueue(QueueOn(s), fill));
    }

    /** Self-trade prevention against the own order `idx` at the front of side `s`. */
    method PreventSelfTrade(s: Side, idx: nat, taker: OrderRequest, remaining: nat) returns (next: Next)
      requires Valid() && NodesOn(s) != [] && NodesOn(s)[0] == idx && taker.symbol == symbol && remaining > 0
      requires Model().Queue(s) != [] && OwnOrder(policy, Model().Queue(s)[0], taker)
      modifies this, nodes
      ensures Valid() && !next.GoOn?
      ensures var q := old(Model()).Queue(s);
              var meeting := Meet(q[0], taker, remaining, old(policy), old(sequence));
              && (next.Restart? <==> meeting.Gone?)
              && emitted == old(emitted) + meeting.emitted
              && Model() == old(Model()).WithQueue(s, if meeting.Gone? then q[1..] else meeting.left + q[1..])
                                        .(sequence := old(sequence) + |meeting.emitted|)
    {
      hide ValidBut, Removed;
      ghost var q := Model().Queue(s);
      RemovedFirst(Model(), s);
      HeadNode(s);
      if policy == CancelNewest {
        EmitReport(taker.orderId, Cancelled, remaining, NoReason);
        assert [q[0]] + q[1..] == q;
        return TakerCancelled;
      }
      var makerId, makerRemaining := nodes[idx].id, nodes[idx].remaining;
      RemoveWithoutReport(idx, s, 0);
      EmitReport(makerId, Cancelled, makerRemaining, NoReason);
      next := Restart;
      if policy == CancelBoth {
        EmitReport(taker.orderId, Cancelled, remaining, NoReason);
        assert [] + q[1..] == q[1..];
        next := TakerCancelled;
      }
    }

    /** The taker meets the order at the front: the policy acts on an own order, otherwise they trade. */
    method MeetHead(s: Side, idx: nat, taker: OrderRequest, remaining: nat) returns (left: nat, next: Next)
      requires Valid() && NodesOn(s) != [] && NodesOn(s)[0] == idx && taker.symbol == symbol && remaining > 0
      modifies this, nodes
      ensures old(Model()).Queue(s) != []
      ensures var q := old(Model()).Queue(s);
              var meeting := Meet(q[0], taker, remaining, old(policy), old(sequence));
              && left == meeting.remaining
              && emitted == old(emitted) + meeting.emitted
              && (next.TakerCancelled? <==> meeting.Last? && meeting.takerCancelled)
              && (if next.GoOn? then ValidBut(s, Some(q[0].price)) && q[0].price in Levels(s) else Valid())
              && (next.GoOn? ==> Levels(s).Keys == old(Levels(s)).Keys)
              && Model() == old(Model()).WithQueue(s, if meeting.Gone? then q[1..] else meeting.left + q[1..])
                                        .(sequence := old(sequence) + |meeting.emitted|)
    {
      hide ValidBut, FillEmissions, FilledQueue;
      HeadNode(s);
      ghost var q := Model().Queue(s);
      var maker := nodes[idx];
      if policy != NoPrevention && maker.client == taker.clientId {
        left := remaining;
        next := PreventSelfTrade(s, idx, taker, remaining);
      } else {
        var fill := Min(remaining, maker.remaining);
        FillEmissionsAreTwo(q[0], taker, fill, sequence);
        FilledQueueIs(q, remaining);
        FillMaker(s, idx, taker, q[0], fill);
        left, next := remaining - fill, GoOn;
      }
    }

    ghost predicate Pending(whole: MatchResult, before: seq<Emission>, s: Side, taker: OrderRequest, remaining: nat)
      reads this
    {
      && before <= emitted
      && whole == Prepend(emitted[|before|..], Match(Model().Queue(s), taker, remaining, policy, sequence))
    }

    ghost predicate OnlySideMoved(b: Book, before: seq<Emission>, s: Side)
      reads this
    {
      && before <= emitted
      && Model() == b.WithQueue(s, Model().Queue(s)).(sequence := b.sequence + |emitted| - |before|)
    }

    /** While the best level still has a head, the representation is whole and that head comes first. */
    lemma HeadIsFirst(s: Side, p: int)
      requires ValidBut(s, Some(p)) && BestKey(s, Levels(s), p) && Levels(s)[p].head.At?
      ensures Valid() && NodesOn(s) != [] && NodesOn(s)[0] == Levels(s)[p].head.index
      ensures Model().Queue(s) != [] && Model().Queue(s)[0].price == p
    {
      hide SideRep, View, PoolRep, NoHollow;
      SettleLevel(nodes[..], freeList, byId, Levels(s), NodesOn(s), Levels(s.Opposite()), NodesOn(s.Opposite()), s, p);
      ValidOnEitherSide(s);
      BestLevelIsFirst(nodes[..], Levels(s), NodesOn(s), s);
      if NodesOn(s) != [] {
        NodeIsPlaced(nodes[..], freeList, byId, Levels(s), NodesOn(s), Levels(s.Opposite()), NodesOn(s.Opposite()), s,
            0);
      }
    }

    lemma SettledAlready(s: Side, p: int)
      requires ValidBut(s, Some(p)) && p in Levels(s) && Levels(s)[p].head.At?
      ensures Valid()
    {
      hide SideRep, View, PoolRep, NoHollow;
      SettleLevel(nodes[..], freeList, byId, Levels(s), NodesOn(s), Levels(s.Opposite()), NodesOn(s.Opposite()), s, p);
      ValidOnEitherSide(s);
    }

    /** levels.erase, for a level that has been drained. */
    method EraseLevel(s: Side, p: int)
      requires ValidBut(s, Some(p)) && p in Levels(s) && Levels(s)[p].head.Npos?
      modifies this`bids, this`asks
      ensures Valid()
    {
      hide SideRep, View, PoolRep, NoHollow;
      SettleLevel(nodes[..], freeList, byId, Levels(s), NodesOn(s), Levels(s.Opposite()), NodesOn(s.Opposite()), s, p);
      if s.Buy? {
        bids := bids - {p};
      } else {
        asks := asks - {p};
      }
      ValidOnEitherSide(s);
    }

    lemma NothingLeftToDo(s: Side, taker: OrderRequest, remaining: nat)
      requires Valid()
      requires remaining == 0 || Levels(s) == map[] ||
               (Model().Queue(s) != [] && !Crosses(taker, Model().Queue(s)[0].price))
      ensures Match(Model().Queue(s), taker, remaining, policy, sequence) ==
                MatchResult(Model().Queue(s), remaining, [], false)
    {
      hide SideRep, View, PoolRep, NoHollow;
      ValidOnEitherSide(s);
      BestLevelIsFirst(nodes[..], Levels(s), NodesOn(s), s);
    }

    /** The whole walk has ended here with the taker cancelled. */
    ghost predicate Ended(whole: MatchResult, b: Book, before: seq<Emission>, s: Side, remaining: nat)
      reads this, nodes
    {
      && Valid() && whole.takerCancelled && remaining == whole.remaining && emitted == before + whole.emitted
      && Model() == b.WithQueue(s, whole.queue).(sequence := b.sequence + |whole.emitted|)
    }

    /** One pass of the inner loop, as a step of the walk. */
    method MatchFront(s: Side, p: int, taker: OrderRequest, size: nat, ghost whole: MatchResult, ghost b: Book,
                      ghost before: seq<Emission>) returns (remaining: nat, next: Next)
      requires ValidBut(s, Some(p)) && BestKey(s, Levels(s), p) && Levels(s)[p].head.At? && size > 0
      requires taker.symbol == symbol && Crosses(taker, p)
      requires Pending(whole, before, s, taker, size) && OnlySideMoved(b, before, s)
      modifies this, nodes
      ensures next.TakerCancelled? ==> Ended(whole, b, before, s, remaining)
      ensures next.Restart? ==> Valid()
      ensures next.GoOn? ==> ValidBut(s, Some(p)) && BestKey(s, Levels(s), p)
      ensures !next.TakerCancelled? ==> Pending(whole, before, s, taker, remaining) && OnlySideMoved(b, before, s)
      ensures |Model().Queue(s)| <= |old(Model()).Queue(s)|
      ensures !next.TakerCancelled? && remaining > 0 ==> |Model().Queue(s)| < |old(Model()).Queue(s)|
    {
      hide ValidBut, Match, Meet, Prepend;
      HeadIsFirst(s, p);
      ghost var q, since := Model().Queue(s), emitted[|before|..];
      ghost var meeting := Meet(q[0], taker, size, policy, sequence);
      MeetingShrinks(q[0], taker, size, policy, sequence);
      WalkStep(whole, since, q, taker, size, policy, sequence);
      remaining, next := MeetHead(s, Levels(s)[p].head.index, taker, size);
      assert emitted[|before|..] == since + meeting.emitted;
    }

    /** The inner loop of match_against: the orders of the best level `p`, first come first served. */
    method MatchLevel(s: Side, p: int, taker: OrderRequest, size: nat, ghost whole: MatchResult, ghost b: Book,
                      ghost before: seq<Emission>) returns (remaining: nat, next: Next)
      requires ValidBut(s, Some(p)) && BestKey(s, Levels(s), p) && Levels(s)[p].head.At? && size > 0
      requires taker.symbol == symbol && Crosses(taker, p)
      requires Pending(whole, before, s, taker, size) && OnlySideMoved(b, before, s)
      modifies this, nodes
      ensures next.TakerCancelled? ==> Ended(whole, b, before, s, remaining)
      ensures next.Restart? ==> Valid()
      ensures next.GoOn? ==> ValidBut(s, Some(p)) && p in Levels(s) && (remaining == 0 || Levels(s)[p].head.Npos?)
      ensures !next.TakerCancelled? ==> Pending(whole, before, s, taker, remaining) && OnlySideMoved(b, before, s)
      ensures |Model().Queue(s)| <= |old(Model()).Queue(s)|
      ensures !next.TakerCancelled? && remaining > 0 ==> |Model().Queue(s)| < |old(Model()).Queue(s)|
    {
      hide ValidBut, Pending, OnlySideMoved, Ended;
      remaining, next := size, GoOn;
      ghost var moved := false;
      while remaining > 0 && Levels(s)[p].head.At?
        invariant ValidBut(s, Some(p)) && BestKey(s, Levels(s), p)
        invariant Pending(whole, before, s, taker, remaining) && OnlySideMoved(b, before, s)
        invariant |Model().Queue(s)| <= |old(Model()).Queue(s)|
        invariant if moved then remaining > 0 ==> |Model().Queue(s)| < |old(Model()).Queue(s)|
                  else remaining > 0 && Levels(s)[p].head.At?
        invariant next.GoOn?
        decreases |Model().Queue(s)|, remaining
      {
        remaining, next := MatchFront(s, p, taker, remaining, whole, b, before);
        moved := true;
        if !next.GoOn? {
          return;
        }
      }
    }

    /** match_against: level by level from the best price, until the taker is done or no longer crosses. */
    method MatchAgainst(s: Side, taker: OrderRequest, size: nat) returns (remaining: nat, cancelled: bool)
      requires Valid() && taker.symbol == symbol
      modifies this, nodes
      ensures Valid()
      ensures var m := Match(old(Model()).Queue(s), taker, size, old(policy), old(sequence));
              && remaining == m.remaining && cancelled == m.takerCancelled
              && emitted == old(emitted) + m.emitted
              && Model() == old(Model()).WithQueue(s, m.queue).(sequence := old(sequence) + |m.emitted|)
    {
      hide ValidBut, Match;
      remaining, cancelled := size, false;
      ghost var b, before := Model(), emitted;
      ghost var whole := Match(b.Queue(s), taker, size, policy, sequence);
      while remaining > 0 && Levels(s) != map[]
        invariant Valid() && Pending(whole, before, s, taker, remaining) && OnlySideMoved(b, before, s)
        decreases |Model().Queue(s)|, remaining
      {
        var p := BestPrice(s);
        if !Crosses(taker, p) {
          break;
        }
        var next;
        remaining, next := MatchLevel(s, p, taker, remaining, whole, b, before);
        if next.TakerCancelled? {
          return remaining, true;
        }
        if next.Restart? {
          continue;
        }
        if Levels(s)[p].head.Npos? {
          EraseLevel(s, p);
        } else {
          SettledAlready(s, p);
        }
      }
      NothingLeftToDo(s, taker, remaining);
    }

    // ---------- submit ----------

    /** What the level map of side `s` still holds, seen through the queue. */
    ghost predicate Walking(s: Side, todo: map<int, Level>, k: nat)
      reads this
    {
      Unvisited(Levels(s), todo, Model().Queue(s), k)
    }

    lemma WalkStarts(s: Side)
      requires Valid()
      ensures Walking(s, Levels(s), 0)
    {
      hide View, PoolRep, Unvisited;
      ValidOnEitherSide(s);
      AllUnvisited(nodes[..], Levels(s), NodesOn(s), s);
    }

    /** One step of an ordered-map iterator over the levels still to visit. */
    method FirstOf(s: Side, todo: map<int, Level>, ghost k: nat) returns (p: int)
      requires Valid() && Walking(s, todo, k) && todo != map[]
      ensures k < |Model().Queue(s)| && p == Model().Queue(s)[k].price && p in todo && todo[p] == Levels(s)[p]
      ensures todo[p].head == At(NodesOn(s)[k])
      ensures todo[p].total == TotalAt(Model().Queue(s)[k..LevelEnd(Model().Queue(s), k)], p)
    {
      hide View, PoolRep, SideRep, NoHollow;
      ValidOnEitherSide(s);
      NextLevel(nodes[..], Levels(s), NodesOn(s), s, todo, k);
      p :| p in todo && forall x :: x in todo ==> AtLeastAsGood(s, p, x);
      assert BestKey(s, todo, p);
      assert Model().Queue(s)[k] == RestingOf(nodes[NodesOn(s)[k]]);
      SideFacts(s);
      LevelTotal(s, Levels(s), Model().Queue(s), k);
    }

    lemma SideFacts(s: Side)
      requires Valid()
      ensures Sorted(s, Model().Queue(s)) && Totaled(Levels(s), Model().Queue(s))
    {
      hide View;
      ValidOnEitherSide(s);
    }

    /** available_to_match: what crosses, level by level, counted only up to the size of the order. */
    method AvailableToMatch(r: OrderRequest) returns (available: nat)
      requires Valid()
      ensures available == Min(r.quantity, TotalCrossing(Model().Queue(r.side.Opposite()), r))
    {
      hide ValidBut, Walking, TotalCrossing, TotalAt, LevelEnd, Sorted, Totaled;
      var s := r.side.Opposite();
      var todo := Levels(s);
      ghost var k, v := 0, QueueOf(s);
      available := 0;
      WalkStarts(s);
      WalkEnds(s, todo, 0);
      assert v[0..] == v;
      while todo != map[]
        invariant v == Model().Queue(s) && Walking(s, todo, k)
        invariant available <= r.quantity
        invariant k <= |v| && available + TotalCrossing(v[k..], r) == TotalCrossing(v, r)
        invariant todo == map[] ==> k == |v|
        decreases |v| - k
      {
        var p := FirstOf(s, todo, k);
        if !Crosses(r, p) {
          NothingCrosses(v, k, r);
          break;
        }
        TotalFrom(v, k, r);
        available := available + todo[p].total;
        if available >= r.quantity {
          return r.quantity;
        }
        WalkGoesOn(s, todo, k, LevelEnd(v, k));
        k := LevelEnd(v, k);
        todo := todo - {p};
        WalkEnds(s, todo, k);
      }
      if k == |v| {
        NothingCrosses(v, k, r);
      }
    }

    ghost function QueueOf(s: Side): seq<Resting>
      requires Valid()
      reads this, nodes
    {
      Model().Queue(s)
    }

    lemma WalkGoesOn(s: Side, todo: map<int, Level>, k: nat, i: nat)
      requires Valid() && Walking(s, todo, k) && k < i <= |Model().Queue(s)|
      requires var v := Model().Queue(s);
               && (forall j :: k <= j < i ==> v[j].price == v[k].price)
               && (i < |v| ==> v[i].price != v[k].price)
      ensures Walking(s, todo - {Model().Queue(s)[k].price}, i)
    {
      hide Rep, View, Unvisited;
      SideFacts(s);
      LevelVisited(s, Levels(s), todo, Model().Queue(s), k, i);
    }

    lemma WalkEnds(s: Side, todo: map<int, Level>, k: nat)
      requires Walking(s, todo, k)
      ensures todo == map[] ==> k == |Model().Queue(s)|
    {
      hide Levels, QueueOn;
      var v := Model().Queue(s);
      if k < |v| {
        assert v[k].price in todo;
      }
    }

    lemma IndexHolds(id: nat)
      requires Valid()
      ensures id in byId <==> Model().Holds(id)
      ensures freeList == [] <==> Model().Full()
    {
      hide SideRep, View;
      IndexFinds(nodes[..], freeList, byId, bidNodes, askNodes, id);
    }

    /** validate: the reason to refuse, reported at once, or permission to go on. */
    method Validate(r: OrderRequest) returns (ok: bool)
      requires Valid()
      modifies this`sequence, this`emitted
      ensures var reason := BookSpec.Validate(old(Model()), r);
              && Valid() && ok == (reason == NoReason)
              && Model() == (if ok then old(Model()) else Reject(old(Model()), r.orderId, r.quantity, reason).book)
              && emitted ==
                   old(emitted) + (if ok then [] else Reject(old(Model()), r.orderId, r.quantity, reason).emitted)
      ensures ok ==> !Model().Holds(r.orderId) && !Model().Full() && r.symbol == symbol
    {
      hide ValidBut;
      IndexHolds(r.orderId);
      var reason := NoReason;
      if r.symbol != symbol { reason := InvalidPrice; }
      else if r.quantity == 0 { reason := InvalidQuantity; }
      else if !r.kind.Market? && r.price <= 0 { reason := InvalidPrice; }
      else if r.kind.Market? && r.price != MARKET_PRICE { reason := InvalidPrice; }
      else if r.orderId in byId { reason := DuplicateOrderId; }
      else if freeList == [] { reason := CapacityExceeded; }
      if reason != NoReason {
        EmitReport(r.orderId, Rejected, r.quantity, reason);
        return false;
      }
      ok := true;
    }

    /** best_bid and best_ask: the first price of a side, 0 when it is empty. */
    method BestOf(s: Side) returns (p: int)
      requires Valid()
      ensures p == if Model().Queue(s) == [] then 0 else Model().Queue(s)[0].price
      ensures Levels(s) == map[] <==> Model().Queue(s) == []
    {
      hide ValidBut;
      EmptySide(s);
      if Levels(s) == map[] {
        return 0;
      }
      p := BestPrice(s);
    }

    lemma EmptySide(s: Side)
      requires Valid()
      ensures Levels(s) == map[] <==> Model().Queue(s) == []
    {
      hide SideRep, View, PoolRep, NoHollow;
      ValidOnEitherSide(s);
      BestLevelIsFirst(nodes[..], Levels(s), NodesOn(s), s);
    }

    method SetStpPolicy(policy: StpPolicy)
      requires Valid()
      modifies this`policy
      ensures Valid() && Model() == old(Model()).(policy := policy)
    {
      this.policy := policy;
    }

    /** After the walk: report the taker's state, then rest or expire what is left of it. */
    method Conclude(r: OrderRequest, remaining: nat)
      requires Valid() && !Model().Holds(r.orderId) && !Model().Full()
      modifies this, nodes
      ensures Valid()
      ensures var o := BookSpec.Conclude(old(Model()), r, remaining);
              Model() == o.book && emitted == old(emitted) + o.emitted
    {
      hide ValidBut, Insert;
      IndexHolds(r.orderId);
      if remaining == 0 {
        EmitReport(r.orderId, Filled, 0, NoReason);
      } else if remaining < r.quantity {
        EmitReport(r.orderId, PartiallyFilled, remaining, NoReason);
      }
      if remaining > 0 {
        if r.kind == Limit || r.kind == PostOnly {
          var rested := Rest(r, remaining);
        } else {
          EmitReport(r.orderId, Expired, remaining, NoReason);
        }
      }
    }

    /** What is accepted: the walk, and its conclusion unless the policy has cancelled the taker. */
    method Execute(r: OrderRequest)
      requires Valid() && !Model().Holds(r.orderId) && !Model().Full() && r.symbol == symbol
      modifies this, nodes
      ensures Valid()
      ensures var o := BookSpec.Execute(old(Model()), r);
              Model() == o.book && emitted == old(emitted) + o.emitted
    {
      hide ValidBut, Match, BookSpec.Conclude;
      ghost var b := Model();
      EmitReport(r.orderId, Accepted, r.quantity, NoReason);
      var remaining, cancelled := MatchAgainst(r.side.Opposite(), r, r.quantity);
      assert Model() == AfterWalk(b, r);
      if cancelled {
        return;
      }
      WalkFreesNothingNew(b, r);
      ghost var sofar := emitted;
      Conclude(r, remaining);
      ghost var end := BookSpec.Conclude(AfterWalk(b, r), r, remaining);
      assert sofar + end.emitted == old(emitted) + (sofar[|old(emitted)|..] + end.emitted);
    }

    /** What the opposing side says about a valid post-only or fill-or-kill order. */
    method Unfit(r: OrderRequest) returns (reason: RejectReason)
      requires Valid() && BookSpec.Validate(Model(), r) == NoReason
      ensures reason == Refusal(Model(), r)
    {
      hide ValidBut, TotalCrossing, BookSpec.Validate;
      var s := r.side.Opposite();
      if r.kind == PostOnly {
        var best := BestOf(s);
        if Levels(s) != map[] && Crosses(r, best) {
          return WouldTrade;
        }
      }
      if r.kind == FOK {
        var available := AvailableToMatch(r);
        if available < r.quantity {
          return InsufficientLiquidity;
        }
      }
      reason := NoReason;
    }

    /** The checks an order passes before it is accepted; a refusal is reported at once. */
    method Admit(r: OrderRequest) returns (ok: bool)
      requires Valid()
      modifies this`sequence, this`emitted
      ensures Valid()
      ensures var reason := Refusal(old(Model()), r);
              && ok == (reason == NoReason)
              && Model() == (if ok then old(Model()) else Reject(old(Model()), r.orderId, r.quantity, reason).book)
              && emitted ==
                   old(emitted) + (if ok then [] else Reject(old(Model()), r.orderId, r.quantity, reason).emitted)
      ensures ok ==> !Model().Holds(r.orderId) && !Model().Full() && r.symbol == symbol
    {
      hide ValidBut, Refusal, BookSpec.Validate;
      InvalidIsRefused(Model(), r);
      var valid := Validate(r);
      if !valid {
        return false;
      }
      var reason := Unfit(r);
      if reason != NoReason {
        EmitReport(r.orderId, Rejected, r.quantity, reason);
        return false;
      }
      ok := true;
    }

    method Submit(r: OrderRequest) returns (ok: bool)
      requires Valid()
      modifies this, nodes
      ensures Valid()
      ensures var o := BookSpec.Submit(old(Model()), r);
              Model() == o.book && emitted == old(emitted) + o.emitted && ok == o.ok
    {
      hide ValidBut, BookSpec.Execute, Refusal;
      ok := Admit(r);
      if ok {
        ExecutionIsOk(Model(), r);
        Execute(r);
      }
    }

    // ---------- cancel and replace ----------

    /** The place in the abstract book of an order found through the id index. */
    lemma Locate(id: nat) returns (p: Place)
      requires Valid() && id in byId
      ensures Find(Model(), id) == Some(p) && p.at < |NodesOn(p.side)| && NodesOn(p.side)[p.at] == byId[id]
      ensures byId[id] < nodes.Length && Model().Queue(p.side)[p.at] == RestingOf(nodes[byId[id]])
      ensures nodes[byId[id]].side == p.side
    {
      hide SideRep, View, NoHollow;
      IndexFinds(nodes[..], freeList, byId, bidNodes, askNodes, id);
      IdsAreDistinct(nodes[..], freeList, byId, bidNodes, askNodes);
      p := Find(Model(), id).value;
      ValidOnEitherSide(p.side);
      NodeIsPlaced(nodes[..], freeList, byId, Levels(p.side), NodesOn(p.side), Levels(p.side.Opposite()),
                   NodesOn(p.side.Opposite()), p.side, p.at);
    }

    method Cancel(r: CancelRequest) returns (ok: bool)
      requires Valid()
      modifies this, nodes
      ensures Valid()
      ensures var o := BookSpec.Cancel(old(Model()), r);
              Model() == o.book && emitted == old(emitted) + o.emitted && ok == o.ok
    {
      hide ValidBut, Without, Find;
      IndexHolds(r.orderId);
      FindNone(Model(), r.orderId);
      if r.orderId !in byId {
        EmitReport(r.orderId, Rejected, 0, UnknownOrder);
        return false;
      }
      var idx := byId[r.orderId];
      ghost var p := Locate(r.orderId);
      if nodes[idx].client != r.clientId {
        EmitReport(r.orderId, Rejected, nodes[idx].remaining, ClientMismatch);
        return false;
      }
      var remaining := nodes[idx].remaining;
      RemoveWithoutReport(idx, p.side, p.at);
      EmitReport(r.orderId, Cancelled, remaining, NoReason);
      ok := true;
    }

    /** Lower the quantity of an order that keeps its place. */
    method Amend(idx: nat, quantity: nat, ghost p: Place)
      requires Valid() && p.at < |NodesOn(p.side)| && NodesOn(p.side)[p.at] == idx
      requires idx < nodes.Length && quantity <= nodes[idx].remaining && nodes[idx].side == p.side
      modifies nodes, this`bids, this`asks, this`bidNodes, this`askNodes, this`bidQueue, this`askQueue
      ensures Valid() && p.at < |old(Model()).Queue(p.side)| && Model() == Reduced(old(Model()), p, quantity)
    {
      hide Rep, View, Lowered, Levels, NodesOn, QueueOn;
      ModelQueues(p.side);
      ValidOnEitherSide(p.side);
      ghost var s := p.side;
      LowerKeepsRep(nodes[..], freeList, byId, Levels(s), NodesOn(s), Levels(s.Opposite()), NodesOn(s.Opposite()), s,
                    None, p.at, quantity);
      Reduce(idx, nodes[idx].remaining - quantity);
      Record(s, NodesOn(s), QueueOn(s)[p.at := QueueOn(s)[p.at].(remaining := quantity)]);
      RepIsLegible(nodes[..], freeList, byId, Levels(s), NodesOn(s), Levels(s.Opposite()), NodesOn(s.Opposite()), s,
          None);
      ValidOnEitherSide(s);
    }

    /** A replacement that gives up its place: leave the book, then come back as a new limit order. */
    method Requeue(idx: nat, r: ReplaceRequest, ghost p: Place) returns (ok: bool)
      requires Valid() && p.at < |NodesOn(p.side)| && NodesOn(p.side)[p.at] == idx
      requires idx < nodes.Length && nodes[idx].side == p.side
      modifies this, nodes
      ensures Valid() && p.at < |old(Model()).Queue(p.side)|
      ensures var o := BookSpec.Requeue(old(Model()), p, r);
              && Model() == o.book && ok == o.ok
              && emitted == old(emitted)
                            + ([ReportOf(old(Model()), 1, r.orderId, Replaced, r.newQuantity, NoReason)] + o.emitted)
    {
      hide ValidBut, Without, BookSpec.Submit;
      var side := nodes[idx].side;
      RemoveWithoutReport(idx, p.side, p.at);
      EmitReport(r.orderId, Replaced, r.newQuantity, NoReason);
      ghost var replaced := [ReportOf(old(Model()), 1, r.orderId, Replaced, r.newQuantity, NoReason)];
      assert emitted == old(emitted) + replaced;
      ok := Submit(OrderRequest(r.orderId, r.clientId, side, Limit, r.newPrice, r.newQuantity, symbol));
      ConcatAssociates(old(emitted), replaced, BookSpec.Requeue(old(Model()), p, r).emitted);
    }

    /** The checks of replace; a refusal is reported at once. */
    method RefuseReplace(r: ReplaceRequest) returns (refused: bool)
      requires Valid()
      modifies this`sequence, this`emitted
      ensures Valid()
      ensures var o := BookSpec.Replace(old(Model()), r);
              if refused then Model() == o.book && emitted == old(emitted) + o.emitted && !o.ok
              else Model() == old(Model()) && emitted == old(emitted)
      ensures !refused ==> r.orderId in byId && r.newPrice > 0 && r.newQuantity > 0
      ensures !refused ==> byId[r.orderId] < nodes.Length && nodes[byId[r.orderId]].client == r.clientId
    {
      hide ValidBut, BookSpec.Requeue, Reduced;
      IndexHolds(r.orderId);
      FindNone(Model(), r.orderId);
      refused := true;
      if r.orderId !in byId {
        EmitReport(r.orderId, Rejected, 0, UnknownOrder);
      } else {
        ghost var p := Locate(r.orderId);
        var node := nodes[byId[r.orderId]];
        if node.client != r.clientId {
          EmitReport(r.orderId, Rejected, node.remaining, ClientMismatch);
        } else if r.newPrice <= 0 || r.newQuantity == 0 {
          EmitReport(r.orderId, Rejected, node.remaining, InvalidReplacement);
        } else {
          refused := false;
        }
      }
    }

    method Replace(r: ReplaceRequest) returns (ok: bool)
      requires Valid()
      modifies this, nodes
      ensures Valid()
      ensures var o := BookSpec.Replace(old(Model()), r);
              Model() == o.book && emitted == old(emitted) + o.emitted && ok == o.ok
    {
      hide ValidBut, Reduced, Find, BookSpec.Requeue, BookSpec.Replace;
      var refused := RefuseReplace(r);
      if refused {
        return false;
      }
      var idx := byId[r.orderId];
      ghost var p := Locate(r.orderId);
      ReplaceGoesThrough(Model(), p, r);
      var node := nodes[idx];
      if r.newPrice == node.price && r.newQuantity <= node.remaining {
        Amend(idx, r.newQuantity, p);
        EmitReport(r.orderId, Replaced, r.newQuantity, NoReason);
        return true;
      }
      ok := Requeue(idx, r, p);
    }

    // ---------- depth, snapshots and hashes ----------

    /** quantity_at: the cached total of a level is the sum over its orders. */
    method QuantityAt(s: Side, price: int) returns (quantity: nat)
      requires Valid()
      ensures quantity == TotalAt(Model().Queue(s), price)
    {
      hide View;
      ValidOnEitherSide(s);
      SideFacts(s);
      if price !in Levels(s) {
        UnkeyedPriceDoesNot(nodes[..], Levels(s), NodesOn(s), price);
        NoneToTotal(Model().Queue(s), price);
        return 0;
      }
      quantity := Levels(s)[price].total;
    }

    /** Where a link leads from the order at position `i`, while walking the list of one price. */
    ghost predicate Stands(s: Side, link: Link, i: nat, p: int)
      reads this
    {
      && i <= |QueueOn(s)| && |NodesOn(s)| == |QueueOn(s)|
      && link == if i < |QueueOn(s)| && QueueOn(s)[i].price == p then At(NodesOn(s)[i]) else Npos
    }

    lemma NextStands(s: Side, i: nat)
      requires Valid() && i < |NodesOn(s)|
      ensures |NodesOn(s)| == |QueueOn(s)| && NodesOn(s)[i] < nodes.Length
      ensures QueueOn(s)[i] == RestingOf(nodes[NodesOn(s)[i]])
      ensures Stands(s, nodes[NodesOn(s)[i]].next, i + 1, QueueOn(s)[i].price)
    {
      hide View, PoolRep, Sorted, Totaled, NoHollow, Headed, Linked;
      ValidOnEitherSide(s);
      LinkedAt(nodes[..], NodesOn(s), i);
    }

    lemma QueueLengths(s: Side)
      requires Valid()
      ensures |NodesOn(s)| == |QueueOn(s)|
    {
      hide Rep;
      ValidOnEitherSide(s);
    }

    /** The orders of side `s`, level by level and link by link, appended to `sofar`. */
    method CollectOrders(s: Side, sofar: seq<OrderRequest>) returns (orders: seq<OrderRequest>)
      requires Valid()
      ensures orders == sofar + RequestsOf(QueueOn(s), s, symbol)
    {
      hide ValidBut, Walking, LevelEnd, TotalAt, RequestsOf;
      var todo := Levels(s);
      ghost var i, v := 0, QueueOn(s);
      orders := sofar;
      WalkStarts(s);
      WalkEnds(s, todo, 0);
      QueueLengths(s);
      RequestsOfNone(s, symbol);
      assert v[..0] == [];
      while todo != map[]
        invariant Walking(s, todo, i) && i <= |v| && (todo == map[] ==> i == |v|)
        invariant orders == sofar + RequestsOf(v[..i], s, symbol)
        decreases |v| - i
      {
        var p := FirstOf(s, todo, i);
        ghost var k := i;
        var link := todo[p].head;
        while link.At?
          invariant k <= i <= |v| && Stands(s, link, i, p)
          invariant i == k ==> link.At?
          invariant forall j :: k <= j < i ==> v[j].price == p
          invariant orders == sofar + RequestsOf(v[..i], s, symbol)
          decreases |v| - i
        {
          NextStands(s, i);
          var node := nodes[link.index];
          RequestsOfMore(v, i, s, symbol);
          orders := orders + [OrderRequest(node.id, node.client, s, Limit, p, node.remaining, symbol)];
          i := i + 1;
          link := node.next;
        }
        WalkGoesOn(s, todo, k, i);
        todo := todo - {p};
        WalkEnds(s, todo, i);
      }
      assert v[..i] == v;
    }

    /** resting_orders: bids then asks, best price first, first come first. */
    method RestingOrders() returns (orders: seq<OrderRequest>)
      requires Valid()
      ensures orders == BookSnapshot.RestingOrders(Model())
    {
      hide ValidBut, RequestsOf;
      orders := CollectOrders(Buy, []);
      orders := CollectOrders(Sell, orders);
    }

    /** reset: every node blank and free again. */
    method Reset()
      modifies this, nodes
      ensures Valid() && Model() == BookSnapshot.Cleared(old(Model())) && emitted == old(emitted)
      ensures byId == map[]
    {
      hide Rep, View, InPool;
      bids, asks, byId := map[], map[], map[];
      activeCount, sequence := 0, 0;
      freeList := [];
      bidNodes, askNodes, bidQueue, askQueue := [], [], [], [];
      var i := nodes.Length;
      while i > 0
        invariant 0 <= i <= nodes.Length && |freeList| == nodes.Length - i
        invariant forall j :: 0 <= j < |freeList| ==> freeList[j] == nodes.Length - 1 - j
        invariant forall j :: i <= j < nodes.Length ==> nodes[j] == BLANK
        invariant byId == map[] && bids == map[] && asks == map[] && bidNodes == [] && askNodes == []
        invariant bidQueue == [] && askQueue == [] && activeCount == 0 && sequence == 0
        invariant policy == old(policy) && emitted == old(emitted)
      {
        i := i - 1;
        nodes[i] := BLANK;
        freeList := freeList + [i];
      }
      EmptyRep(nodes[..], freeList);
      NothingInPool(nodes[..]);
    }

    static lemma NothingInPool(pool: seq<Node>)
      ensures InPool(pool, [])
    {
    }

    /** restore_resting_orders; `ok` is false where the source throws, with the book left half restored. */
    method RestoreRestingOrders(orders: seq<OrderRequest>, sequence: nat) returns (ok: bool)
      modifies this, nodes
      ensures Valid() && emitted == old(emitted)
      ensures var restored := BookSnapshot.Restore(old(Model()), orders, sequence);
              ok == restored.Some? && (ok ==> Model() == restored.value)
    {
      hide ValidBut, RestOrder;
      Reset();
      var i := 0;
      ghost var b := Model();
      assert orders[0..] == orders;
      while i < |orders|
        invariant Valid() && i <= |orders| && emitted == old(emitted)
        invariant BookSnapshot.RestAll(b, orders) == BookSnapshot.RestAll(Model(), orders[i..])
      {
        var order := orders[i];
        IndexHolds(order.orderId);
        assert orders[i..][0] == order && orders[i..][1..] == orders[i + 1..];
        if order.symbol != symbol || order.quantity == 0 || order.price <= 0 || order.orderId in byId {
          return false;
        }
        var rested := Rest(order, order.quantity);
        if !rested {
          return false;
        }
        i := i + 1;
      }
      assert orders[i..] == [];
      this.sequence := sequence;
      ok := true;
    }

    /** The words of side `s` mixed into a running hash. */
    method MixSide(s: Side, seed: bv64, ghost sofar: seq<int>) returns (hash: bv64)
      requires Valid() && seed == MixAll(HASH_SEED, sofar)
      ensures hash == MixAll(HASH_SEED, sofar + [if s.Buy? then 0 else 1] + WordsOf(QueueOn(s), |QueueOn(s)|))
    {
      hide ValidBut, Walking, LevelEnd, TotalAt, MixAll, Mix, WordsOf;
      var todo := Levels(s);
      ghost var i, v, words := 0, QueueOn(s), sofar + [if s.Buy? then 0 else 1];
      MixOne(HASH_SEED, sofar, if s.Buy? then 0 else 1);
      hash := Mix(seed, if s.Buy? then 0 else 1);
      WalkStarts(s);
      WalkEnds(s, todo, 0);
      QueueLengths(s);
      NoWords(v);
      assert words + [] == words;
      while todo != map[]
        invariant Walking(s, todo, i) && i <= |v| && (todo == map[] ==> i == |v|)
        invariant hash == MixAll(HASH_SEED, words + WordsOf(v, i))
        decreases |v| - i
      {
        var p := FirstOf(s, todo, i);
        LevelStarts(s, todo, i);
        ghost var k := i;
        var link := todo[p].head;
        MixOne(HASH_SEED, words + WordsOf(v, i), p);
        hash := Mix(hash, p);
        while link.At?
          invariant k <= i <= |v| && Stands(s, link, i, p)
          invariant i == k ==> link.At?
          invariant forall j :: k <= j < i ==> v[j].price == p
          invariant hash == MixAll(HASH_SEED, words + WordsOf(v, i) + if i == k then [p] else [])
          decreases |v| - i
        {
          NextStands(s, i);
          var node := nodes[link.index];
          MixOrder(HASH_SEED, words, v, i, k);
          hash := Mix(Mix(Mix(hash, node.id), node.client), node.remaining);
          i := i + 1;
          link := node.next;
          assert words + WordsOf(v, i) + [] == words + WordsOf(v, i);
        }
        assert words + WordsOf(v, i) + [] == words + WordsOf(v, i);
        WalkGoesOn(s, todo, k, i);
        todo := todo - {p};
        WalkEnds(s, todo, i);
      }
    }

    lemma LevelStarts(s: Side, todo: map<int, Level>, k: nat)
      requires Walking(s, todo, k)
      ensures 0 < k < |Model().Queue(s)| ==> Model().Queue(s)[k - 1].price != Model().Queue(s)[k].price
    {
    }

    /** state_hash: symbol, bids, asks and the number of orders, and nothing about the node layout. */
    method StateHash() returns (hash: bv64)
      requires Valid()
      ensures hash == BookWalk.StateHash(Model())
    {
      hide ValidBut, MixAll, Mix, WordsOf;
      NothingMixed(HASH_SEED);
      MixOne(HASH_SEED, [], symbol);
      hash := Mix(HASH_SEED, symbol);
      assert [] + [symbol] == [symbol];
      ghost var words := [symbol];
      hash := MixSide(Buy, hash, words);
      words := words + [0] + WordsOf(bidQueue, |bidQueue|);
      hash := MixSide(Sell, hash, words);
      words := words + [1] + WordsOf(askQueue, |askQueue|);
      MixOne(HASH_SEED, words, activeCount);
      ActiveOrders();
      hash := Mix(hash, activeCount);
    }

    lemma ActiveOrders()
      requires Valid()
      ensures activeCount == |bidQueue| + |askQueue|
    {
      hide Rep;
    }
  }

  datatype Next = GoOn | Restart | TakerCancelled

  lemma FillEmissionsAreTwo(maker: Resting, taker: OrderRequest, fill: nat, sequence: nat)
    requires fill <= maker.remaining
    ensures |FillEmissions(maker, taker, fill, sequence)| == 2
  {
  }

  lemma FilledQueueIs(q: seq<Resting>, remaining: nat)
    requires q != []
    ensures FilledQueue(q, Min(remaining, q[0].remaining)) ==
              if q[0].remaining <= remaining then q[1..] else [q[0].(remaining := q[0].remaining - remaining)] + q[1..]
  {
  }

  lemma MatchExhausted(q: seq<Resting>, taker: OrderRequest, policy: StpPolicy, sequence: nat)
    ensures Match(q, taker, 0, policy, sequence) == MatchResult(q, 0, [], false)
  {
  }

  /** The part of the walk still to come, before and after one meeting. */
  lemma WalkStep(whole: MatchResult, since: seq<Emission>, q: seq<Resting>, taker: OrderRequest, remaining: nat,
                 policy: StpPolicy, sequence: nat)
    requires !Idle(q, taker, remaining)
    requires whole == Prepend(since, Match(q, taker, remaining, policy, sequence))
    ensures var meeting := Meet(q[0], taker, remaining, policy, sequence);
            var q' := if meeting.Gone? then q[1..] else meeting.left + q[1..];
            if meeting.Last? && meeting.takerCancelled then
              whole == MatchResult(q', meeting.remaining, since + meeting.emitted, true)
            else
              whole == Prepend(since + meeting.emitted,
                               Match(q', taker, meeting.remaining, policy, sequence + |meeting.emitted|))
  {
    hide Match, Meet;
    MatchMeets(q, taker, remaining, policy, sequence);
    var meeting := Meet(q[0], taker, remaining, policy, sequence);
    if meeting.Gone? {
      var rest := Match(q[1..], taker, meeting.remaining, policy, sequence + |meeting.emitted|);
      assert since + (meeting.emitted + rest.emitted) == since + meeting.emitted + rest.emitted;
    } else {
      MatchExhausted(meeting.left + q[1..], taker, policy, sequence + |meeting.emitted|);
    }
  }

  /** The walk holds no id the book did not hold, and leaves room for one order if there was room. */
  lemma WalkFreesNothingNew(b: Book, r: OrderRequest)
    requires !b.Holds(r.orderId) && !b.Full()
    ensures !AfterWalk(b, r).Holds(r.orderId) && !AfterWalk(b, r).Full()
  {
    hide Match;
    MatchConsumesPrefix(b.Queue(r.side.Opposite()), r, r.quantity, b.policy, b.sequence + 1);
  }

  lemma FindNone(b: Book, id: nat)
    ensures Find(b, id).None? <==> !b.Holds(id)
  {
  }

  lemma InvalidIsRefused(b: Book, r: OrderRequest)
    ensures Validate(b, r) != NoReason ==> Refusal(b, r) == Validate(b, r)
  {
  }

  lemma ReplaceGoesThrough(b: Book, p: Place, r: ReplaceRequest)
    requires Find(b, r.orderId) == Some(p) && b.Queue(p.side)[p.at].client == r.clientId
    requires r.newPrice > 0 && r.newQuantity > 0
    ensures var replaced := ReportOf(b, 1, r.orderId, Replaced, r.newQuantity, NoReason);
            Replace(b, r) ==
              if InPlace(b.Queue(p.side)[p.at], r) then
                Outcome(Reduced(b, p, r.newQuantity).(sequence := b.sequence + 1), [replaced], true)
              else
                var again := Requeue(b, p, r);
                Outcome(again.book, [replaced] + again.emitted, again.ok)
  {
    hide Requeue;
  }

  lemma ConcatAssociates(a: seq<Emission>, b: seq<Emission>, c: seq<Emission>)
    ensures a + b + c == a + (b + c)
  {
  }

  /** A meeting that does not end in the taker's cancellation uses up the maker or the taker. */
  lemma MeetingShrinks(maker: Resting, taker: OrderRequest, remaining: nat, policy: StpPolicy, sequence: nat)
    ensures var meeting := Meet(maker, taker, remaining, policy, sequence);
            meeting.Last? ==> |meeting.left| <= 1 && (meeting.takerCancelled || meeting.remaining == 0)
  {
  }

  lemma RequestsOfNone(s: Side, symbol: nat)
    ensures RequestsOf([], s, symbol) == []
  {
  }

  lemma RequestsOfMore(v: seq<Resting>, i: nat, s: Side, symbol: nat)
    requires i < |v|
    ensures RequestsOf(v[..i + 1], s, symbol) == RequestsOf(v[..i], s, symbol) + [RequestOf(v[i], s, symbol)]
  {
    assert v[..i + 1][..i] == v[..i];
  }

  lemma MixOne(seed: bv64, words: seq<int>, word: int)
    ensures MixAll(seed, words + [word]) == Mix(MixAll(seed, words), word)
  {
    hide Mix;
    assert (words + [word])[..|words|] == words;
  }

  lemma NothingMixed(seed: bv64)
    ensures MixAll(seed, []) == seed
  {
    hide Mix;
  }

  lemma NoWords(v: seq<Resting>)
    ensures WordsOf(v, 0) == []
  {
  }

  /** One order mixed in, its price only if it is the first of its level. */
  lemma MixOrder(seed: bv64, words: seq<int>, v: seq<Resting>, i: nat, k: nat)
    requires k <= i < |v| && forall j :: k <= j < i ==> v[j].price == v[i].price
    requires 0 < k ==> v[k - 1].price != v[k].price
    ensures MixAll(seed, words + WordsOf(v, i + 1)) ==
              Mix(Mix(Mix(MixAll(seed, words + WordsOf(v, i) + if i == k then [v[i].price] else []),
                          v[i].id), v[i].client), v[i].remaining)
  {
    hide Mix, MixAll;
    var start := words + WordsOf(v, i) + if i == k then [v[i].price] else [];
    MixOne(seed, start, v[i].id);
    MixOne(seed, start + [v[i].id], v[i].client);
    MixOne(seed, start + [v[i].id] + [v[i].client], v[i].remaining);
    assert words + WordsOf(v, i + 1) == start + [v[i].id] + [v[i].client] + [v[i].remaining];
  }

  lemma RemovedFirst(b: Book, s: Side)
    requires b.Queue(s) != []
    ensures Removed(b, Place(s, 0)) == b.WithQueue(s, b.Queue(s)[1..])
  {
    assert Without(b.Queue(s), 0) == b.Queue(s)[1..];
  }

  /** One step of the walk. */
  lemma MatchMeets(q: seq<Resting>, taker: OrderRequest, remaining: nat, policy: StpPolicy, sequence: nat)
    requires !Idle(q, taker, remaining)
    ensures var meeting := Meet(q[0], taker, remaining, policy, sequence);
            Match(q, taker, remaining, policy, sequence) ==
              if meeting.Gone? then
                Prepend(meeting.emitted, Match(q[1..], taker, meeting.remaining, policy, sequence + |meeting.emitted|))
              else MatchResult(meeting.left + q[1..], meeting.remaining, meeting.emitted, meeting.takerCancelled)
    ensures var meeting := Meet(q[0], taker, remaining, policy, sequence);
            meeting.Last? && !meeting.takerCancelled ==> meeting.remaining == 0
  {
  }

  lemma DropIsOneShorter(q: seq<nat>, k: nat)
    requires k < |q|
    ensures |Drop(q, k)| == |q| - 1
  {
  }
}
