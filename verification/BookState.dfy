/** The whole representation: both sides and the pool together. `levels`/`mine` belong to side `s`, the
    side being worked on; `others`/`theirs` to the opposite one. A level at price `spared` may be hollow
    while the matching loop is draining it. */
module BookState {
  import opened Options
  import opened Trading
  import opened BookSpec
  import opened BookRep
  import opened BookUnlink
  import opened BookLink
  import opened BookPool

  ghost predicate Rep(
    nodes: seq<Node>, free: seq<nat>, byId: map<nat, nat>, levels: map<int, Level>, mine: seq<nat>,
    others: map<int, Level>, theirs: seq<nat>, s: Side, spared: Option<int>)
  {
    && SideRep(nodes, levels, mine, s)
    && SideRep(nodes, others, theirs, s.Opposite())
    && NoHollow(levels, View(nodes, mine), spared)
    && NoHollow(others, View(nodes, theirs), None)
    && PoolRep(nodes, free, byId, mine, theirs)
  }

  /** A pool of blank nodes, all of them free, represents the empty book. */
  lemma EmptyRep(nodes: seq<Node>, free: seq<nat>)
    requires |free| == |nodes|
    requires forall j :: 0 <= j < |free| ==> free[j] == |nodes| - 1 - j
    requires forall j :: 0 <= j < |nodes| ==> nodes[j] == BLANK
    ensures Rep(nodes, free, map[], map[], [], map[], [], Buy, None)
    ensures View(nodes, []) == []
  {
  }

  lemma RepIsSymmetric(
    nodes: seq<Node>, free: seq<nat>, byId: map<nat, nat>, levels: map<int, Level>, mine: seq<nat>,
    others: map<int, Level>, theirs: seq<nat>, s: Side)
    ensures Rep(nodes, free, byId, levels, mine, others, theirs, s, None)
       <==> Rep(nodes, free, byId, others, theirs, levels, mine, s.Opposite(), None)
  {
    hide SideRep, NoHollow, View, PoolRep;
    PoolIsSymmetric(nodes, free, byId, mine, theirs);
    assert s.Opposite().Opposite() == s;
  }

  lemma RepIsLegible(
    nodes: seq<Node>, free: seq<nat>, byId: map<nat, nat>, levels: map<int, Level>, mine: seq<nat>,
    others: map<int, Level>, theirs: seq<nat>, s: Side, spared: Option<int>)
    requires Rep(nodes, free, byId, levels, mine, others, theirs, s, spared)
    ensures InPool(nodes, mine) && InPool(nodes, theirs)
  {
  }

  lemma NodeIsPlaced(
    nodes: seq<Node>, free: seq<nat>, byId: map<nat, nat>, levels: map<int, Level>, mine: seq<nat>,
    others: map<int, Level>, theirs: seq<nat>, s: Side, k: nat)
    requires Rep(nodes, free, byId, levels, mine, others, theirs, s, None) && k < |mine|
    ensures mine[k] < |nodes| && nodes[mine[k]].side == s && nodes[mine[k]].active
    ensures View(nodes, mine)[k] == RestingOf(nodes[mine[k]])
  {
  }

  // ---------- reading the levels ----------

  /** A level knows its first order, and is hollow exactly when it has none. */
  lemma HeadOfLevel(nodes: seq<Node>, levels: map<int, Level>, q: seq<nat>, s: Side, p: int)
    requires SideRep(nodes, levels, q, s) && p in levels
    ensures levels[p].head.Npos? <==> CountAt(View(nodes, q), p) == 0
    ensures levels[p].head.At? ==>
              exists k :: 0 <= k < |q| && levels[p].head == At(q[k]) && nodes[q[k]].price == p
                          && forall j :: 0 <= j < k ==> nodes[q[j]].price != p
  {
    hide Sorted, Placed, NoDup, View;
    var v := View(nodes, q);
    CountIsZero(v, p);
    if CountAt(v, p) != 0 {
      var k: nat :| k < |q| && v[k].price == p;
      FirstAtPrice(nodes, levels, q, s, k);
    }
  }

  lemma FirstAtPrice(nodes: seq<Node>, levels: map<int, Level>, q: seq<nat>, s: Side, k: nat)
    requires SideRep(nodes, levels, q, s) && k < |q|
    ensures exists j :: 0 <= j <= k && levels[nodes[q[k]].price].head == At(q[j])
                        && nodes[q[j]].price == nodes[q[k]].price
                        && forall i :: 0 <= i < j ==> nodes[q[i]].price != nodes[q[k]].price
    decreases k
  {
    hide Placed, NoDup, Totaled, Sorted, View;
    assert nodes[q[k]].prev == PrevOf(nodes, q, k);
    if nodes[q[k]].prev.At? {
      FirstAtPrice(nodes, levels, q, s, k - 1);
    } else {
      EarlierPricesDiffer(nodes, levels, q, s, k);
    }
  }

  lemma EarlierPricesDiffer(nodes: seq<Node>, levels: map<int, Level>, q: seq<nat>, s: Side, k: nat)
    requires SideRep(nodes, levels, q, s) && k < |q| && nodes[q[k]].prev.Npos?
    ensures forall i :: 0 <= i < k ==> nodes[q[i]].price != nodes[q[k]].price
  {
    hide Placed, NoDup, Totaled, Linked, Headed, View;
    LinkedAt(nodes, q, k);
    var v := View(nodes, q);
    forall i | 0 <= i < k ensures nodes[q[i]].price != nodes[q[k]].price {
      assert v[i] == RestingOf(nodes[q[i]]) && v[k] == RestingOf(nodes[q[k]]) && v[k - 1] == RestingOf(nodes[q[k - 1]]);
      SamePriceIsContiguous(s, v, i, k - 1, k);
    }
  }

  ghost predicate BestKey(s: Side, levels: map<int, Level>, p: int) {
    p in levels && forall x :: x in levels ==> AtLeastAsGood(s, p, x)
  }

  /** The best price of a side without hollow levels is the price of its first order, and leads to it. */
  lemma BestLevelIsFirst(nodes: seq<Node>, levels: map<int, Level>, q: seq<nat>, s: Side)
    requires SideRep(nodes, levels, q, s) && NoHollow(levels, View(nodes, q), None)
    ensures levels == map[] <==> q == []
    ensures q != [] ==> BestKey(s, levels, nodes[q[0]].price) && levels[nodes[q[0]].price].head == At(q[0])
    ensures q != [] ==> forall p :: BestKey(s, levels, p) ==> p == nodes[q[0]].price
  {
    hide Placed, NoDup;
    var v := View(nodes, q);
    if q != [] {
      assert nodes[q[0]].prev == PrevOf(nodes, q, 0);
      assert v[0] == RestingOf(nodes[q[0]]);
      forall x | x in levels ensures AtLeastAsGood(s, v[0].price, x) {
        KeyedPriceOccurs(nodes, levels, q, s, x);
      }
    } else {
      forall x ensures x !in levels {
        if x in levels {
          KeyedPriceOccurs(nodes, levels, q, s, x);
        }
      }
      assert levels == map[];
    }
  }

  // ---------- the three changes ----------

  ghost predicate AtMost(spared: Option<int>, p: int) { spared == None || spared == Some(p) }

  /** The other side and the free list are untouched by relinking on this side. */
  lemma UnlinkedFrame(
    nodes: seq<Node>, free: seq<nat>, byId: map<nat, nat>, levels: map<int, Level>, mine: seq<nat>,
    others: map<int, Level>, theirs: seq<nat>, s: Side, spared: Option<int>, k: nat)
    requires Rep(nodes, free, byId, levels, mine, others, theirs, s, spared) && k < |mine|
    requires mine[k] < |nodes| && Links(nodes, mine[k])
    ensures var r := Unlinked(nodes, mine[k]);
            && r[mine[k]] == BLANK
            && (forall i :: 0 <= i < |nodes| && i != mine[k] ==> r[i].id == nodes[i].id)
            && (forall j :: 0 <= j < |theirs| ==> r[theirs[j]] == nodes[theirs[j]])
            && (forall j :: 0 <= j < |free| ==> r[free[j]] == nodes[free[j]])
  {
    hide View, Totaled, Headed, Sorted, Placed, NoHollow, Unlinked, Linked;
    UnlinkedBlanks(nodes, mine[k]);
    forall i | 0 <= i < |nodes| && i != mine[k] ensures Unlinked(nodes, mine[k])[i].id == nodes[i].id {
      UnlinkedOthers(nodes, levels, mine, s, k, i);
    }
    LinkedAt(nodes, mine, k);
    forall i | 0 <= i < |nodes| && i !in mine ensures Unlinked(nodes, mine[k])[i] == nodes[i] {
      UnlinkedOthers(nodes, levels, mine, s, k, i);
    }
    PoolIndexes(nodes, free, byId, mine, theirs);
    assert forall j :: 0 <= j < |theirs| ==> theirs[j] in theirs;
    assert forall j :: 0 <= j < |free| ==> free[j] in free;
  }

  lemma UnlinkedBlanks(nodes: seq<Node>, i: nat)
    requires i < |nodes| && Links(nodes, i)
    ensures Unlinked(nodes, i)[i] == BLANK
  {
  }

  lemma RemoveKeepsRep(
    nodes: seq<Node>, free: seq<nat>, byId: map<nat, nat>, levels: map<int, Level>, mine: seq<nat>,
    others: map<int, Level>, theirs: seq<nat>, s: Side, spared: Option<int>, k: nat)
    requires Rep(nodes, free, byId, levels, mine, others, theirs, s, spared) && k < |mine|
    requires mine[k] < |nodes| && AtMost(spared, nodes[mine[k]].price)
    ensures Links(nodes, mine[k])
    ensures var i := mine[k];
            var n := nodes[i];
            && n.price in levels && n.remaining <= levels[n.price].total && levels[n.price].count > 0
            && var r := Unlinked(nodes, i);
               && Rep(r, free + [i], byId - {n.id}, levels[n.price := LevelWithout(levels[n.price], n)],
                      Drop(mine, k), others, theirs, s, Some(n.price))
               && View(r, Drop(mine, k)) == Without(View(nodes, mine), k)
               && View(r, theirs) == View(nodes, theirs)
  {
    hide View, SideRep, Unlinked, PoolRep, LevelWithout, Links, Drop;
    var i, n := mine[k], nodes[mine[k]];
    UnlinkKeepsSide(nodes, levels, mine, s, k);
    UnlinkedFrame(nodes, free, byId, levels, mine, others, theirs, s, spared, k);
    var r := Unlinked(nodes, i);
    SideInPool(nodes, others, theirs, s.Opposite());
    SideFrame(nodes, r, others, theirs, s.Opposite());
    ReleaseKeepsPool(nodes, r, free, byId, mine, theirs, k);
    NoHollowWithout(nodes, levels, mine, s, k, spared, LevelWithout(levels[n.price], n));
  }

  lemma SideInPool(nodes: seq<Node>, levels: map<int, Level>, q: seq<nat>, s: Side)
    requires SideRep(nodes, levels, q, s)
    ensures InPool(nodes, q)
  {
  }

  lemma NoHollowWithout(
    nodes: seq<Node>, levels: map<int, Level>, q: seq<nat>, s: Side, k: nat, spared: Option<int>, level: Level)
    requires SideRep(nodes, levels, q, s) && k < |q| && q[k] < |nodes| && AtMost(spared, nodes[q[k]].price)
    requires NoHollow(levels, View(nodes, q), spared)
    ensures var p := nodes[q[k]].price;
            NoHollow(levels[p := level], Without(View(nodes, q), k), Some(p))
  {
    hide Placed, Linked, Headed, Totaled, Sorted;
    var v, price := View(nodes, q), nodes[q[k]].price;
    assert v[k] == RestingOf(nodes[q[k]]);
    forall p | p in levels && p != price ensures CountAt(Without(v, k), p) > 0 {
      RemovedTotals(v, k, p);
    }
  }

  /** A hollow level is erased, an occupied one kept: either way no hollow level is left. */
  lemma SettleLevel(
    nodes: seq<Node>, free: seq<nat>, byId: map<nat, nat>, levels: map<int, Level>, mine: seq<nat>,
    others: map<int, Level>, theirs: seq<nat>, s: Side, p: int)
    requires Rep(nodes, free, byId, levels, mine, others, theirs, s, Some(p)) && p in levels
    ensures var after := if levels[p].head.Npos? then levels - {p} else levels;
            Rep(nodes, free, byId, after, mine, others, theirs, s, None)
  {
    hide PoolRep, SideRep, View;
    SideInPool(nodes, levels, mine, s);
    HeadOfLevel(nodes, levels, mine, s, p);
    if levels[p].head.Npos? {
      EraseKeepsSide(nodes, levels, mine, s, p);
    }
  }

  /** unlink, id erasure and release together: the order is gone and no hollow level stays behind. */
  lemma RemoveFully(
    nodes: seq<Node>, free: seq<nat>, byId: map<nat, nat>, levels: map<int, Level>, mine: seq<nat>,
    others: map<int, Level>, theirs: seq<nat>, s: Side, k: nat)
    requires Rep(nodes, free, byId, levels, mine, others, theirs, s, None) && k < |mine|
    requires mine[k] < |nodes|
    ensures Links(nodes, mine[k])
    ensures var i := mine[k];
            var n := nodes[i];
            && n.side == s && n.price in levels && n.remaining <= levels[n.price].total && levels[n.price].count > 0
            && InPool(nodes, mine) && InPool(nodes, theirs)
            && View(nodes, mine)[k] == RestingOf(n)
            && var r := Unlinked(nodes, i);
               && Rep(r, free + [i], byId - {n.id}, LevelsWithout(levels, n), Drop(mine, k), others, theirs, s, None)
               && InPool(r, Drop(mine, k)) && InPool(r, theirs)
               && View(r, Drop(mine, k)) == Without(View(nodes, mine), k)
               && View(r, theirs) == View(nodes, theirs)
  {
    hide Rep, View, Unlinked, LevelWithout, Drop, Links, Without;
    var i, n := mine[k], nodes[mine[k]];
    NodeIsPlaced(nodes, free, byId, levels, mine, others, theirs, s, k);
    RepIsLegible(nodes, free, byId, levels, mine, others, theirs, s, None);
    RemoveKeepsRep(nodes, free, byId, levels, mine, others, theirs, s, None, k);
    var r, after := Unlinked(nodes, i), levels[n.price := LevelWithout(levels[n.price], n)];
    SettleLevel(r, free + [i], byId - {n.id}, after, Drop(mine, k), others, theirs, s, n.price);
    RepIsLegible(r, free + [i], byId - {n.id}, after, Drop(mine, k), others, theirs, s, Some(n.price));
    assert after - {n.price} == levels - {n.price};
  }

  /** Dropping an exhausted head by hand comes to the same as unlinking it. */
  lemma HeadLeaves(
    nodes: seq<Node>, free: seq<nat>, byId: map<nat, nat>, levels: map<int, Level>, mine: seq<nat>,
    others: map<int, Level>, theirs: seq<nat>, s: Side)
    requires Rep(nodes, free, byId, levels, mine, others, theirs, s, None) && mine != []
    requires mine[0] < |nodes|
    ensures var i := mine[0];
            var n := nodes[i];
            && n.price in levels && n.remaining <= levels[n.price].total && levels[n.price].count > 0
            && (n.next.At? ==> n.next.index < |nodes|) && n.prev.Npos? && Links(nodes, i)
            && var a := Lowered(nodes, i, 0);
               var level := levels[n.price].(total := levels[n.price].total - n.remaining);
               && Unlinked(nodes, i) ==
                    (if n.next.At? then a[n.next.index := a[n.next.index].(prev := Npos)] else a)[i := BLANK]
               && LevelWithout(levels[n.price], n) ==
                    Level(n.next, if n.next.At? then level.tail else Npos, level.total, level.count - 1)
  {
    hide View, PoolRep, Sorted, Totaled, Headed, Placed, NoHollow;
    NeighboursOf(nodes, levels, mine, s, 0);
    LinkedAt(nodes, mine, 0);
  }

  /** The abstract effect of a fill on the front order. */
  ghost function FilledQueue(q: seq<Resting>, fill: nat): seq<Resting>
    requires q != [] && fill <= q[0].remaining
  {
    if fill == q[0].remaining then q[1..] else q[0 := q[0].(remaining := q[0].remaining - fill)]
  }

  /** The pool once `fill` has been taken from `i`, the head of its level: gone if that was all of it. */
  ghost function FilledNodes(nodes: seq<Node>, i: nat, fill: nat): seq<Node>
    requires i < |nodes| && fill <= nodes[i].remaining && (nodes[i].next.At? ==> nodes[i].next.index < |nodes|)
  {
    var n, a := nodes[i], Lowered(nodes, i, nodes[i].remaining - fill);
    if fill < n.remaining then a
    else (if n.next.At? then a[n.next.index := a[n.next.index].(prev := Npos)] else a)[i := BLANK]
  }

  ghost function FilledLevel(level: Level, n: Node, fill: nat): Level
    requires fill <= level.total && level.count > 0
  {
    if fill < n.remaining then level.(total := level.total - fill)
    else Level(n.next, if n.next.At? then level.tail else Npos, level.total - fill, level.count - 1)
  }

  lemma FillKeepsRep(
    nodes: seq<Node>, free: seq<nat>, byId: map<nat, nat>, levels: map<int, Level>, mine: seq<nat>,
    others: map<int, Level>, theirs: seq<nat>, s: Side, fill: nat)
    requires Rep(nodes, free, byId, levels, mine, others, theirs, s, None) && mine != []
    requires mine[0] < |nodes| && fill <= nodes[mine[0]].remaining
    ensures var i := mine[0];
            var n := nodes[i];
            && n.price in levels && n.remaining <= levels[n.price].total && levels[n.price].count > 0
            && (n.next.At? ==> n.next.index < |nodes|)
            && var r, gone := FilledNodes(nodes, i, fill), fill == n.remaining;
               var mine' := if gone then Drop(mine, 0) else mine;
               && Rep(r, if gone then free + [i] else free, if gone then byId - {n.id} else byId,
                      levels[n.price := FilledLevel(levels[n.price], n, fill)], mine', others, theirs, s, Some(n.price))
               && InPool(nodes, mine) && InPool(nodes, theirs) && InPool(r, mine') && InPool(r, theirs)
               && View(r, mine') == FilledQueue(View(nodes, mine), fill)
               && View(r, theirs) == View(nodes, theirs)
  {
    hide Rep, View, Unlinked, LevelWithout, Drop, Lowered, Links;
    NodeIsPlaced(nodes, free, byId, levels, mine, others, theirs, s, 0);
    RepIsLegible(nodes, free, byId, levels, mine, others, theirs, s, None);
    LowerKeepsRep(nodes, free, byId, levels, mine, others, theirs, s, None, 0, nodes[mine[0]].remaining - fill);
    RemoveKeepsRep(nodes, free, byId, levels, mine, others, theirs, s, None, 0);
    HeadLeaves(nodes, free, byId, levels, mine, others, theirs, s);
    var n := nodes[mine[0]];
    var level := levels[n.price];
    if fill < n.remaining {
      var r := Lowered(nodes, mine[0], n.remaining - fill);
      SparingIsWeaker(r, free, byId, levels[n.price := level.(total := level.total - fill)], mine, others, theirs, s,
          n.price);
      RepIsLegible(r, free, byId, levels[n.price := level.(total := level.total - fill)], mine, others, theirs, s,
          None);
    } else {
      var r := Unlinked(nodes, mine[0]);
      RepIsLegible(r, free + [mine[0]], byId - {n.id}, levels[n.price := LevelWithout(level, n)],
                   Drop(mine, 0), others, theirs, s, Some(n.price));
      assert Without(View(nodes, mine), 0) == View(nodes, mine)[1..];
      assert FilledNodes(nodes, mine[0], fill) == r;
    }
  }

  lemma SparingIsWeaker(
    nodes: seq<Node>, free: seq<nat>, byId: map<nat, nat>, levels: map<int, Level>, mine: seq<nat>,
    others: map<int, Level>, theirs: seq<nat>, s: Side, p: int)
    requires Rep(nodes, free, byId, levels, mine, others, theirs, s, None)
    ensures Rep(nodes, free, byId, levels, mine, others, theirs, s, Some(p))
  {
  }

  lemma AppendKeepsRep(
    nodes: seq<Node>, free: seq<nat>, byId: map<nat, nat>, levels: map<int, Level>, mine: seq<nat>,
    others: map<int, Level>, theirs: seq<nat>, s: Side, n: Node)
    requires Rep(nodes, free, byId, levels, mine, others, theirs, s, None) && InPool(nodes, mine)
    requires free != [] && n.id !in byId && n.active && n.side == s
    ensures var i, tail, k := free[|free| - 1], LevelAt(levels, n.price).tail, SpotFor(nodes, mine, s, n);
            && i < |nodes| && (tail.At? ==> tail.index < |nodes| && tail.index != i) && k <= |mine|
            && var r := Appended(nodes, i, n, tail);
               && Rep(r, free[..|free| - 1], byId[n.id := i],
                      levels[n.price := LevelWith(LevelAt(levels, n.price), i, n.remaining)],
                      PlaceIn(mine, k, i), others, theirs, s, None)
               && View(r, PlaceIn(mine, k, i)) == Insert(s, View(nodes, mine), RestingOf(n))
               && View(r, theirs) == View(nodes, theirs)
  {
    hide View, SideRep, Appended, PoolRep, LevelWith, LevelAt, PlaceIn, NoHollow, SpotFor, Insert;
    var i := free[|free| - 1];
    LastFreeIsLoose(nodes, free, byId, mine, theirs);
    assert CanAppend(nodes, levels, mine, s, i, n);
    AppendKeepsSide(nodes, levels, mine, s, i, n);
    AppendedFrame(nodes, free, byId, levels, mine, others, theirs, s, n);
    var r := Appended(nodes, i, n, LevelAt(levels, n.price).tail);
    SideInPool(nodes, others, theirs, s.Opposite());
    SideFrame(nodes, r, others, theirs, s.Opposite());
    TakeKeepsPool(nodes, r, free, byId, mine, theirs, SpotFor(nodes, mine, s, n), n.id);
  }

  lemma AppendFully(
    nodes: seq<Node>, free: seq<nat>, byId: map<nat, nat>, levels: map<int, Level>, mine: seq<nat>,
    others: map<int, Level>, theirs: seq<nat>, s: Side, n: Node)
    requires Rep(nodes, free, byId, levels, mine, others, theirs, s, None) && InPool(nodes, mine)
    requires InPool(nodes, theirs)
    requires free != [] && n.id !in byId && n.active && n.side == s
    ensures var i, tail, k := free[|free| - 1], LevelAt(levels, n.price).tail, SpotFor(nodes, mine, s, n);
            && i < |nodes| && (tail.At? ==> tail.index < |nodes| && tail.index != i) && k <= |mine|
            && var r, after := Appended(nodes, i, n, tail), PlaceIn(mine, k, i);
               && Rep(r, free[..|free| - 1], byId[n.id := i],
                      levels[n.price := LevelWith(LevelAt(levels, n.price), i, n.remaining)], after, others, theirs, s,
                          None)
               && |after| == |mine| + 1 && InPool(r, after) && InPool(r, theirs)
               && View(r, after) == Insert(s, View(nodes, mine), RestingOf(n))
               && View(r, theirs) == View(nodes, theirs)
  {
    hide Rep, View, Appended, LevelWith, LevelAt, PlaceIn, SpotFor, Insert;
    AppendKeepsRep(nodes, free, byId, levels, mine, others, theirs, s, n);
    var i, k := free[|free| - 1], SpotFor(nodes, mine, s, n);
    PlaceInAt(mine, k, i, 0);
    RepIsLegible(Appended(nodes, i, n, LevelAt(levels, n.price).tail), free[..|free| - 1], byId[n.id := i],
                 levels[n.price := LevelWith(LevelAt(levels, n.price), i, n.remaining)], PlaceIn(mine, k, i),
                 others, theirs, s, None);
  }

  lemma LastFreeIsLoose(nodes: seq<Node>, free: seq<nat>, byId: map<nat, nat>, mine: seq<nat>, theirs: seq<nat>)
    requires PoolRep(nodes, free, byId, mine, theirs) && free != []
    ensures var i := free[|free| - 1]; i < |nodes| && i !in mine && i !in theirs && i !in free[..|free| - 1]
  {
    assert free[|free| - 1] in free;
    PoolIndexes(nodes, free, byId, mine, theirs);
  }

  lemma AppendedFrame(
    nodes: seq<Node>, free: seq<nat>, byId: map<nat, nat>, levels: map<int, Level>, mine: seq<nat>,
    others: map<int, Level>, theirs: seq<nat>, s: Side, n: Node)
    requires Rep(nodes, free, byId, levels, mine, others, theirs, s, None) && free != []
    requires CanAppend(nodes, levels, mine, s, free[|free| - 1], n)
    requires var tail := LevelAt(levels, n.price).tail; tail.At? ==> tail.index < |nodes|
    ensures var i := free[|free| - 1];
            var r := Appended(nodes, i, n, LevelAt(levels, n.price).tail);
            && r[i].id == n.id
            && (forall x :: 0 <= x < |nodes| && x != i ==> r[x].id == nodes[x].id)
            && (forall j :: 0 <= j < |theirs| ==> r[theirs[j]] == nodes[theirs[j]])
            && (forall j :: 0 <= j < |free| - 1 ==> r[free[j]] == nodes[free[j]])
  {
    hide View, SideRep, NoHollow, SpotFor, LevelAt;
    var i := free[|free| - 1];
    LastFreeIsLoose(nodes, free, byId, mine, theirs);
    AppendedSelf(nodes, levels, mine, s, i, n);
    TailIsMine(nodes, levels, mine, s, i, n);
    PoolIndexes(nodes, free, byId, mine, theirs);
    assert forall j :: 0 <= j < |theirs| ==> theirs[j] in theirs;
    assert forall j :: 0 <= j < |free| - 1 ==> free[j] in free && free[j] in free[..|free| - 1];
  }

  lemma TailIsMine(nodes: seq<Node>, levels: map<int, Level>, mine: seq<nat>, s: Side, i: nat, n: Node)
    requires CanAppend(nodes, levels, mine, s, i, n)
    ensures var tail := LevelAt(levels, n.price).tail; tail.At? ==> tail.index in mine
  {
    hide SideRep, NoHollow, LevelAt;
    SideInPool(nodes, levels, mine, s);
    TailIsBeforeSpot(nodes, levels, mine, s, i, n);
  }

  lemma LowerKeepsRep(
    nodes: seq<Node>, free: seq<nat>, byId: map<nat, nat>, levels: map<int, Level>, mine: seq<nat>,
    others: map<int, Level>, theirs: seq<nat>, s: Side, spared: Option<int>, k: nat, left: nat)
    requires Rep(nodes, free, byId, levels, mine, others, theirs, s, spared) && k < |mine|
    requires mine[k] < |nodes| && left <= nodes[mine[k]].remaining
    ensures var i := mine[k];
            var n := nodes[i];
            && n.price in levels && n.remaining - left <= levels[n.price].total
            && var r := Lowered(nodes, i, left);
               var level := levels[n.price].(total := levels[n.price].total - (n.remaining - left));
               && Rep(r, free, byId, levels[n.price := level], mine, others, theirs, s, spared)
               && View(r, mine) == View(nodes, mine)[k := View(nodes, mine)[k].(remaining := left)]
               && View(r, theirs) == View(nodes, theirs)
  {
    hide View, SideRep, PoolRep, NoHollow;
    var r := Lowered(nodes, mine[k], left);
    SideInPool(nodes, levels, mine, s);
    SideInPool(nodes, others, theirs, s.Opposite());
    LowerKeepsSide(nodes, levels, mine, s, k, left);
    PoolIndexes(nodes, free, byId, mine, theirs);
    assert mine[k] in mine;
    assert forall j :: 0 <= j < |theirs| ==> theirs[j] in theirs && theirs[j] != mine[k];
    assert forall j :: 0 <= j < |free| ==> free[j] in free && free[j] != mine[k];
    SideFrame(nodes, r, others, theirs, s.Opposite());
    LowerKeepsPool(nodes, r, free, byId, mine, theirs) by { LoweredFrame(nodes, free, byId, mine, theirs, k, left); }
  }

  lemma LoweredFrame(
    nodes: seq<Node>, free: seq<nat>, byId: map<nat, nat>, mine: seq<nat>, theirs: seq<nat>, k: nat, left: nat)
    requires PoolRep(nodes, free, byId, mine, theirs) && k < |mine|
    ensures var r := Lowered(nodes, mine[k], left);
            && (forall x :: 0 <= x < |nodes| ==> r[x].id == nodes[x].id)
            && (forall j :: 0 <= j < |free| ==> free[j] < |nodes| && r[free[j]] == nodes[free[j]])
  {
  }
}
