/** Putting a node at the end of its price level (rest), and reducing a node where it stands. */
module BookLink {
  import opened Options
  import opened Trading
  import opened BookSpec
  import opened BookRep

  function LevelAt(levels: map<int, Level>, p: int): Level { if p in levels then levels[p] else NEW_LEVEL }

  /** The pool once `n` has been written at `i` and hooked behind `tail`. */
  ghost function Appended(nodes: seq<Node>, i: nat, n: Node, tail: Link): (r: seq<Node>)
    requires i < |nodes| && (tail.At? ==> tail.index < |nodes|)
    ensures |r| == |nodes|
  {
    var a := nodes[i := n.(prev := tail, next := Npos)];
    if tail.At? then a[tail.index := a[tail.index].(next := At(i))] else a
  }

  ghost function LevelWith(level: Level, i: nat, remaining: nat): Level {
    Level(if level.tail.At? then level.head else At(i), At(i), level.total + remaining, level.count + 1)
  }

  function PlaceIn(q: seq<nat>, k: nat, i: nat): seq<nat>
    requires k <= |q|
  {
    q[..k] + [i] + q[k..]
  }

  ghost predicate CanAppend(nodes: seq<Node>, levels: map<int, Level>, q: seq<nat>, s: Side, i: nat, n: Node) {
    && SideRep(nodes, levels, q, s) && NoHollow(levels, View(nodes, q), None)
    && i < |nodes| && i !in q && n.active && n.side == s
  }

  ghost function SpotFor(nodes: seq<Node>, q: seq<nat>, s: Side, n: Node): nat
    requires InPool(nodes, q)
  {
    InsertionPoint(s, View(nodes, q), n.price)
  }

  /** Orders at price `p`, if there are any, end just before the insertion point. */
  lemma PriceEndsAtSpot(s: Side, v: seq<Resting>, p: int)
    requires Sorted(s, v)
    ensures var k := InsertionPoint(s, v, p);
            && (k < |v| ==> v[k].price != p)
            && (0 < k < |v| ==> v[k - 1].price != v[k].price)
            && ((exists j :: 0 <= j < |v| && v[j].price == p) ==> k > 0 && v[k - 1].price == p)
  {
    var k := InsertionPoint(s, v, p);
    if j :| 0 <= j < |v| && v[j].price == p {
      assert j < k;
      assert j < k - 1 ==> AtLeastAsGood(s, v[j].price, v[k - 1].price);
    }
  }

  /** The tail of the level, if there is one, is the order just before the insertion point. */
  lemma TailIsBeforeSpot(nodes: seq<Node>, levels: map<int, Level>, q: seq<nat>, s: Side, i: nat, n: Node)
    requires CanAppend(nodes, levels, q, s, i, n)
    ensures var k := SpotFor(nodes, q, s, n);
            && k <= |q|
            && LevelAt(levels, n.price).tail ==
                 (if k > 0 && nodes[q[k - 1]].price == n.price then At(q[k - 1]) else Npos)
            && (k < |q| ==> nodes[q[k]].price != n.price)
            && (0 < k < |q| ==> nodes[q[k - 1]].price != nodes[q[k]].price)
            && (n.price in levels ==> LevelAt(levels, n.price).tail.At?)
            && (n.price !in levels ==> forall j :: 0 <= j < |q| ==> nodes[q[j]].price != n.price)
  {
    hide Placed, Linked, Headed, Totaled, NoHollow, InsertionPoint, View;
    var v, k := View(nodes, q), SpotFor(nodes, q, s, n);
    PriceEndsAtSpot(s, v, n.price);
    if n.price in levels {
      KeyedPriceOccurs(nodes, levels, q, s, n.price);
      assert v[k - 1] == RestingOf(nodes[q[k - 1]]);
      LastOfPrice(nodes, levels, q, s, k - 1);
    } else {
      UnkeyedPriceDoesNot(nodes, levels, q, n.price);
    }
  }

  lemma KeyedPriceOccurs(nodes: seq<Node>, levels: map<int, Level>, q: seq<nat>, s: Side, p: int)
    requires SideRep(nodes, levels, q, s) && NoHollow(levels, View(nodes, q), None) && p in levels
    ensures exists j :: 0 <= j < |q| && View(nodes, q)[j].price == p
  {
    CountIsZero(View(nodes, q), p);
  }

  lemma UnkeyedPriceDoesNot(nodes: seq<Node>, levels: map<int, Level>, q: seq<nat>, p: int)
    requires InPool(nodes, q) && Headed(nodes, levels, q) && p !in levels
    ensures forall j :: 0 <= j < |q| ==> nodes[q[j]].price != p
  {
  }

  lemma LastOfPrice(nodes: seq<Node>, levels: map<int, Level>, q: seq<nat>, s: Side, k: nat)
    requires SideRep(nodes, levels, q, s) && k < |q|
    requires k + 1 < |q| ==> nodes[q[k]].price != nodes[q[k + 1]].price
    ensures nodes[q[k]].price in levels && levels[nodes[q[k]].price].tail == At(q[k])
  {
    assert nodes[q[k]].next == NextOf(nodes, q, k);
  }

  lemma AppendedAt(nodes: seq<Node>, levels: map<int, Level>, q: seq<nat>, s: Side, i: nat, n: Node, j: nat)
    requires CanAppend(nodes, levels, q, s, i, n) && j < |q|
    requires var tail := LevelAt(levels, n.price).tail; tail.At? ==> tail.index < |nodes|
    ensures var r, k := Appended(nodes, i, n, LevelAt(levels, n.price).tail), SpotFor(nodes, q, s, n);
            && r[q[j]] == nodes[q[j]].(
                 next := if j + 1 == k && nodes[q[j]].price == n.price then At(i) else nodes[q[j]].next)
            && r[i] == n.(prev := LevelAt(levels, n.price).tail, next := Npos)
  {
    hide View, SpotFor, Totaled, Linked, Headed, Sorted, NoHollow, LevelAt;
    TailIsBeforeSpot(nodes, levels, q, s, i, n);
  }

  lemma AppendedSelf(nodes: seq<Node>, levels: map<int, Level>, q: seq<nat>, s: Side, i: nat, n: Node)
    requires CanAppend(nodes, levels, q, s, i, n)
    ensures var tail := LevelAt(levels, n.price).tail;
            (tail.At? ==> tail.index < |nodes| && tail.index != i)
            && Appended(nodes, i, n, tail)[i] == n.(prev := tail, next := Npos)
            && n.active && n.side == s
  {
    hide View, SpotFor, Totaled, Linked, Headed, Sorted, NoHollow, LevelAt;
    TailIsBeforeSpot(nodes, levels, q, s, i, n);
  }

  lemma PlaceInIndices(q: seq<nat>, k: nat, i: nat)
    requires k <= |q| && i !in q && NoDup(q)
    ensures |PlaceIn(q, k, i)| == |q| + 1 && NoDup(PlaceIn(q, k, i))
    ensures forall j :: 0 <= j <= |q| ==>
              PlaceIn(q, k, i)[j] == if j < k then q[j] else if j == k then i else q[j - 1]
  {
  }

  lemma PlaceInAt(q: seq<nat>, k: nat, i: nat, j: nat)
    requires k <= |q| && j <= |q|
    ensures |PlaceIn(q, k, i)| == |q| + 1
    ensures PlaceIn(q, k, i)[j] == if j < k then q[j] else if j == k then i else q[j - 1]
  {
  }

  lemma InsertAt(s: Side, v: seq<Resting>, o: Resting, j: nat)
    requires j <= |v|
    ensures |Insert(s, v, o)| == |v| + 1
    ensures var k := InsertionPoint(s, v, o.price);
            Insert(s, v, o)[j] == if j < k then v[j] else if j == k then o else v[j - 1]
  {
  }

  lemma InsertedView(nodes: seq<Node>, q: seq<nat>, s: Side, i: nat, n: Node, r: seq<Node>)
    requires InPool(nodes, q) && |r| == |nodes| && i < |nodes| && i !in q && NoDup(q)
    requires forall j :: 0 <= j < |q| ==> RestingOf(r[q[j]]) == RestingOf(nodes[q[j]])
    requires RestingOf(r[i]) == RestingOf(n)
    ensures var k := SpotFor(nodes, q, s, n);
            && k <= |q| && InPool(r, PlaceIn(q, k, i))
            && View(r, PlaceIn(q, k, i)) == Insert(s, View(nodes, q), RestingOf(n))
  {
    hide PlaceIn, RestingOf, View, Insert, InsertionPoint;
    var v, o, k := View(nodes, q), RestingOf(n), SpotFor(nodes, q, s, n);
    assert o.price == n.price by { RestingFields(n); }
    var q', w := PlaceIn(q, k, i), Insert(s, v, o);
    PlaceInAt(q, k, i, 0);
    InsertAt(s, v, o, 0);
    forall j | 0 <= j < |q'| ensures q'[j] < |r| && RestingOf(r[q'[j]]) == w[j] {
      PlaceInAt(q, k, i, j);
      InsertAt(s, v, o, j);
    }
    assert View(r, q') == w;
  }

  lemma LinksAreInvisible(n: Node, prev: Link, next: Link)
    ensures RestingOf(n.(prev := prev, next := next)) == RestingOf(n)
  {
  }

  lemma RestingFields(n: Node)
    ensures RestingOf(n).price == n.price && RestingOf(n).remaining == n.remaining
  {
  }

  lemma AppendedView(nodes: seq<Node>, levels: map<int, Level>, q: seq<nat>, s: Side, i: nat, n: Node)
    requires CanAppend(nodes, levels, q, s, i, n)
    requires var tail := LevelAt(levels, n.price).tail; tail.At? ==> tail.index < |nodes|
    ensures var k := SpotFor(nodes, q, s, n);
            && k <= |q|
            && var r, q' := Appended(nodes, i, n, LevelAt(levels, n.price).tail), PlaceIn(q, k, i);
               && InPool(r, q') && NoDup(q') && Placed(r, q', s)
               && View(r, q') == Insert(s, View(nodes, q), RestingOf(n))
  {
    hide Appended, CanAppend, LevelAt, PlaceIn, View, Insert, SpotFor, RestingOf;
    CanAppendFacts(nodes, levels, q, s, i, n);
    var r := Appended(nodes, i, n, LevelAt(levels, n.price).tail);
    AppendedSelf(nodes, levels, q, s, i, n);
    forall j | 0 <= j < |q|
      ensures RestingOf(r[q[j]]) == RestingOf(nodes[q[j]]) && r[q[j]].active && r[q[j]].side == s
    {
      OnlyNextChanges(nodes, levels, q, s, i, n, j);
    }
    LinksAreInvisible(n, LevelAt(levels, n.price).tail, Npos);
    InsertedView(nodes, q, s, i, n, r);
    var k := SpotFor(nodes, q, s, n);
    PlaceInIndices(q, k, i);
    var q' := PlaceIn(q, k, i);
    forall j | 0 <= j < |q'| ensures r[q'[j]].active && r[q'[j]].side == s {
      PlaceInAt(q, k, i, j);
    }
  }

  lemma AppendedLinksAt(nodes: seq<Node>, levels: map<int, Level>, q: seq<nat>, s: Side, i: nat, n: Node, j: nat)
    requires CanAppend(nodes, levels, q, s, i, n) && j < |q|
    requires var tail := LevelAt(levels, n.price).tail; tail.At? ==> tail.index < |nodes|
    ensures var r, k := Appended(nodes, i, n, LevelAt(levels, n.price).tail), SpotFor(nodes, q, s, n);
            && r[q[j]].prev ==
                 (if j != k && j > 0 && nodes[q[j - 1]].price == nodes[q[j]].price then At(q[j - 1]) else Npos)
            && r[q[j]].next == (if j + 1 == k then (if nodes[q[j]].price == n.price then At(i) else Npos)
                                else if j + 1 < |q| && nodes[q[j + 1]].price == nodes[q[j]].price then At(q[j + 1])
                                       else Npos)
  {
    hide Appended, Totaled, Headed, Sorted, NoHollow, LevelAt, SpotFor, View, Placed;
    TailIsBeforeSpot(nodes, levels, q, s, i, n);
    AppendedAt(nodes, levels, q, s, i, n, j);
    assert nodes[q[j]].prev == PrevOf(nodes, q, j) && nodes[q[j]].next == NextOf(nodes, q, j);
  }

  /** Links that are right at every old position and at the new one are right throughout. */
  lemma AppendedLinks(nodes: seq<Node>, levels: map<int, Level>, q: seq<nat>, s: Side, i: nat, n: Node)
    requires CanAppend(nodes, levels, q, s, i, n)
    requires var tail := LevelAt(levels, n.price).tail; tail.At? ==> tail.index < |nodes|
    requires SpotFor(nodes, q, s, n) <= |q|
    requires InPool(Appended(nodes, i, n, LevelAt(levels, n.price).tail), PlaceIn(q, SpotFor(nodes, q, s, n), i))
    ensures Linked(Appended(nodes, i, n, LevelAt(levels, n.price).tail), PlaceIn(q, SpotFor(nodes, q, s, n), i))
  {
    hide Appended, CanAppend, LevelAt, SpotFor, View, PlaceIn;
    CanAppendFacts(nodes, levels, q, s, i, n);
    var r, k := Appended(nodes, i, n, LevelAt(levels, n.price).tail), SpotFor(nodes, q, s, n);
    var q' := PlaceIn(q, k, i);
    PlaceInIndices(q, k, i);
    AppendedSelf(nodes, levels, q, s, i, n);
    TailIsBeforeSpot(nodes, levels, q, s, i, n);
    AppendedPrices(nodes, levels, q, s, i, n);
    forall j | 0 <= j < |q'| ensures r[q'[j]].prev == PrevOf(r, q', j) && r[q'[j]].next == NextOf(r, q', j) {
      if j != k {
        AppendedLinksAt(nodes, levels, q, s, i, n, if j < k then j else j - 1);
        PlaceInAt(q, k, i, j);
      } else {
        assert q'[j] == i;
      }
      if j > 0 { PlaceInAt(q, k, i, j - 1); }
      if j < |q| { PlaceInAt(q, k, i, j + 1); }
      assert j > 0 ==> q'[j - 1] == if j <= k then q[j - 1] else if j - 1 == k then i else q[j - 2];
      assert j < |q| ==> q'[j + 1] == if j + 1 < k then q[j + 1] else if j + 1 == k then i else q[j];
    }
  }

  /** Nothing an observer of the queue can see of an old node changes. */
  lemma OnlyNextChanges(nodes: seq<Node>, levels: map<int, Level>, q: seq<nat>, s: Side, i: nat, n: Node, j: nat)
    requires CanAppend(nodes, levels, q, s, i, n) && j < |q|
    requires var tail := LevelAt(levels, n.price).tail; tail.At? ==> tail.index < |nodes|
    ensures var r := Appended(nodes, i, n, LevelAt(levels, n.price).tail);
            && RestingOf(r[q[j]]) == RestingOf(nodes[q[j]]) && r[q[j]].active && r[q[j]].side == s
            && RestingOf(r[i]) == RestingOf(n) && r[i].active && r[i].side == s
  {
    hide Appended, LevelAt, View, Linked, Headed, Sorted, Totaled, NoHollow, SpotFor;
    AppendedAt(nodes, levels, q, s, i, n, j);
  }

  lemma CanAppendFacts(nodes: seq<Node>, levels: map<int, Level>, q: seq<nat>, s: Side, i: nat, n: Node)
    requires CanAppend(nodes, levels, q, s, i, n)
    ensures InPool(nodes, q) && NoDup(q) && i !in q && i < |nodes|
  {
  }

  lemma AppendedPrices(nodes: seq<Node>, levels: map<int, Level>, q: seq<nat>, s: Side, i: nat, n: Node)
    requires CanAppend(nodes, levels, q, s, i, n)
    requires var tail := LevelAt(levels, n.price).tail; tail.At? ==> tail.index < |nodes|
    ensures var r := Appended(nodes, i, n, LevelAt(levels, n.price).tail);
            r[i].price == n.price && forall j :: 0 <= j < |q| ==> r[q[j]].price == nodes[q[j]].price
  {
    hide Appended, LevelAt, SpotFor, View, Linked, Headed, Sorted, Totaled, Placed, NoHollow;
    AppendedSelf(nodes, levels, q, s, i, n);
    forall j | 0 <= j < |q|
      ensures Appended(nodes, i, n, LevelAt(levels, n.price).tail)[q[j]].price == nodes[q[j]].price
    {
      AppendedAt(nodes, levels, q, s, i, n, j);
    }
  }

  lemma AppendedHeadsAt(nodes: seq<Node>, levels: map<int, Level>, q: seq<nat>, s: Side, i: nat, n: Node, j: nat)
    requires CanAppend(nodes, levels, q, s, i, n) && j < |q|
    requires var tail := LevelAt(levels, n.price).tail; tail.At? ==> tail.index < |nodes|
    ensures var m := Appended(nodes, i, n, LevelAt(levels, n.price).tail)[q[j]];
            var after := levels[n.price := LevelWith(LevelAt(levels, n.price), i, n.remaining)];
            && m.price in after
            && (m.prev.Npos? ==> after[m.price].head == At(q[j]))
            && (m.next.Npos? ==> after[m.price].tail == At(q[j]))
  {
    hide Appended, Totaled, Sorted, NoHollow, SpotFor, View, Placed, Linked;
    TailIsBeforeSpot(nodes, levels, q, s, i, n);
    AppendedAt(nodes, levels, q, s, i, n, j);
    assert nodes[q[j]].price in levels;
  }

  lemma AppendedHeads(nodes: seq<Node>, levels: map<int, Level>, q: seq<nat>, s: Side, i: nat, n: Node)
    requires CanAppend(nodes, levels, q, s, i, n)
    requires var tail := LevelAt(levels, n.price).tail; tail.At? ==> tail.index < |nodes|
    requires SpotFor(nodes, q, s, n) <= |q|
    requires InPool(Appended(nodes, i, n, LevelAt(levels, n.price).tail), PlaceIn(q, SpotFor(nodes, q, s, n), i))
    ensures Headed(Appended(nodes, i, n, LevelAt(levels, n.price).tail),
                   levels[n.price := LevelWith(LevelAt(levels, n.price), i, n.remaining)],
                   PlaceIn(q, SpotFor(nodes, q, s, n), i))
  {
    hide Appended, CanAppend, PlaceIn, SpotFor, View, LevelAt;
    CanAppendFacts(nodes, levels, q, s, i, n);
    var k := SpotFor(nodes, q, s, n);
    var r, q' := Appended(nodes, i, n, LevelAt(levels, n.price).tail), PlaceIn(q, k, i);
    var after := levels[n.price := LevelWith(LevelAt(levels, n.price), i, n.remaining)];
    PlaceInIndices(q, k, i);
    AppendedSelf(nodes, levels, q, s, i, n);
    forall j | 0 <= j < |q'|
      ensures r[q'[j]].price in after
      ensures r[q'[j]].prev.Npos? ==> after[r[q'[j]].price].head == At(q'[j])
      ensures r[q'[j]].next.Npos? ==> after[r[q'[j]].price].tail == At(q'[j])
    {
      PlaceInAt(q, k, i, j);
      if j != k {
        AppendedHeadsAt(nodes, levels, q, s, i, n, if j < k then j else j - 1);
      } else {
        assert q'[j] == i;
      }
    }
  }

  lemma AppendedTotals(levels: map<int, Level>, v: seq<Resting>, s: Side, i: nat, o: Resting)
    requires Totaled(levels, v)
    requires o.price !in levels ==> forall j :: 0 <= j < |v| ==> v[j].price != o.price
    ensures Totaled(levels[o.price := LevelWith(LevelAt(levels, o.price), i, o.remaining)], Insert(s, v, o))
  {
    var k := InsertionPoint(s, v, o.price);
    forall p ensures TotalAt(Insert(s, v, o), p) == TotalAt(v, p) + (if o.price == p then o.remaining else 0)
             ensures CountAt(Insert(s, v, o), p) == CountAt(v, p) + (if o.price == p then 1 else 0)
    {
      InsertedTotals(v, k, o, p);
    }
    if o.price !in levels {
      CountIsZero(v, o.price);
      NoneToTotal(v, o.price);
    }
  }

  lemma {:induction false} NoneToTotal(v: seq<Resting>, p: int)
    requires forall k :: 0 <= k < |v| ==> v[k].price != p
    ensures TotalAt(v, p) == 0
  {
    if v != [] {
      NoneToTotal(v[1..], p);
    }
  }

  lemma SortedInsert(s: Side, v: seq<Resting>, o: Resting)
    requires Sorted(s, v)
    ensures Sorted(s, Insert(s, v, o))
  {
    var k := InsertionPoint(s, v, o.price);
    var w := Insert(s, v, o);
    forall a, b | 0 <= a < b < |w| ensures AtLeastAsGood(s, w[a].price, w[b].price) {
      assert w[a] == (if a < k then v[a] else if a == k then o else v[a - 1]);
      assert w[b] == (if b < k then v[b] else if b == k then o else v[b - 1]);
      if k < |v| && k < b {
        assert k < b - 1 ==> AtLeastAsGood(s, v[k].price, v[b - 1].price);
      }
    }
  }

  lemma NoHollowInsert(levels: map<int, Level>, v: seq<Resting>, s: Side, o: Resting, level: Level)
    requires NoHollow(levels, v, None)
    ensures NoHollow(levels[o.price := level], Insert(s, v, o), None)
  {
    var k := InsertionPoint(s, v, o.price);
    forall p | p in levels || p == o.price ensures CountAt(Insert(s, v, o), p) > 0 {
      InsertedTotals(v, k, o, p);
    }
  }

  /** rest: the new order goes to the end of its price, which is where price-time priority puts it. */
  lemma AppendKeepsSide(nodes: seq<Node>, levels: map<int, Level>, q: seq<nat>, s: Side, i: nat, n: Node)
    requires CanAppend(nodes, levels, q, s, i, n)
    ensures var tail, k := LevelAt(levels, n.price).tail, SpotFor(nodes, q, s, n);
            && (tail.At? ==> tail.index < |nodes| && tail.index != i)
            && k <= |q|
            && var r, q' := Appended(nodes, i, n, tail), PlaceIn(q, k, i);
               var after := levels[n.price := LevelWith(LevelAt(levels, n.price), i, n.remaining)];
               && SideRep(r, after, q', s)
               && View(r, q') == Insert(s, View(nodes, q), RestingOf(n))
               && NoHollow(after, View(r, q'), None)
  {
    hide Appended, Totaled, Sorted, NoHollow, PlaceIn, SpotFor, View, Placed, Insert, LevelAt, LevelWith;
    AppendedSelf(nodes, levels, q, s, i, n);
    AppendedView(nodes, levels, q, s, i, n);
    var k := SpotFor(nodes, q, s, n);
    var r, q' := Appended(nodes, i, n, LevelAt(levels, n.price).tail), PlaceIn(q, k, i);
    PlaceInIndices(q, k, i);
    TailIsBeforeSpot(nodes, levels, q, s, i, n);
    AppendedLinks(nodes, levels, q, s, i, n);
    var after := levels[n.price := LevelWith(LevelAt(levels, n.price), i, n.remaining)];
    AppendedHeads(nodes, levels, q, s, i, n);
    assert forall j :: 0 <= j < |q| ==> View(nodes, q)[j].price == nodes[q[j]].price;
    AppendedTotals(levels, View(nodes, q), s, i, RestingOf(n));
    SortedInsert(s, View(nodes, q), RestingOf(n));
    NoHollowInsert(levels, View(nodes, q), s, RestingOf(n), after[n.price]);
  }

  // ---------- reducing in place ----------

  ghost function Lowered(nodes: seq<Node>, i: nat, left: nat): seq<Node>
    requires i < |nodes|
  {
    nodes[i := nodes[i].(remaining := left)]
  }

  lemma LowerKeepsSide(nodes: seq<Node>, levels: map<int, Level>, q: seq<nat>, s: Side, k: nat, left: nat)
    requires SideRep(nodes, levels, q, s) && k < |q| && left <= nodes[q[k]].remaining
    ensures var p := nodes[q[k]].price;
            && p in levels && nodes[q[k]].remaining - left <= levels[p].total
            && var r := Lowered(nodes, q[k], left);
               var after := levels[p := levels[p].(total := levels[p].total - (nodes[q[k]].remaining - left))];
               && SideRep(r, after, q, s)
               && View(r, q) == View(nodes, q)[k := View(nodes, q)[k].(remaining := left)]
               && (forall spared :: NoHollow(levels, View(nodes, q), spared) ==> NoHollow(after, View(r, q), spared))
  {
    hide Linked, Headed, Placed, Totaled, Sorted, NoHollow;
    var v, r, p := View(nodes, q), Lowered(nodes, q[k], left), nodes[q[k]].price;
    assert p in levels by { LoweredLevel(nodes, levels, q, s, k); }
    assert InPool(r, q);
    var w := v[k := v[k].(remaining := left)];
    assert View(r, q) == w;
    LoweredTotals(levels, v, k, left);
    LoweredLinks(nodes, levels, q, s, k, left);
    LoweredOrder(s, v, k, left);
  }

  lemma LoweredLevel(nodes: seq<Node>, levels: map<int, Level>, q: seq<nat>, s: Side, k: nat)
    requires SideRep(nodes, levels, q, s) && k < |q|
    ensures nodes[q[k]].price in levels
  {
  }

  lemma LoweredLinks(nodes: seq<Node>, levels: map<int, Level>, q: seq<nat>, s: Side, k: nat, left: nat)
    requires SideRep(nodes, levels, q, s) && k < |q| && nodes[q[k]].price in levels
    ensures var r, p := Lowered(nodes, q[k], left), nodes[q[k]].price;
            && InPool(r, q) && Linked(r, q) && Placed(r, q, s)
            && forall total :: Headed(r, levels[p := levels[p].(total := total)], q)
  {
    hide View, Totaled, Sorted, Headed, Placed;
    var r := Lowered(nodes, q[k], left);
    forall j | 0 <= j < |q| ensures PrevOf(r, q, j) == PrevOf(nodes, q, j) && NextOf(r, q, j) == NextOf(nodes, q, j) {
    }
    LoweredHeads(nodes, levels, q, s, k, left);
  }

  lemma LoweredHeads(nodes: seq<Node>, levels: map<int, Level>, q: seq<nat>, s: Side, k: nat, left: nat)
    requires SideRep(nodes, levels, q, s) && k < |q| && nodes[q[k]].price in levels
    ensures var r, p := Lowered(nodes, q[k], left), nodes[q[k]].price;
            && InPool(r, q) && Placed(r, q, s)
            && forall total :: Headed(r, levels[p := levels[p].(total := total)], q)
  {
    hide View, Totaled, Sorted, Linked;
  }

  lemma LoweredTotals(levels: map<int, Level>, v: seq<Resting>, k: nat, left: nat)
    requires Totaled(levels, v) && k < |v| && left <= v[k].remaining && v[k].price in levels
    ensures var p := v[k].price;
            && v[k].remaining - left <= levels[p].total
            && var w := v[k := v[k].(remaining := left)];
               var after := levels[p := levels[p].(total := levels[p].total - (v[k].remaining - left))];
               && Totaled(after, w)
               && forall spared :: NoHollow(levels, v, spared) ==> NoHollow(after, w, spared)
  {
    var o := v[k].(remaining := left);
    forall p ensures CountAt(v[k := o], p) == CountAt(v, p)
             ensures TotalAt(v[k := o], p) + (if o.price == p then v[k].remaining else 0)
                  == TotalAt(v, p) + if o.price == p then left else 0
    {
      ReplacedTotals(v, k, o, p);
    }
    CountIsZero(v, v[k].price);
  }

  lemma LoweredOrder(s: Side, v: seq<Resting>, k: nat, left: nat)
    requires Sorted(s, v) && k < |v|
    ensures Sorted(s, v[k := v[k].(remaining := left)])
  {
  }
}
