/** The OMS store: three tables keyed by id, written through the mutation callback, and the way back from them
    to a ledger. Written after every mutation, the tables are always the ledger's image, and loading them
    rebuilds that ledger exactly. */
module OmsStorage {
  import opened Ordered
  import opened OmsSpec
  import opened OmsLedger

  /** Rows of parents carry no child ids. */
  datatype Tables = Tables(parents: map<nat, Parent>, children: map<nat, Child>, fills: map<nat, Fill>)

  function RowOf(p: Parent): Parent { p.(childIds := []) }

  /** Upserts; the creation time of an existing row is not updated. */
  function SaveParent(t: Tables, p: Parent): Tables {
    var row := RowOf(p);
    t.(parents := t.parents[p.id := if p.id in t.parents then row.(created := t.parents[p.id].created) else row])
  }

  function SaveChild(t: Tables, c: Child): Tables {
    t.(children := t.children[c.id := if c.id in t.children then c.(created := t.children[c.id].created) else c])
  }

  /** Inserted once; a second fill under the same id changes nothing. */
  function SaveFill(t: Tables, f: Fill): Tables {
    if f.id in t.fills then t else t.(fills := t.fills[f.id := f])
  }

  function SaveChildren(t: Tables, cs: seq<Child>): Tables {
    if cs == [] then t else SaveChild(SaveChildren(t, cs[..|cs| - 1]), cs[|cs| - 1])
  }

  /** children_for_parent: the listed children that exist. */
  function ListedChildren(children: map<nat, Child>, ids: seq<nat>): seq<Child> {
    if ids == [] then []
    else
      var last := ids[|ids| - 1];
      ListedChildren(children, ids[..|ids| - 1]) + (if last in children then [children[last]] else [])
  }

  /** The mutation callback: parent, child and fill of the event; for an updated parent, all its children. */
  function Saved(t: Tables, m: Mutation, children: map<nat, Child>): Tables {
    var t1 := SaveParent(t, m.parent);
    var t2 := if m.child.Some? then SaveChild(t1, m.child.value) else t1;
    var t3 := if m.fill.Some? then SaveFill(t2, m.fill.value) else t2;
    if m.parentUpdated then SaveChildren(t3, ListedChildren(children, m.parent.childIds)) else t3
  }

  function Persisted(t: Tables, o: Outcome): Tables {
    if o.mutation.None? then t else Saved(t, o.mutation.value, o.ledger.children)
  }

  /** What the tables should hold. */
  function Image(l: Ledger): Tables {
    Tables(map id | id in l.parents :: RowOf(l.parents[id]), l.children, FillRows(l.fills))
  }

  /** Fills by id: the k-th has id k + 1. */
  function FillRows(fills: seq<Fill>): (rows: map<nat, Fill>)
    ensures forall k :: 0 <= k < |fills| ==> k + 1 in rows && rows[k + 1] == fills[k]
    ensures forall id :: id in rows <==> 1 <= id <= |fills|
  {
    if fills == [] then map[]
    else
      var n := |fills| - 1;
      assert forall k :: 0 <= k < n ==> fills[..n][k] == fills[k];
      FillRows(fills[..n])[n + 1 := fills[n]]
  }

  // ---------- write-through ----------

  lemma ParentSaved(l: Ledger, l': Ledger, p: Parent)
    requires l'.parents == l.parents[p.id := p] && (p.id in l.parents ==> p.created == l.parents[p.id].created)
    ensures SaveParent(Image(l), p).parents == Image(l').parents
  {
  }

  lemma OneMoreSaved(t: Tables, cs: seq<Child>, c: Child)
    ensures SaveChildren(t, cs + [c]) == SaveChild(SaveChildren(t, cs), c)
  {
    assert (cs + [c])[..|cs|] == cs;
  }

  lemma {:induction false} AllChildrenSaved(t: Tables, children: map<nat, Child>, ids: seq<nat>)
    requires forall id :: id in children ==> children[id].id == id
    requires forall id :: id in children && id in t.children ==> children[id].created == t.children[id].created
    ensures var t' := SaveChildren(t, ListedChildren(children, ids));
            && t'.parents == t.parents && t'.fills == t.fills
            && (forall id :: id in t'.children <==> id in t.children || (id in children && id in ids))
            && (forall id :: id in t'.children ==>
                  t'.children[id] == if id in children && id in ids then children[id] else t.children[id])
    decreases |ids|
  {
    if ids != [] {
      var n := |ids| - 1;
      var last := ids[n];
      AllChildrenSaved(t, children, ids[..n]);
      assert ids == ids[..n] + [last];
      var some := ListedChildren(children, ids[..n]);
      if last in children {
        OneMoreSaved(t, some, children[last]);
        assert last in ids;
      } else {
        assert some + [] == some;
      }
    }
  }

  lemma CancellationSaved(l: Ledger, parentId: nat, timestamp: nat)
    requires Balanced(l) && parentId in l.parents && !Terminal(l.parents[parentId].status)
    ensures var o := CancelParent(l, parentId, timestamp); Persisted(Image(l), o) == Image(o.ledger)
  {
    hide FilledBy, FilledFor, FilledOver, ParentOk, FillsOk, IdsOk, ListedChildren, SaveChildren;
    var o := CancelParent(l, parentId, timestamp);
    var p := o.mutation.value.parent;
    ParentSaved(l, o.ledger, p);
    var t := SaveParent(Image(l), p);
    AllChildrenSaved(t, o.ledger.children, p.childIds);
    assert forall id :: id in o.ledger.children ==> id in l.children;
    assert SaveChildren(t, ListedChildren(o.ledger.children, p.childIds)).children == o.ledger.children;
  }

  lemma NewParentSaved(l: Ledger, r: ParentRequest, timestamp: nat)
    requires Balanced(l)
    ensures var o := CreateParent(l, r, timestamp); Persisted(Image(l), o) == Image(o.ledger)
  {
    hide FilledBy, FilledFor, FilledOver, ParentOk, FillsOk, FillRows;
    var o := CreateParent(l, r, timestamp);
    if o.mutation.Some? {
      ParentSaved(l, o.ledger, o.mutation.value.parent);
    }
  }

  lemma NewChildSaved(l: Ledger, r: ChildRequest)
    requires Balanced(l)
    ensures var o := CreateChild(l, r); Persisted(Image(l), o) == Image(o.ledger)
  {
    hide FilledBy, FilledFor, FilledOver, ParentOk, FillsOk, FillRows;
    var o := CreateChild(l, r);
    if o.mutation.Some? {
      ParentSaved(l, o.ledger, o.mutation.value.parent);
    }
  }

  lemma TouchedSaved(l: Ledger, c: Child, timestamp: nat)
    requires Balanced(l) && Live(l, c.id) && c.parentId == l.children[c.id].parentId
    requires c.created == l.children[c.id].created
    ensures var l' := Touch(l, c, timestamp);
            && Image(l') == SaveChild(SaveParent(Image(l), l'.parents[c.parentId]), c)
            && l'.fills == l.fills
  {
    hide FilledBy, FilledFor, FilledOver, ParentOk, FillsOk, FillRows, HasLive, HasStatus;
    var l' := Touch(l, c, timestamp);
    ParentSaved(l, l', l'.parents[c.parentId]);
  }

  lemma StatusSaved(l: Ledger, id: nat, status: OrderStatus, timestamp: nat)
    requires Balanced(l)
    ensures var o := SetStatus(l, id, status, timestamp); Persisted(Image(l), o) == Image(o.ledger)
  {
    hide FilledBy, FilledFor, FilledOver, ParentOk, FillsOk, Touch, Image, SaveParent, SaveChild;
    if Live(l, id) {
      var c := l.children[id].(status := status, updated := timestamp);
      TouchedSaved(l, c, timestamp);
      TouchKeepsKeys(l, c, timestamp);
    }
  }

  lemma TouchKeepsKeys(l: Ledger, c: Child, timestamp: nat)
    ensures Touch(l, c, timestamp).parents.Keys == l.parents.Keys
  {
  }

  lemma FillSaved(l: Ledger, id: nat, price: real, quantity: real, fee: real, timestamp: nat)
    requires Balanced(l)
    ensures var o := RecordFill(l, id, price, quantity, fee, timestamp); Persisted(Image(l), o) == Image(o.ledger)
  {
    hide FilledBy, FilledFor, FilledOver, ParentOk, FillsOk, Touch, SaveParent, SaveChild;
    var o := RecordFill(l, id, price, quantity, fee, timestamp);
    if o.answer.Reported? {
      var c := FilledChild(l.children[id], quantity, timestamp);
      var l' := Touch(l, c, timestamp);
      TouchedSaved(l, c, timestamp);
      TouchKeepsKeys(l, c, timestamp);
      FillAppended(l.fills, o.answer.fill);
      SavesKeepFills(Image(l), l'.parents[c.parentId], c);
    }
  }

  lemma SavesKeepFills(t: Tables, p: Parent, c: Child)
    ensures SaveChild(SaveParent(t, p), c).fills == t.fills
  {
  }

  lemma FillAppended(fills: seq<Fill>, f: Fill)
    requires f.id == |fills| + 1
    ensures f.id !in FillRows(fills) && FillRows(fills)[f.id := f] == FillRows(fills + [f])
  {
    assert (fills + [f])[..|fills|] == fills;
  }

  /** After every call the tables are the ledger's image again. */
  lemma CallIsSaved(l: Ledger, c: Call)
    requires Balanced(l)
    ensures Persisted(Image(l), Do(l, c)) == Image(Do(l, c).ledger)
  {
    hide Balanced, Persisted, Image, CreateParent, CreateChild, SetStatus, RecordFill;
    match c
    case ParentCall(r, t) => NewParentSaved(l, r, t);
    case ChildCall(r) => NewChildSaved(l, r);
    case WorkCall(id, t) => StatusSaved(l, id, WorkingStatus(l, id), t);
    case FillCall(id, price, quantity, fee, t) => FillSaved(l, id, price, quantity, fee, t);
    case CancelChildCall(id, t) => StatusSaved(l, id, Cancelled, t);
    case RejectChildCall(id, t) => StatusSaved(l, id, Rejected, t);
    case CancelParentCall(id, t) =>
      if id in l.parents && !Terminal(l.parents[id].status) {
        CancellationSaved(l, id, t);
      } else {
        NothingSaved(l, Do(l, c));
      }
  }

  lemma NothingSaved(l: Ledger, o: Outcome)
    ensures o.mutation.None? ==> Persisted(Image(l), o) == Image(l)
  {
  }

  // ---------- the way back ----------

  /** The ids of the children of one parent, in the order of the rows. */
  function ChildIdsIn(children: seq<Child>, parentId: nat): seq<nat> {
    if children == [] then []
    else
      var last := children[|children| - 1];
      ChildIdsIn(children[..|children| - 1], parentId) + (if last.parentId == parentId then [last.id] else [])
  }

  ghost function Loaded(t: Tables): Recovery {
    var children := Rows(t.children, Ascending(t.children.Keys));
    var parents := Rows(t.parents, Ascending(t.parents.Keys));
    Recovery(seq(|parents|,
        i requires 0 <= i < |parents| => parents[i].(childIds := ChildIdsIn(children, parents[i].id))),
             children, Rows(t.fills, Ascending(t.fills.Keys)))
  }

  // ---------- the round trip ----------

  lemma {:induction false} ParentsRestored(ps: seq<Parent>, n: nat)
    requires n == |ps| && forall i :: 0 <= i < n ==> ps[i].id == i + 1
    ensures var (m, next) := RestoredParents(ps);
            && next == n + 1 && (forall id :: id in m <==> 1 <= id <= n)
            && (forall i :: 0 <= i < n ==> i + 1 in m && m[i + 1] == ps[i])
    decreases n
  {
    if n > 0 {
      ParentsRestored(ps[..n - 1], n - 1);
    }
  }

  lemma {:induction false} ChildrenRestored(cs: seq<Child>, n: nat)
    requires n == |cs| && forall i :: 0 <= i < n ==> cs[i].id == i + 1
    ensures var (m, next) := RestoredChildren(cs);
            && next == n + 1 && (forall id :: id in m <==> 1 <= id <= n)
            && (forall i :: 0 <= i < n ==> i + 1 in m && m[i + 1] == cs[i])
    decreases n
  {
    if n > 0 {
      ChildrenRestored(cs[..n - 1], n - 1);
    }
  }

  lemma {:induction false} FillsNumbered(fs: seq<Fill>)
    requires forall i :: 0 <= i < |fs| ==> fs[i].id == i + 1
    ensures NextFill(fs) == |fs| + 1
    decreases |fs|
  {
    if fs != [] {
      FillsNumbered(fs[..|fs| - 1]);
    }
  }

  /** The numbers 1 to n, in order. */
  lemma {:induction false} OneTo(keys: set<nat>, n: nat)
    requires forall k :: k in keys <==> 1 <= k <= n
    ensures |Ascending(keys)| == n && forall i :: 0 <= i < n ==> Ascending(keys)[i] == i + 1
    decreases n
  {
    var ss := Ascending(keys);
    EmptyListing(ss, keys);
    if n == 0 {
      assert keys == {};
    } else {
      assert n in keys;
      LastIsGreatest(ss, keys);
      assert ss[|ss| - 1] in keys;
      AllButLast(ss, keys);
      OneTo(keys - {n}, n - 1);
      ListingIsUnique(ss[..|ss| - 1], Ascending(keys - {n}), keys - {n});
    }
  }

  lemma {:induction false} ChildIdsListed(cs: seq<Child>, parentId: nat)
    requires forall i :: 0 <= i < |cs| ==> cs[i].id == i + 1
    ensures Lists(ChildIdsIn(cs, parentId), RowIdsOf(cs, parentId))
    decreases |cs|
  {
    if cs == [] {
      assert RowIdsOf(cs, parentId) == {};
    } else {
      var n := |cs| - 1;
      ChildIdsListed(cs[..n], parentId);
      if cs[n].parentId == parentId {
        assert RowIdsOf(cs, parentId) == RowIdsOf(cs[..n], parentId) + {cs[n].id};
        AddGreatest(ChildIdsIn(cs[..n], parentId), RowIdsOf(cs[..n], parentId), cs[n].id);
      } else {
        assert RowIdsOf(cs, parentId) == RowIdsOf(cs[..n], parentId);
      }
    }
  }

  function RowIdsOf(cs: seq<Child>, parentId: nat): set<nat> {
    set i | 0 <= i < |cs| && cs[i].parentId == parentId :: cs[i].id
  }

  /** What the way back needs of a ledger: ids without holes, rows under their own ids, and lists that are the
      children by age. The figures may be anything. */
  ghost predicate Shaped(l: Ledger) {
    && IdsOk(l)
    && (forall id :: id in l.children ==> l.children[id].id == id)
    && (forall id :: id in l.parents ==>
          l.parents[id].id == id && Lists(l.parents[id].childIds, ChildrenOf(l.children, id)))
    && (forall k :: 0 <= k < |l.fills| ==> l.fills[k].id == k + 1)
  }

  lemma BalancedIsShaped(l: Ledger)
    requires Balanced(l)
    ensures Shaped(l)
  {
    hide FilledBy, FilledFor, FilledOver, HasLive, HasStatus, ChildAdds, Lists;
    forall k | 0 <= k < |l.fills| ensures l.fills[k].id == k + 1 {
      assert FillOk(l.fills[k], k + 1, l.children);
    }
    forall id | id in l.parents ensures Lists(l.parents[id].childIds, ChildrenOf(l.children, id)) {
      assert ParentOk(l.parents[id], l.children);
    }
  }

  lemma ChildRowsInOrder(l: Ledger)
    requires Shaped(l)
    ensures var cs := Rows(l.children, Ascending(l.children.Keys));
            && |cs| == l.nextChild - 1
            && (forall i :: 0 <= i < |cs| ==> cs[i].id == i + 1 && i + 1 in l.children && cs[i] == l.children[i + 1])
            && (forall p :: RowIdsOf(cs, p) == ChildrenOf(l.children, p))
  {
    hide Ascending, Rows, Lists;
    OneTo(l.children.Keys, l.nextChild - 1);
    var cs := Rows(l.children, Ascending(l.children.Keys));
    forall p ensures RowIdsOf(cs, p) == ChildrenOf(l.children, p) {
      forall id | id in ChildrenOf(l.children, p) ensures id in RowIdsOf(cs, p) {
        assert cs[id - 1].id == id;
      }
    }
  }

  lemma ParentRowsInOrder(l: Ledger)
    requires Shaped(l)
    ensures var ps := Loaded(Image(l)).parents;
            |ps| == l.nextParent - 1 && forall i :: 0 <= i < |ps| ==> i + 1 in l.parents && ps[i] == l.parents[i + 1]
  {
    hide Ascending, Rows, ChildrenOf, ChildIdsIn;
    OneTo(Image(l).parents.Keys, l.nextParent - 1);
    ChildRowsInOrder(l);
    var cs := Rows(l.children, Ascending(l.children.Keys));
    var ps := Loaded(Image(l)).parents;
    forall i | 0 <= i < |ps| ensures ps[i] == l.parents[i + 1] {
      var p := l.parents[i + 1];
      ChildIdsListed(cs, p.id);
      ListingIsUnique(ChildIdsIn(cs, p.id), p.childIds, ChildrenOf(l.children, p.id));
    }
  }

  lemma FillRowsInOrder(l: Ledger)
    requires Shaped(l)
    ensures Rows(FillRows(l.fills), Ascending(FillRows(l.fills).Keys)) == l.fills
  {
    hide Ascending, Rows, FillRows, Lists;
    OneTo(FillRows(l.fills).Keys, |l.fills|);
  }

  /** Loading the image and restoring from it gives back the very ledger, next ids and child lists included. */
  lemma RestoreUndoesCrash(l: Ledger)
    requires Balanced(l)
    ensures Restored(Loaded(Image(l))) == l
  {
    hide Balanced, Shaped, Image, Loaded, Restored;
    BalancedIsShaped(l);
    ShapedIsRestored(l);
  }

  lemma ShapedIsRestored(l: Ledger)
    requires Shaped(l)
    ensures Restored(Loaded(Image(l))) == l
  {
    hide Ascending, Rows, FillRows, RestoredParents, RestoredChildren, NextFill, Lists, ChildrenOf;
    var r := Loaded(Image(l));
    ParentRowsInOrder(l);
    ChildRowsInOrder(l);
    FillRowsInOrder(l);
    IdsInOrder(l, r);
    ParentsRestored(r.parents, |r.parents|);
    ChildrenRestored(r.children, |r.children|);
    FillsNumbered(r.fills);
    SameFromOne(RestoredParents(r.parents).0, l.parents, r.parents);
    SameFromOne(RestoredChildren(r.children).0, l.children, r.children);
  }

  lemma SameFromOne<T>(a: map<nat, T>, b: map<nat, T>, rows: seq<T>)
    requires forall id :: id in a <==> 1 <= id <= |rows|
    requires forall id :: id in b <==> 1 <= id <= |rows|
    requires forall i :: 0 <= i < |rows| ==> i + 1 in a && i + 1 in b && rows[i] == a[i + 1] && rows[i] == b[i + 1]
    ensures a == b
  {
    forall id | id in a ensures id in b && a[id] == b[id] {
      assert rows[id - 1] == a[id - 1 + 1];
    }
  }

  lemma IdsInOrder(l: Ledger, r: Recovery)
    requires Shaped(l) && r.fills == l.fills
    requires forall i :: 0 <= i < |r.parents| ==> i + 1 in l.parents && r.parents[i] == l.parents[i + 1]
    ensures forall i :: 0 <= i < |r.parents| ==> r.parents[i].id == i + 1
    ensures forall i :: 0 <= i < |r.fills| ==> r.fills[i].id == i + 1
  {
    hide Lists, ChildrenOf;
  }

  /** A crash between any two calls loses nothing: however many calls were made, what is restored from the
      tables is the ledger after the last of them. */
  lemma {:induction false} CrashLosesNothing(l: Ledger, cs: seq<Call>, t: Tables)
    requires Balanced(l) && t == Image(l)
    ensures Restored(Loaded(PersistAll(l, cs, t))) == DoAll(l, cs)
    decreases |cs|
  {
    hide Balanced, Image, Do, Loaded, Restored, Persisted;
    if cs == [] {
      RestoreUndoesCrash(l);
    } else {
      CallKeepsBalance(l, cs[0]);
      CallIsSaved(l, cs[0]);
      CrashLosesNothing(Do(l, cs[0]).ledger, cs[1..], Persisted(t, Do(l, cs[0])));
    }
  }

  function PersistAll(l: Ledger, cs: seq<Call>, t: Tables): Tables
    decreases |cs|
  {
    if cs == [] then t else PersistAll(Do(l, cs[0]).ledger, cs[1..], Persisted(t, Do(l, cs[0])))
  }

  // ---------- the store itself ----------

  ghost predicate Keyed(rows: map<nat, Parent>) {
    forall id :: id in rows ==> rows[id].id == id && rows[id].childIds == []
  }

  class OmsStore {
    var parentRows: map<nat, Parent>
    var childRows: map<nat, Child>
    var fillRows: map<nat, Fill>

    ghost function View(): Tables
      reads this
    {
      Tables(parentRows, childRows, fillRows)
    }

    constructor ()
      ensures View() == Tables(map[], map[], map[])
    {
      parentRows, childRows, fillRows := map[], map[], map[];
    }

    method KeepParent(p: Parent)
      modifies this`parentRows
      ensures View() == SaveParent(old(View()), p)
    {
      var row := p.(childIds := []);
      if p.id in parentRows { row := row.(created := parentRows[p.id].created); }
      parentRows := parentRows[p.id := row];
    }

    method KeepChild(c: Child)
      modifies this`childRows
      ensures View() == SaveChild(old(View()), c)
    {
      var row := c;
      if c.id in childRows { row := row.(created := childRows[c.id].created); }
      childRows := childRows[c.id := row];
    }

    method KeepFill(f: Fill)
      modifies this`fillRows
      ensures View() == SaveFill(old(View()), f)
    {
      if f.id !in fillRows { fillRows := fillRows[f.id := f]; }
    }

    /** The callback; `children` is the ledger's map of children when it is called. */
    method OnMutation(m: Mutation, children: map<nat, Child>)
      modifies this
      ensures View() == Saved(old(View()), m, children)
    {
      hide SaveParent, SaveChild, SaveFill;
      KeepParent(m.parent);
      if m.child.Some? { KeepChild(m.child.value); }
      if m.fill.Some? { KeepFill(m.fill.value); }
      if m.parentUpdated {
        var ids := m.parent.childIds;
        ghost var before := View();
        assert ids[..0] == [];
        var i := 0;
        while i < |ids|
          invariant i <= |ids| && View() == SaveChildren(before, ListedChildren(children, ids[..i]))
        {
          OneMoreListed(children, ids, i);
          if ids[i] in children {
            OneMoreSaved(before, ListedChildren(children, ids[..i]), children[ids[i]]);
            KeepChild(children[ids[i]]);
          } else {
            assert ListedChildren(children, ids[..i]) + [] == ListedChildren(children, ids[..i]);
          }
          i := i + 1;
        }
        assert ids[..i] == ids;
      }
    }

    /** The first row of the child's parent gets its id. */
    static method Attach(parents: seq<Parent>, child: Child) returns (r: seq<Parent>)
      requires forall i, j :: 0 <= i < j < |parents| ==> parents[i].id != parents[j].id
      ensures |r| == |parents|
      ensures forall k :: 0 <= k < |parents| ==>
                r[k] == if parents[k].id ==
                    child.parentId then parents[k].(childIds := parents[k].childIds + [child.id])
                        else parents[k]
    {
      var j := 0;
      while j < |parents| && parents[j].id != child.parentId
        invariant j <= |parents| && forall k :: 0 <= k < j ==> parents[k].id != child.parentId
      {
        j := j + 1;
      }
      r := parents;
      if j < |parents| {
        r := parents[j := parents[j].(childIds := parents[j].childIds + [child.id])];
      }
    }

    method Load() returns (r: Recovery)
      requires Keyed(parentRows)
      ensures r == Loaded(View())
    {
      hide Rows, Ascending, ChildIdsIn;
      var parents := SortedRows(parentRows);
      var children := SortedRows(childRows);
      var fills := SortedRows(fillRows);
      ghost var rows := parents;
      RowsAreKeyed(parentRows);
      assert children[..0] == [];
      NoChildIds();
      var i := 0;
      while i < |children|
        invariant i <= |children| && |parents| == |rows|
        invariant forall j :: 0 <= j < |rows| ==> parents[j] == WithChildIds(rows[j], children[..i])
      {
        ghost var before := parents;
        parents := Attach(parents, children[i]);
        forall j | 0 <= j < |rows| ensures parents[j] == WithChildIds(rows[j], children[..i + 1]) {
          OneMoreChildId(children, i, rows[j].id);
          assert before[j].id == rows[j].id;
        }
        i := i + 1;
      }
      assert children[..i] == children;
      r := Recovery(parents, children, fills);
    }
  }

  function WithChildIds(row: Parent, children: seq<Child>): Parent { row.(childIds := ChildIdsIn(children, row.id)) }

  lemma RowsAreKeyed(m: map<nat, Parent>)
    requires Keyed(m)
    ensures var rows := Rows(m, Ascending(m.Keys));
            forall i, j :: 0 <= i < j < |rows| ==> rows[i].id != rows[j].id
    ensures forall i :: 0 <= i < |m| && i < |Rows(m, Ascending(m.Keys))| ==>
              Rows(m, Ascending(m.Keys))[i].childIds == []
    ensures |Rows(m, Ascending(m.Keys))| == |m|
  {
    hide Ascending, Rows;
    ListingSize(Ascending(m.Keys), m.Keys);
    var ss := Ascending(m.Keys);
    var rows := Rows(m, ss);
    forall i | 0 <= i < |rows| ensures rows[i].id == ss[i] && rows[i].childIds == [] {
      assert ss[i] in ss;
    }
  }

  lemma NoChildIds()
    ensures forall p :: ChildIdsIn([], p) == []
  {
  }

  lemma OneMoreChildId(children: seq<Child>, i: nat, parentId: nat)
    requires i < |children|
    ensures ChildIdsIn(children[..i + 1], parentId) ==
              ChildIdsIn(children[..i], parentId) + (if children[i].parentId == parentId then [children[i].id] else [])
  {
    assert children[..i + 1][..i] == children[..i];
  }

  lemma OneMoreListed(children: map<nat, Child>, ids: seq<nat>, i: nat)
    requires i < |ids|
    ensures ListedChildren(children, ids[..i + 1]) ==
              ListedChildren(children, ids[..i]) + (if ids[i] in children then [children[ids[i]]] else [])
  {
    assert ids[..i + 1][..i] == ids[..i];
  }
}
