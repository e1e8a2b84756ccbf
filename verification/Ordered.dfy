/** Keys in increasing order, as an ordered map yields them. */
module Ordered {

  /** `ss` lists `keys` in increasing order. */
  ghost predicate Lists(ss: seq<nat>, keys: set<nat>) {
    && (forall i, j :: 0 <= i < j < |ss| ==> ss[i] < ss[j])
    && (forall s :: s in keys <==> s in ss)
  }

  lemma {:induction false} ListingIsUnique(a: seq<nat>, b: seq<nat>, keys: set<nat>)
    requires Lists(a, keys) && Lists(b, keys)
    ensures a == b
    decreases |a|
  {
    EmptyListing(a, keys);
    EmptyListing(b, keys);
    if a != [] {
      var x := a[|a| - 1];
      LastIsGreatest(a, keys);
      LastIsGreatest(b, keys);
      assert x in keys && b[|b| - 1] in keys;
      assert x == b[|b| - 1];
      AllButLast(a, keys);
      AllButLast(b, keys);
      ListingIsUnique(a[..|a| - 1], b[..|b| - 1], keys - {x});
    }
  }

  lemma EmptyListing(a: seq<nat>, keys: set<nat>)
    requires Lists(a, keys)
    ensures a == [] <==> keys == {}
  {
    if a != [] {
      assert a[0] in a;
    }
  }

  lemma LastIsGreatest(a: seq<nat>, keys: set<nat>)
    requires Lists(a, keys) && a != []
    ensures forall s :: s in keys ==> s <= a[|a| - 1]
  {
  }

  lemma AllButLast(a: seq<nat>, keys: set<nat>)
    requires Lists(a, keys) && a != []
    ensures Lists(a[..|a| - 1], keys - {a[|a| - 1]})
  {
    var x := a[|a| - 1];
    assert a == a[..|a| - 1] + [x];
    assert forall i :: 0 <= i < |a| - 1 ==> a[i] != x;
  }

  lemma InsertListed(ss: seq<nat>, k: nat, s: nat, keys: set<nat>)
    requires Lists(ss, keys) && k <= |ss|
    requires (forall i :: 0 <= i < k ==> ss[i] < s) && (k < |ss| ==> s < ss[k])
    ensures Lists(ss[..k] + [s] + ss[k..], keys + {s})
  {
    var r := ss[..k] + [s] + ss[k..];
    forall i, j | 0 <= i < j < |r| ensures r[i] < r[j] {
      assert r[i] == if i < k then ss[i] else if i == k then s else ss[i - 1];
      assert r[j] == if j < k then ss[j] else if j == k then s else ss[j - 1];
    }
    assert ss == ss[..k] + ss[k..];
    forall x ensures x in keys + {s} <==> x in r {
      assert x in r <==> x in ss[..k] || x == s || x in ss[k..];
      assert x in ss <==> x in ss[..k] || x in ss[k..];
    }
  }

  lemma {:induction false} ListingSize(ss: seq<nat>, keys: set<nat>)
    requires Lists(ss, keys)
    ensures |ss| == |keys|
    decreases |ss|
  {
    EmptyListing(ss, keys);
    if ss != [] {
      AllButLast(ss, keys);
      ListingSize(ss[..|ss| - 1], keys - {ss[|ss| - 1]});
    }
  }

  lemma {:induction false} GreatestExists(keys: set<nat>)
    requires keys != {}
    ensures exists m :: m in keys && forall s :: s in keys ==> s <= m
    decreases |keys|
  {
    var s :| s in keys;
    var rest := keys - {s};
    if rest == {} {
      assert keys == {s};
    } else {
      GreatestExists(rest);
      var m :| m in rest && forall x :: x in rest ==> x <= m;
      var top := if m < s then s else m;
      forall x | x in keys ensures x <= top {
        assert x == s || x in rest;
      }
    }
  }

  ghost function Ascending(keys: set<nat>): (ss: seq<nat>)
    ensures Lists(ss, keys)
  {
    if keys == {} then []
    else
      GreatestExists(keys);
      var m :| m in keys && forall s :: s in keys ==> s <= m;
      AddGreatest(Ascending(keys - {m}), keys - {m}, m);
      assert keys - {m} + {m} == keys;
      Ascending(keys - {m}) + [m]
  }

  lemma AddGreatest(ss: seq<nat>, keys: set<nat>, m: nat)
    requires Lists(ss, keys) && m !in keys && forall s :: s in keys ==> s <= m
    ensures Lists(ss + [m], keys + {m})
  {
    forall i | 0 <= i < |ss| ensures ss[i] < m {
      assert ss[i] in ss;
    }
    InsertListed(ss, |ss|, m, keys);
    assert ss[..|ss|] + [m] + ss[|ss|..] == ss + [m];
  }

  method SortedKeys(keys: set<nat>) returns (ss: seq<nat>)
    ensures ss == Ascending(keys)
  {
    ss := [];
    var todo := keys;
    while todo != {}
      invariant todo <= keys && Lists(ss, keys - todo)
      decreases |todo|
    {
      var s :| s in todo;
      assert keys - todo + {s} == keys - (todo - {s});
      ss := Placed(ss, s, keys - todo);
      todo := todo - {s};
    }
    assert keys - todo == keys;
    ListingIsUnique(ss, Ascending(keys), keys);
  }

  method Placed(ss: seq<nat>, s: nat, ghost keys: set<nat>) returns (r: seq<nat>)
    requires Lists(ss, keys) && s !in keys
    ensures Lists(r, keys + {s})
  {
    var k := 0;
    while k < |ss| && ss[k] < s
      invariant k <= |ss| && forall i :: 0 <= i < k ==> ss[i] < s
      decreases |ss| - k
    {
      k := k + 1;
    }
    r := ss[..k] + [s] + ss[k..];
    assert k < |ss| ==> ss[k] in ss;
    InsertListed(ss, k, s, keys);
  }

  /** The values of a map in the order of the given keys. */
  function Rows<T>(m: map<nat, T>, keys: seq<nat>): (rows: seq<T>)
    requires forall k :: k in keys ==> k in m
    ensures |rows| == |keys| && forall i :: 0 <= i < |keys| ==> rows[i] == m[keys[i]]
  {
    if keys == [] then [] else Rows(m, keys[..|keys| - 1]) + [m[keys[|keys| - 1]]]
  }

  lemma NoRows<T>(m: map<nat, T>)
    ensures Rows(m, []) == []
  {
  }

  lemma OneMoreRow<T>(m: map<nat, T>, keys: seq<nat>, i: nat)
    requires (forall k :: k in keys ==> k in m) && i < |keys|
    ensures Rows(m, keys[..i + 1]) == Rows(m, keys[..i]) + [m[keys[i]]]
  {
    assert keys[..i + 1][..i] == keys[..i];
  }

  method SortedRows<T>(m: map<nat, T>) returns (rows: seq<T>)
    ensures rows == Rows(m, Ascending(m.Keys))
  {
    hide Ascending, Rows;
    var keys := SortedKeys(m.Keys);
    assert keys[..0] == [];
    assert forall k :: k in keys <==> k in m;
    NoRows(m);
    rows := [];
    var i := 0;
    while i < |keys|
      invariant i <= |keys| && (forall k :: k in keys ==> k in m)
      invariant rows == Rows(m, keys[..i])
    {
      rows := rows + [m[keys[i]]];
      OneMoreRow(m, keys, i);
      i := i + 1;
    }
    assert keys[..i] == keys;
  }
}
