/**
 * Kernel lists as sequences of (value, owner) entries in list order: the abstraction of the
 * intrusive rings that the tick, timer and event code works on.
 */
module ValueLists {
  import opened Words
  import opened KernelList

  /** A list item: its sort value and the task or timer it belongs to. */
  datatype Entry = Entry(value: U32, owner: nat)

  function Values(s: seq<Entry>): (r: seq<U32>)
    ensures |r| == |s|
    ensures forall i :: 0 <= i < |s| ==> r[i] == s[i].value
  {
    seq(|s|, i requires 0 <= i < |s| => s[i].value)
  }

  /** vListInsert, as KernelList.List.Insert is proved to behave. */
  function InsertByValue(s: seq<Entry>, e: Entry): (r: seq<Entry>) {
    InsertAt(s, Place(Values(s), e.value), e)
  }

  ghost predicate SortedByValue(s: seq<Entry>) {
    forall i, j :: 0 <= i < j < |s| ==> s[i].value <= s[j].value
  }

  ghost predicate DistinctOwners(s: seq<Entry>) {
    forall i, j :: 0 <= i < j < |s| ==> s[i].owner != s[j].owner
  }

  function Owners(s: seq<Entry>): set<nat> { set x | x in s :: x.owner }

  lemma InsertMembers(s: seq<Entry>, e: Entry)
    ensures forall x :: x in InsertByValue(s, e) <==> x in s || x == e
    ensures Owners(InsertByValue(s, e)) == Owners(s) + {e.owner}
  {
    var k := Place(Values(s), e.value);
    var r := InsertAt(s, k, e);
    assert s == s[..k] + s[k..];
    assert r == s[..k] + [e] + s[k..];
    hide *;
    assert forall x :: x in r <==> x in s[..k] || x == e || x in s[k..];
    assert forall x :: x in s <==> x in s[..k] || x in s[k..];
    MembersGiveOwners(s, r, e);
  }

  lemma MembersGiveOwners(s: seq<Entry>, r: seq<Entry>, e: Entry)
    requires forall x :: x in r <==> x in s || x == e
    ensures Owners(r) == Owners(s) + {e.owner}
  {
    assert e in r;
    assert forall x :: x in s ==> x in r;
  }

  /** An entry goes behind the leading entries that do not exceed it, its equals among them. */
  lemma InsertStands(s: seq<Entry>, e: Entry) returns (k: nat)
    ensures k <= |s| && InsertByValue(s, e) == s[..k] + [e] + s[k..]
    ensures (forall i :: 0 <= i < k ==> s[i].value <= e.value) && (k < |s| ==> s[k].value > e.value)
  {
    k := Place(Values(s), e.value);
    hide Place;
    assert forall i :: 0 <= i < k ==> Values(s)[i] == s[i].value;
  }

  lemma InsertSorted(s: seq<Entry>, e: Entry)
    requires SortedByValue(s)
    ensures SortedByValue(InsertByValue(s, e))
  {
    hide InsertAt;
    hide Place;
  }

  lemma InsertDistinct(s: seq<Entry>, e: Entry)
    requires DistinctOwners(s) && e.owner !in Owners(s)
    ensures DistinctOwners(InsertByValue(s, e))
  {
    hide InsertAt;
    hide Place;
    assert forall i :: 0 <= i < |s| ==> s[i] in s && s[i].owner in Owners(s);
  }

  /** uxListRemove of the item owned by t, if it is in the list. */
  function RemoveOwner(s: seq<Entry>, t: nat): seq<Entry> {
    if s == [] then [] else if s[0].owner == t then s[1..] else [s[0]] + RemoveOwner(s[1..], t)
  }

  lemma {:induction false} RemoveMembers(s: seq<Entry>, t: nat)
    requires DistinctOwners(s)
    ensures forall x :: x in RemoveOwner(s, t) <==> x in s && x.owner != t
  {
    if s != [] {
      assert s == [s[0]] + s[1..];
      if s[0].owner == t {
        assert forall i :: 1 <= i < |s| ==> s[i].owner != t;
      } else {
        RemoveMembers(s[1..], t);
      }
    }
  }

  lemma {:induction false} RemoveKeepsOrder(s: seq<Entry>, t: nat)
    requires DistinctOwners(s)
    ensures DistinctOwners(RemoveOwner(s, t))
    ensures SortedByValue(s) ==> SortedByValue(RemoveOwner(s, t))
  {
    if s != [] && s[0].owner != t {
      var r := RemoveOwner(s[1..], t);
      RemoveKeepsOrder(s[1..], t);
      RemoveMembers(s[1..], t);
      assert RemoveOwner(s, t) == [s[0]] + r;
      hide RemoveOwner;
      forall x | x in r
        ensures s[0].owner != x.owner && (SortedByValue(s) ==> s[0].value <= x.value)
      {
        var i :| 0 <= i < |s| - 1 && s[1..][i] == x;
        assert s[i + 1] == x;
      }
      InFront(s[0], r);
    }
  }

  lemma InFront(e: Entry, r: seq<Entry>)
    requires DistinctOwners(r) && forall x :: x in r ==> x.owner != e.owner
    ensures DistinctOwners([e] + r)
    ensures SortedByValue(r) && (forall x :: x in r ==> e.value <= x.value) ==> SortedByValue([e] + r)
  {
    assert forall i :: 0 <= i < |r| ==> r[i] in r;
  }

  lemma RemoveOwners(s: seq<Entry>, t: nat)
    requires DistinctOwners(s)
    ensures Owners(RemoveOwner(s, t)) == Owners(s) - {t}
    ensures t !in Owners(s) ==> RemoveOwner(s, t) == s
  {
    RemoveMembers(s, t);
    if t !in Owners(s) {
      RemoveAbsent(s, t);
    }
  }

  /** Removing an entry leaves the others in order. */
  lemma {:induction false} RemovedFrom(a: seq<Entry>, e: Entry, b: seq<Entry>)
    requires DistinctOwners(a + [e] + b)
    ensures RemoveOwner(a + [e] + b, e.owner) == a + b
  {
    var s := a + [e] + b;
    if a == [] {
      assert s[0] == e && s[1..] == b == a + b;
    } else {
      assert s[0] == a[0] && s[|a|] == e && s[1..] == a[1..] + [e] + b;
      RemovedFrom(a[1..], e, b);
      assert [a[0]] + (a[1..] + b) == a + b;
    }
  }

  lemma {:induction false} RemoveAbsent(s: seq<Entry>, t: nat)
    requires t !in Owners(s)
    ensures RemoveOwner(s, t) == s
  {
    if s != [] {
      assert s[0] in s && s[0].owner in Owners(s);
      assert forall x :: x in s[1..] ==> x in s;
      RemoveAbsent(s[1..], t);
    }
  }

  lemma HeadIn(s: seq<Entry>)
    ensures s != [] ==> s[0] in s
  {
  }

  lemma HeadOwner(s: seq<Entry>)
    ensures s != [] ==> s[0].owner in Owners(s)
  {
    HeadIn(s);
  }

  /** The first entry apart from the others. */
  lemma TailApart(s: seq<Entry>)
    requires s != [] && DistinctOwners(s)
    ensures DistinctOwners(s[1..]) && s[0].owner !in Owners(s[1..])
    ensures Owners(s) == {s[0].owner} + Owners(s[1..])
    ensures SortedByValue(s) ==> SortedByValue(s[1..])
  {
    CutOwners(s, 1);
    assert s[..1] == [s[0]];
  }

  /** Cutting a list separates its owners. */
  lemma CutOwners(s: seq<Entry>, k: nat)
    requires DistinctOwners(s) && k <= |s|
    ensures Owners(s) == Owners(s[..k]) + Owners(s[k..]) && Owners(s[..k]) !! Owners(s[k..])
  {
    assert s == s[..k] + s[k..];
    assert forall x :: x in s <==> x in s[..k] || x in s[k..];
    forall x, y | x in s[..k] && y in s[k..]
      ensures x.owner != y.owner
    {
      var i :| 0 <= i < k && s[..k][i] == x;
      var j :| 0 <= j < |s| - k && s[k..][j] == y;
      assert s[i].owner != s[k + j].owner;
    }
  }
}
