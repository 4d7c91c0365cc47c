/**
 * The kernel's intrusive doubly linked ring with an end marker and a walking index,
 * and the selection of the next task to run on top of it.
 */
module KernelList {
  import opened Basics
  import opened Words

  const MAX_DELAY: U32 := 0xffff_ffff

  class ListItem {
    var value: U32
    var next: ListItem?
    var prev: ListItem?
    var container: List?
    const owner: nat

    constructor (owner: nat, value: U32)
      ensures this.owner == owner && this.value == value && container == null
    {
      this.owner, this.value := owner, value;
      next, prev, container := null, null, null;
    }
  }

  // ----- sequences -----

  /** s with e inserted at position k. */
  function InsertAt<T>(s: seq<T>, k: nat, e: T): (r: seq<T>)
    requires k <= |s|
    ensures |r| == |s| + 1 && r[k] == e
    ensures forall i :: 0 <= i < k ==> r[i] == s[i]
    ensures forall i {:trigger r[i]} :: k < i < |r| ==> r[i] == s[i - 1]
  {
    s[..k] + [e] + s[k..]
  }

  /** s without its element at position k. */
  function RemoveAt<T>(s: seq<T>, k: nat): (r: seq<T>)
    requires k < |s|
    ensures |r| == |s| - 1
    ensures forall i :: 0 <= i < k ==> r[i] == s[i]
    ensures forall i {:trigger r[i]} :: k <= i < |r| ==> r[i] == s[i + 1]
  {
    s[..k] + s[k + 1..]
  }

  lemma InsertMember<T>(s: seq<T>, k: nat, e: T)
    requires k <= |s|
    ensures forall x :: x in InsertAt(s, k, e) <==> x in s || x == e
  {
    assert s == s[..k] + s[k..];
  }

  lemma RemoveMember<T>(s: seq<T>, k: nat)
    requires k < |s| && Distinct(s)
    ensures forall x :: x in RemoveAt(s, k) <==> x in s && x != s[k]
  {
    assert s == s[..k] + [s[k]] + s[k + 1..];
  }

  /** s without the occurrences of e. */
  ghost function Without<T>(s: seq<T>, e: T): seq<T> {
    if s == [] then [] else (if s[0] == e then [] else [s[0]]) + Without(s[1..], e)
  }

  lemma {:induction false} WithoutAbsent<T>(s: seq<T>, e: T)
    requires e !in s
    ensures Without(s, e) == s
  {
    if s != [] {
      WithoutAbsent(s[1..], e);
    }
  }

  lemma {:induction false} WithoutConcat<T>(s: seq<T>, t: seq<T>, e: T)
    ensures Without(s + t, e) == Without(s, e) + Without(t, e)
  {
    if s == [] {
      assert s + t == t;
    } else {
      assert (s + t)[1..] == s[1..] + t;
      WithoutConcat(s[1..], t, e);
    }
  }

  /** How many leading values do not exceed v: where a new v goes, after its equals. */
  function Place(values: seq<U32>, v: U32): (k: nat)
    ensures k <= |values|
    ensures forall i :: 0 <= i < k ==> values[i] <= v
    ensures k < |values| ==> values[k] > v
  {
    if values == [] || values[0] > v then 0 else 1 + Place(values[1..], v)
  }

  ghost predicate SortedValues(s: seq<U32>) { forall i, j :: 0 <= i < j < |s| ==> s[i] <= s[j] }

  /** Inserting at Place keeps a sorted sequence sorted; every equal value stays in front. */
  lemma PlaceKeepsSorted(values: seq<U32>, v: U32)
    requires SortedValues(values)
    ensures SortedValues(InsertAt(values, Place(values, v), v))
    ensures forall i :: 0 <= i < |values| ==> (values[i] <= v <==> i < Place(values, v))
  {
  }

  lemma PlaceSorted(values: seq<U32>, v: U32)
    ensures SortedValues(values) ==> SortedValues(InsertAt(values, Place(values, v), v))
  {
    if SortedValues(values) {
      PlaceKeepsSorted(values, v);
    }
  }

  // ----- the ring -----

  ghost function Succ(i: int, n: int): int { if i + 1 < n then i + 1 else 0 }

  ghost function Pred(i: int, n: int): int { if i > 0 then i - 1 else n - 1 }

  /** The order in which repeated stepping from position at visits a ring, its marker at 0 left out. */
  ghost function VisitFrom<T>(ring: seq<T>, at: nat): (r: seq<T>)
    requires at < |ring|
    ensures |r| == |ring| - 1
  {
    ring[at + 1..] + (if at == 0 then [] else ring[1..at + 1])
  }

  /** Every node's successor and predecessor are its neighbours in the ring. */
  ghost predicate Linked(s: seq<ListItem>)
    reads s
  {
    && (forall i {:trigger s[i].next} :: 0 <= i < |s| ==> s[i].next == s[Succ(i, |s|)])
    && (forall i {:trigger s[i].prev} :: 0 <= i < |s| ==> s[i].prev == s[Pred(i, |s|)])
  }

  /** Inserting in front of the index position puts an item last, or last but one, in visiting order. */
  lemma EndIsLast<T>(s: seq<T>, a: nat, item: T)
    requires a < |s|
    ensures var k := Pred(a, |s|); var r := InsertAt(s, k + 1, item); var b := if a <= k then a else a + 1;
      VisitFrom(r, b) == if a == 0 then VisitFrom(s, a) + [item] else InsertAt(VisitFrom(s, a), |s| - 2, item)
  {
    var k := Pred(a, |s|);
    var r := InsertAt(s, k + 1, item);
    if a == 0 {
      assert r == s + [item];
    } else {
      assert r[a + 2..] == s[a + 1..];
      assert r[1..a + 2] == s[1..a] + [item] + [s[a]];
      assert s[1..a + 1] == s[1..a] + [s[a]];
      assert VisitFrom(s, a)[..|s| - 2] == s[a + 1..] + s[1..a];
    }
  }

  /** Place is the only position that separates the values. */
  lemma {:induction false} PlaceAt(vs: seq<U32>, v: U32, k: nat)
    requires k <= |vs|
    requires forall i :: 0 <= i < k ==> vs[i] <= v
    requires k < |vs| ==> vs[k] > v
    ensures Place(vs, v) == k
  {
  }

  /** As Linked, with position k bypassed. */
  ghost predicate LinkedPast(s: seq<ListItem>, k: nat)
    requires k < |s|
    reads s
  {
    && (forall j {:trigger s[j].next} :: 0 <= j < |s| && j != Pred(k, |s|) ==> s[j].next == s[Succ(j, |s|)])
    && (forall j {:trigger s[j].prev} :: 0 <= j < |s| && j != Succ(k, |s|) ==> s[j].prev == s[Pred(j, |s|)])
    && s[Pred(k, |s|)].next == s[Succ(k, |s|)] && s[Succ(k, |s|)].prev == s[Pred(k, |s|)]
  }

  method CutLinks(item: ListItem, ghost s: seq<ListItem>, ghost k: nat)
    requires Linked(s) && Distinct(s) && 0 < k < |s| && s[k] == item
    modifies s
    ensures LinkedPast(s, k) && item.prev == s[k - 1]
    ensures forall i :: 0 <= i < |s| ==> s[i].value == old(s[i].value) && s[i].container == old(s[i].container)
  {
    assert item.next == s[Succ(k, |s|)] && item.prev == s[k - 1];
    item.next.prev := item.prev;
    item.prev.next := item.next;
  }

  lemma SpotIsUnique<T>(s: seq<T>, a: nat, k: nat)
    requires Distinct(s) && a < |s| && k < |s|
    ensures s[a] == s[k] <==> a == k
  {
  }

  lemma CutRing(s: seq<ListItem>, k: nat)
    requires 0 < k < |s| && Distinct(s) && LinkedPast(s, k)
    ensures Distinct(RemoveAt(s, k)) && Linked(RemoveAt(s, k)) && s[k] !in RemoveAt(s, k)
  {
    var r, n := RemoveAt(s, k), |s|;
    hide RemoveAt;
    forall i | 0 <= i < |r|
      ensures r[i].next == r[Succ(i, |r|)]
    {
      if i < k - 1 {
        assert s[i].next == s[i + 1];
      } else if i >= k {
        assert s[i + 1].next == s[Succ(i + 1, n)];
      }
    }
    forall i | 0 <= i < |r|
      ensures r[i].prev == r[Pred(i, |r|)]
    {
      if i < k {
        if i != Succ(k, n) {
          assert s[i].prev == s[Pred(i, n)];
        }
      } else if i > k {
        assert s[i + 1].prev == s[i];
      }
    }
  }

  /** Removing an item leaves the visiting order of the others as it was. */
  lemma RemovedVisit<T>(s: seq<T>, a: nat, k: nat)
    requires a < |s| && 0 < k < |s| && Distinct(s)
    ensures VisitFrom(RemoveAt(s, k), if a < k then a else a - 1) == Without(VisitFrom(s, a), s[k])
  {
    var front, back := s[a + 1..], if a == 0 then [] else s[1..a + 1];
    WithoutConcat(front, back, s[k]);
    if a < k {
      RemovedAhead(s, a, k, front, back);
    } else {
      RemovedBehind(s, a, k, front, back);
    }
  }

  lemma RemovedAhead<T>(s: seq<T>, a: nat, k: nat, front: seq<T>, back: seq<T>)
    requires a < k < |s| && Distinct(s)
    requires front == s[a + 1..] && back == if a == 0 then [] else s[1..a + 1]
    ensures VisitFrom(RemoveAt(s, k), a) == Without(front, s[k]) + Without(back, s[k])
  {
    WithoutOnce(front, k - a - 1, s[k]);
    WithoutAbsent(back, s[k]);
    hide Without;
    hide Distinct;
    hide RemoveAt;
    var r := RemoveAt(s, k);
    var ahead, shorter := r[a + 1..], RemoveAt(front, k - a - 1);
    forall i | 0 <= i < |ahead|
      ensures ahead[i] == shorter[i]
    {
      assert ahead[i] == r[a + 1 + i];
    }
    assert ahead == shorter;
    assert a > 0 ==> r[1..a + 1] == back;
  }

  lemma RemovedBehind<T>(s: seq<T>, a: nat, k: nat, front: seq<T>, back: seq<T>)
    requires 0 < k <= a < |s| && Distinct(s)
    requires front == s[a + 1..] && back == s[1..a + 1]
    ensures VisitFrom(RemoveAt(s, k), a - 1) == Without(front, s[k]) + Without(back, s[k])
  {
    hide Without;
    WithoutAbsent(front, s[k]);
    WithoutOnce(back, k - 1, s[k]);
    hide Distinct;
    hide RemoveAt;
    var r := RemoveAt(s, k);
    assert forall i :: 0 <= i < |front| ==> r[a..][i] == front[i];
    assert r[a..] == front;
    assert forall i :: 0 <= i < a - 1 ==> r[1..a][i] == RemoveAt(back, k - 1)[i];
    assert r[1..a] == RemoveAt(back, k - 1);
  }

  lemma {:induction false} WithoutOnce<T>(s: seq<T>, k: nat, e: T)
    requires k < |s| && s[k] == e && Distinct(s)
    ensures Without(s, e) == RemoveAt(s, k)
  {
    if k == 0 {
      WithoutAbsent(s[1..], e);
    } else {
      WithoutOnce(s[1..], k - 1, e);
      assert RemoveAt(s, k) == [s[0]] + RemoveAt(s[1..], k - 1);
    }
  }

  /** Stepping from a to its successor among the items rotates the visiting order by one. */
  lemma RotatedVisit<T>(s: seq<T>, a: nat, b: nat)
    requires |s| > 1 && a < |s|
    requires b == if a + 1 < |s| then a + 1 else 1
    ensures s[b] == VisitFrom(s, a)[0]
    ensures VisitFrom(s, b) == VisitFrom(s, a)[1..] + [VisitFrom(s, a)[0]]
  {
    if a + 1 < |s| {
      assert s[1..a + 2] == s[1..a + 1] + [s[a + 1]];
    } else {
      assert s[a + 1..] == [];
    }
  }

  /** As Linked, except that item sits between positions k and k + 1. */
  ghost predicate LinkedAround(s: seq<ListItem>, k: nat, item: ListItem)
    requires k < |s|
    reads s, item
  {
    && (forall j {:trigger s[j].next} :: 0 <= j < |s| && j != k ==> s[j].next == s[Succ(j, |s|)])
    && (forall j {:trigger s[j].prev} :: 0 <= j < |s| && j != Succ(k, |s|) ==> s[j].prev == s[Pred(j, |s|)])
    && s[k].next == item && item.next == s[Succ(k, |s|)]
    && item.prev == s[k] && s[Succ(k, |s|)].prev == item
  }

  method WriteLinks(item: ListItem, before: ListItem, list: List, ghost s: seq<ListItem>, ghost k: nat)
    requires Linked(s) && Distinct(s) && item !in s && k < |s| && s[k] == before
    modifies s, item
    ensures LinkedAround(s, k, item)
    ensures item.value == old(item.value) && item.container == list
    ensures forall i :: 0 <= i < |s| ==> s[i].value == old(s[i].value) && s[i].container == old(s[i].container)
  {
    var after := before.next;
    item.next := after;
    after.prev := item;
    item.prev := before;
    before.next := item;
    item.container := list;
  }

  /** Links of a ring after a node has been put behind position k. */
  lemma InsertedRing(s: seq<ListItem>, k: nat, item: ListItem)
    requires k < |s| && Distinct(s) && item !in s && LinkedAround(s, k, item)
    ensures Distinct(InsertAt(s, k + 1, item)) && Linked(InsertAt(s, k + 1, item))
  {
    var r, n := InsertAt(s, k + 1, item), |s|;
    hide InsertAt;
    forall i | 0 <= i < |r|
      ensures r[i].next == r[Succ(i, |r|)]
    {
      if i < k {
        assert s[i].next == s[i + 1];
      } else if i > k + 1 {
        assert s[i - 1].next == s[Succ(i - 1, n)];
      }
    }
    forall i | 0 <= i < |r|
      ensures r[i].prev == r[Pred(i, |r|)]
    {
      if i <= k {
        if i != Succ(k, n) {
          assert s[i].prev == s[Pred(i, n)];
        }
      } else if i > k + 2 {
        assert s[i - 1].prev == s[i - 2];
      }
    }
  }

  // ----- the list -----

  class List {
    var count: nat
    var index: ListItem
    const end: ListItem

    /** The marker and the items behind it, and the position of index among them. */
    ghost var ring: seq<ListItem>
    ghost var at: nat

    ghost predicate Valid()
      reads this, ring
    {
      && ring != [] && ring[0] == end && Distinct(ring)
      && count == |ring| - 1
      && at < |ring| && ring[at] == index
      && end.value == MAX_DELAY
      && Linked(ring)
      && (forall i :: 1 <= i < |ring| ==> ring[i].container == this)
    }

    ghost function Items(): seq<ListItem>
      reads this
      requires ring != []
    {
      ring[1..]
    }

    /** The order in which listGET_OWNER_OF_NEXT_ENTRY will return the items. */
    ghost function Visit(): seq<ListItem>
      reads this
      requires at < |ring|
    {
      VisitFrom(ring, at)
    }

    /** The visiting order once item is inserted at the end: only the item that index points at comes after it. */
    ghost function VisitWithEnd(item: ListItem): seq<ListItem>
      reads this
      requires at < |ring|
    {
      if at == 0 then Visit() + [item] else InsertAt(Visit(), |ring| - 2, item)
    }

    ghost function Values(): (r: seq<U32>)
      reads this, ring
      requires ring != []
      ensures |r| == |ring| - 1
    {
      seq(|ring| - 1, i requires 0 <= i < |ring| - 1 reads this, ring => ring[i + 1].value)
    }

    /** vListInitialise. */
    constructor ()
      ensures Valid() && Items() == [] && fresh(end)
    {
      var e := new ListItem(0, MAX_DELAY);
      end := e;
      index := e;
      count := 0;
      ring, at := [e], 0;
      new;
      end.next, end.prev := end, end;
    }

    /** The link writes shared by both insertions: item goes behind position k. */
    method Link(item: ListItem, before: ListItem, ghost k: nat)
      requires Valid() && item !in ring && k < |ring| && ring[k] == before
      modifies this, ring, item
      ensures ring == InsertAt(old(ring), k + 1, item)
      ensures index == old(index) && at == if old(at) <= k then old(at) else old(at) + 1
      ensures Valid()
      ensures item.value == old(item.value)
      ensures forall i :: 0 <= i < |old(ring)| ==> old(ring)[i].value == old(ring[i].value)
    {
      hide Linked;
      hide LinkedAround;
      hide Distinct;
      hide InsertAt;
      hide Succ;
      hide Pred;
      ghost var s := ring;
      WriteLinks(item, before, this, s, k);
      InsertedRing(s, k, item);
      count := count + 1;
      ring := InsertAt(s, k + 1, item);
      at := if at <= k then at else at + 1;
      assert ring[0] == s[0] && ring[at] == index;
      assert forall i :: 1 <= i < |s| ==> s[i].container == this;
    }

    /** vListInsertEnd: the item is visited after every other item except the one index points at. */
    method InsertEnd(item: ListItem)
      requires Valid() && item !in ring
      modifies this, ring, item
      ensures Valid() && index == old(index)
      ensures Visit() == old(VisitWithEnd(item))
      ensures forall x :: x in ring <==> x in old(ring) || x == item
      ensures item.value == old(item.value)
      ensures forall i :: 0 <= i < |old(ring)| ==> old(ring)[i].value == old(ring[i].value)
    {
      ghost var s, a := ring, at;
      var before := index.prev;
      assert s[a].prev == s[Pred(a, |s|)];
      Link(item, before, Pred(a, |s|));
      EndIsLast(s, a, item);
      InsertMember(s, Pred(a, |s|) + 1, item);
    }

    /** The search of vListInsert: the last item whose value does not exceed v, or the marker. */
    method FindSpot(v: U32) returns (spot: ListItem, ghost k: nat)
      requires Valid()
      ensures k == Place(Values(), v) && k < |ring| && spot == ring[Place(Values(), v)]
    {
      ghost var n, vs := |ring|, Values();
      if v == MAX_DELAY {
        assert ring[0].prev == ring[n - 1];
        spot := end.prev;
        k := n - 1;
      } else {
        spot := end;
        k := 0;
        assert ring[k].next == ring[Succ(k, n)];
        while spot.next.value <= v
          invariant k < n && ring[k] == spot && ring[k].next == ring[Succ(k, n)]
          invariant forall i :: 0 <= i < k ==> vs[i] <= v
          decreases n - k
        {
          spot := spot.next;
          k := k + 1;
          assert ring[k].next == ring[Succ(k, n)];
        }
      }
      PlaceAt(vs, v, k);
    }

    /** vListInsert: in value order, behind items of the same value. */
    method Insert(item: ListItem)
      requires Valid() && item !in ring
      modifies this, ring, item
      ensures Valid() && index == old(index)
      ensures item.value == old(item.value)
      ensures Items() == InsertAt(old(Items()), Place(old(Values()), item.value), item)
      ensures Values() == InsertAt(old(Values()), Place(old(Values()), item.value), item.value)
      ensures SortedValues(old(Values())) ==> SortedValues(Values())
    {
      hide Linked;
      hide Distinct;
      hide Place;
      hide SortedValues;
      var v := item.value;
      ghost var s, vs := ring, Values();
      var spot; ghost var k;
      spot, k := FindSpot(v);
      Link(item, spot, k);
      assert Items() == InsertAt(s[1..], k, item);
      assert Values() == InsertAt(vs, k, v);
      PlaceSorted(vs, v);
    }

    /** Bypasses the item at position k and steps the index back if it pointed there. */
    method UnlinkAt(item: ListItem, ghost k: nat)
      requires Valid() && 0 < k < |ring| && ring[k] == item
      modifies this, ring
      ensures Valid() && ring == RemoveAt(old(ring), k) && item !in ring && item.container == null
      ensures at == if old(at) < k then old(at) else old(at) - 1
      ensures count == old(count) - 1
      ensures forall i :: 0 <= i < |old(ring)| ==> old(ring)[i].value == old(ring[i].value)
    {
      hide Distinct;
      hide RemoveAt;
      hide Linked;
      hide LinkedPast;
      ghost var s := ring;
      SpotIsUnique(s, at, k);
      CutLinks(item, s, k);
      CutRing(s, k);
      if index == item {
        index := item.prev;
      }
      item.container := null;
      count := count - 1;
      ring := RemoveAt(s, k);
      at := if at < k then at else at - 1;
    }

    /** uxListRemove, on the list the item is in. */
    method Unlink(item: ListItem) returns (left: nat, ghost k: nat)
      requires Valid() && item in ring && item != end
      modifies this, ring
      ensures Valid() && left == count == old(count) - 1
      ensures item.container == null
      ensures forall x :: x in ring <==> x in old(ring) && x != item
      ensures Visit() == Without(old(Visit()), item)
      ensures k < |old(Items())| && old(Items())[k] == item && Items() == RemoveAt(old(Items()), k)
      ensures forall i :: 0 <= i < |old(ring)| ==> old(ring)[i].value == old(ring[i].value)
    {
      ghost var s, a := ring, at;
      k :| k < |ring| && ring[k] == item;
      RemovedVisit(s, a, k);
      RemoveMember(s, k);
      assert s[1..][k - 1] == item && RemoveAt(s, k)[1..] == RemoveAt(s[1..], k - 1);
      UnlinkAt(item, k);
      left := count;
      k := k - 1;
      hide *;
    }

    /** listGET_OWNER_OF_NEXT_ENTRY: the front of the visiting order, which is then rotated. */
    method NextEntry() returns (owner: nat)
      requires Valid() && count > 0
      modifies this
      ensures Valid() && ring == old(ring)
      ensures index == old(Visit())[0] && owner == index.owner
      ensures Visit() == old(Visit())[1..] + [old(Visit())[0]]
    {
      ghost var a := at;
      assert ring[at].next == ring[Succ(at, |ring|)];
      index := index.next;
      at := Succ(at, |ring|);
      if index == end {
        assert ring[0].next == ring[1];
        index := index.next;
        at := 1;
      }
      owner := index.owner;
      RotatedVisit(ring, a, at);
    }
  }

  // ----- choosing the next task -----

  /** v after k of its elements have been visited. */
  ghost function Rotated<T>(v: seq<T>, k: nat): seq<T>
    requires k <= |v|
  {
    v[k..] + v[..k]
  }

  /** One more step of a round; after a whole round the order is the old one. */
  lemma RotatedEnds<T>(s: seq<T>)
    ensures Rotated(s, 0) == s && Rotated(s, |s|) == s
  {
  }

  lemma RotateOnce<T>(v: seq<T>, k: nat)
    requires k < |v|
    ensures Rotated(v, k)[0] == v[k]
    ensures Rotated(v, k)[1..] + [Rotated(v, k)[0]] == Rotated(v, k + 1)
    ensures Rotated(v, |v|) == v
  {
  }

  /** A list whose nodes did not change is as valid as it was. */
  twostate lemma ListStands(l: List)
    requires old(l.Valid()) && unchanged(l) && forall x :: x in l.ring ==> unchanged(x)
    ensures l.Valid() && l.ring == old(l.ring)
  {
    forall i | 0 <= i < |l.ring|
      ensures unchanged(l.ring[i])
    {
      assert l.ring[i] in l.ring;
    }
  }

  ghost predicate Apart<T>(a: seq<T>, b: seq<T>) { forall x :: x in a ==> x !in b }

  /** One of two rings that are apart has gained an item, or lost one. */
  lemma StillApart<T>(a: seq<T>, b: seq<T>, r: seq<T>, item: T)
    requires Apart(a, b)
    requires forall x :: x in r ==> x in a || (x == item && item !in b)
    ensures Apart(r, b) && Apart(b, r)
  {
  }

  /** The ready lists, one per priority, and the highest priority that may be occupied. */
  class ReadyLists {
    const lists: seq<List>
    var top: nat
    /** The end markers and the state list items of all ready tasks. */
    ghost var nodes: set<ListItem>

    ghost predicate Valid()
      reads this, lists, nodes
    {
      && (forall p :: 0 <= p < |lists| ==> (forall i :: i in lists[p].ring ==> i in nodes) && lists[p].Valid())
      && (forall p, q ::
        0 <= p < |lists| && 0 <= q < |lists| && p != q ==> lists[p] != lists[q] && Apart(lists[p].ring, lists[q].ring))
      && top < |lists|
      && (forall p :: top < p < |lists| ==> lists[p].count == 0)
    }

    /** The highest priority of a ready task. */
    ghost predicate IsHighest(priority: nat)
      reads lists
    {
      && priority < |lists| && lists[priority].count > 0
      && forall p :: priority < p < |lists| ==> lists[p].count == 0
    }

    /** Some task is ready, as the idle task always is. */
    ghost predicate Occupied()
      reads lists
    {
      exists p :: 0 <= p < |lists| && lists[p].count > 0
    }

    /** prvInitialiseTaskLists, for the ready lists: all are empty. */
    constructor (priorities: nat)
      requires priorities > 0
      ensures Valid() && |lists| == priorities && !Occupied()
      ensures fresh(nodes) && forall p :: 0 <= p < |lists| ==> fresh(lists[p])
    {
      var s: seq<List> := [];
      ghost var ends: set<ListItem> := {};
      while |s| < priorities
        invariant |s| <= priorities
          && forall p :: 0 <= p < |s| ==> fresh(s[p]) && s[p].Valid() && s[p].ring == [s[p].end]
        invariant forall p :: 0 <= p < |s| ==> s[p].end in ends
        invariant forall p, q :: 0 <= p < q < |s| ==> s[p] != s[q] && s[p].end != s[q].end
        invariant fresh(ends)
      {
        var l := new List();
        assert l.ring == [l.end];
        ends := ends + {l.end};
        s := s + [l];
      }
      lists, top, nodes := s, 0, ends;
    }

    /** prvAddTaskToReadyList: taskRECORD_READY_PRIORITY, then to the end of the list of the priority. */
    method MakeReady(item: ListItem, priority: nat)
      requires Valid() && priority < |lists| && item !in nodes
      modifies this, lists, nodes, item
      ensures Valid() && nodes == old(nodes) + {item} && top == if priority > old(top) then priority else old(top)
      ensures lists[priority].Visit() == old(lists[priority].VisitWithEnd(item))
      ensures forall p :: 0 <= p < |lists| && p != priority ==> unchanged(lists[p])
    {
      hide Linked;
      hide Distinct;
      hide InsertAt;
      hide VisitFrom;
      hide List.Visit;
      hide List.VisitWithEnd;
      if priority > top {
        top := priority;
      }
      assert forall p :: 0 <= p < |lists| ==> lists[p].Valid();
      lists[priority].InsertEnd(item);
      nodes := nodes + {item};
      forall p | 0 <= p < |lists| && p != priority
        ensures lists[p].Valid() && unchanged(lists[p])
        ensures Apart(lists[p].ring, lists[priority].ring) && Apart(lists[priority].ring, lists[p].ring)
      {
        assert old(Apart(lists[p].ring, lists[priority].ring)) && lists[p] != lists[priority];
        ListStands(lists[p]);
        StillApart(old(lists[priority].ring), lists[p].ring, lists[priority].ring, item);
      }
    }

    /** uxListRemove of a ready task's item, which blocks, suspends or changes its priority. */
    method Unready(item: ListItem, priority: nat) returns (left: nat)
      requires Valid() && priority < |lists| && item in lists[priority].ring && item != lists[priority].end
      modifies this, lists, nodes
      ensures Valid() && nodes == old(nodes) - {item} && top == old(top)
      ensures left == lists[priority].count == old(lists[priority].count) - 1
      ensures lists[priority].Visit() == Without(old(lists[priority].Visit()), item)
      ensures forall p :: 0 <= p < |lists| && p != priority ==> unchanged(lists[p])
    {
      hide Linked;
      hide Distinct;
      hide VisitFrom;
      hide Without;
      ghost var k;
      assert forall p :: 0 <= p < |lists| ==> lists[p].Valid();
      left, k := lists[priority].Unlink(item);
      nodes := nodes - {item};
      forall p | 0 <= p < |lists| && p != priority
        ensures lists[p].Valid() && unchanged(lists[p])
        ensures Apart(lists[p].ring, lists[priority].ring) && Apart(lists[priority].ring, lists[p].ring)
      {
        assert old(Apart(lists[p].ring, lists[priority].ring)) && lists[p] != lists[priority];
        ListStands(lists[p]);
        StillApart(old(lists[priority].ring), lists[p].ring, lists[priority].ring, item);
      }
    }

    /** taskSELECT_HIGHEST_PRIORITY_TASK: a ready task of maximal priority, the next one in its list. */
    method Select() returns (owner: nat, ghost priority: nat)
      requires Valid() && Occupied()
      modifies this, lists
      ensures Valid() && old(IsHighest(priority)) && IsHighest(priority) && nodes == old(nodes) && top == priority
      ensures lists[priority].ring == old(lists[priority].ring)
      ensures owner == old(lists[priority].Visit())[0].owner
      ensures lists[priority].Visit() == old(lists[priority].Visit())[1..] + [old(lists[priority].Visit())[0]]
      ensures forall p :: 0 <= p < |lists| && p != priority ==> unchanged(lists[p])
    {
      assert forall p :: 0 <= p < |lists| ==> lists[p].Valid();
      hide Linked;
      hide Distinct;
      hide VisitFrom;
      var uxTop: nat := top;
      while lists[uxTop].count == 0
        invariant uxTop < |lists| && Occupied()
        invariant forall p :: uxTop < p < |lists| ==> lists[p].count == 0
        decreases uxTop
      {
        uxTop := uxTop - 1;
      }
      priority := uxTop;
      owner := lists[uxTop].NextEntry();
      top := uxTop;
    }

    /** n switches in a row, with no other change to the ready lists, give every peer one turn. */
    method Round(ghost priority: nat, n: nat) returns (owners: seq<nat>)
      requires Valid() && IsHighest(priority) && n == lists[priority].count
      modifies this, lists
      ensures Valid() && IsHighest(priority)
      ensures |owners| == n && forall k :: 0 <= k < n ==> owners[k] == old(lists[priority].Visit())[k].owner
      ensures lists[priority].Visit() == old(lists[priority].Visit())
    {
      owners := [];
      ghost var v := lists[priority].Visit();
      RotatedEnds(v);
      hide Rotated;
      for k := 0 to n
        invariant Valid() && IsHighest(priority) && nodes == old(nodes)
          && lists[priority].ring == old(lists[priority].ring)
        invariant |v| == n && lists[priority].Visit() == Rotated(v, k)
        invariant |owners| == k && forall j :: 0 <= j < k ==> owners[j] == v[j].owner
      {
        RotateOnce(v, k);
        var owner; ghost var chosen;
        owner, chosen := Select();
        owners := owners + [owner];
      }
    }
  }
}
