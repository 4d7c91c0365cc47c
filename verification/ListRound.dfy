/**
 * A round of the list benchmark: the searches that reverse the list and move nodes to its front, the
 * sort by value, a node removed and put back, and the sort by index that is to restore the list.
 */
module ListRound {
  import opened Basics
  import opened SortedRuns
  import opened ListSort
  import opened ListBench

  // ----- searching -----

  /** A node that core_list_find stops at: by index, or by low byte if the index is negative. */
  predicate Wanted(x: Datum, idx: int, low: nat) { if idx >= 0 then x.idx == idx else x.data16 % 0x100 == low }

  /** The first such node of s, or |s|. */
  ghost function FirstMatch(s: seq<ListHead>, d: map<ListHead, Datum>, idx: int, low: nat): (k: nat)
    requires forall n :: n in s ==> n in d
    ensures k <= |s| && (k < |s| ==> Wanted(d[s[k]], idx, low))
    ensures forall j :: 0 <= j < k ==> !Wanted(d[s[j]], idx, low)
  {
    if s == [] || Wanted(d[s[0]], idx, low) then 0 else 1 + FirstMatch(s[1..], d, idx, low)
  }

  /** core_list_find. */
  method Find(list: ListHead?, idx: int, low: nat, ghost s: seq<ListHead>, ghost d: Book<ListHead>)
    returns (found: ListHead?)
    requires IsList(s, list) && Mirrors(d) && forall n :: n in s ==> n in d.data
    ensures var k := FirstMatch(s, d.data, idx, low); found == if k < |s| then s[k] else null
    ensures found != null ==>
      found in s && if idx >= 0 then d.data[found].idx == idx else d.data[found].data16 % 0x100 == low
    ensures found == null ==> forall n :: n in s ==>
      if idx >= 0 then d.data[n].idx != idx else d.data[n].data16 % 0x100 != low
  {
    found := list;
    ghost var j := 0;
    while found != null && !Wanted(found.info.Value(), idx, low)
      invariant j <= |s| && found == (if j < |s| then s[j] else null)
      invariant FirstMatch(s, d.data, idx, low) == j + FirstMatch(s[j..], d.data, idx, low)
      decreases |s| - j
    {
      assert s[j] in s && s[j..][1..] == s[j + 1..];
      assert j < |s| - 1 ==> s[j].next == s[j + 1];
      found := found.next;
      j := j + 1;
    }
  }

  // ----- reversing and moving to the front -----

  /** core_list_reverse. */
  method ReverseList(list0: ListHead?, ghost s: seq<ListHead>) returns (list: ListHead?)
    requires IsList(s, list0) && Distinct(s)
    modifies s`next
    ensures IsList(Reverse(s), list)
  {
    list := null;
    var rest := list0;
    ghost var i := 0;
    while rest != null
      invariant i <= |s| && rest == (if i < |s| then s[i] else null) && list == (if i > 0 then s[i - 1] else null)
      invariant forall j {:trigger s[j].next} :: 0 <= j < i ==> s[j].next == if j > 0 then s[j - 1] else null
      invariant forall j {:trigger s[j].next} :: i <= j < |s| ==> s[j].next == if j < |s| - 1 then s[j + 1] else null
      decreases |s| - i
    {
      assert s[i] in s;
      var tmp := rest.next;
      rest.next := list;
      list := rest;
      rest := tmp;
      i := i + 1;
    }
    LinkedBack(s);
  }

  /** A list whose nodes point to the one before is linked in reverse. */
  lemma LinkedBack(s: seq<ListHead>)
    requires forall j {:trigger s[j].next} :: 0 <= j < |s| ==> s[j].next == if j > 0 then s[j - 1] else null
    ensures IsList(Reverse(s), if s == [] then null else s[|s| - 1])
  {
    var r := Reverse(s);
    forall i | 0 <= i < |r| - 1
      ensures r[i].next == r[i + 1]
    {
      assert s[|s| - 1 - i].next == s[|s| - 2 - i];
    }
  }

  lemma {:induction false} ReverseKeeps<T>(s: seq<T>)
    ensures multiset(Reverse(s)) == multiset(s) && forall x :: x in Reverse(s) <==> x in s
  {
    if s != [] {
      ReverseKeeps(s[1..]);
      assert s == [s[0]] + s[1..];
    }
  }

  /** s with the node behind position k moved behind the first one, if there is one behind k. */
  function Moved<T>(s: seq<T>, k: nat): (r: seq<T>)
    requires k < |s|
    ensures |r| == |s|
  {
    if k + 1 < |s| then [s[0], s[k + 1]] + s[1..k + 1] + s[k + 2..] else s
  }

  lemma MovedKeeps<T>(s: seq<T>, k: nat)
    requires k < |s|
    ensures multiset(Moved(s, k)) == multiset(s)
  {
    if k + 1 < |s| {
      FourParts(s, k);
      hide Moved;
    }
  }

  lemma FourParts<T>(s: seq<T>, k: nat)
    requires k + 1 < |s|
    ensures multiset(s) == multiset{s[0]} + multiset(s[1..k + 1]) + multiset{s[k + 1]} + multiset(s[k + 2..])
    ensures multiset(Moved(s, k)) == multiset{s[0]} + multiset{s[k + 1]} + multiset(s[1..k + 1]) + multiset(s[k + 2..])
  {
    assert s == [s[0]] + s[1..k + 1] + [s[k + 1]] + s[k + 2..];
    assert Moved(s, k) == [s[0]] + [s[k + 1]] + s[1..k + 1] + s[k + 2..];
  }

  lemma MovedAt<T>(s: seq<T>, k: nat, i: nat)
    requires k + 1 < |s| && i < |s|
    ensures Moved(s, k)[i] == if i == 0 then s[0] else if i == 1 then s[k + 1] else if i <= k + 1 then s[i - 1]
      else s[i]
  {
  }

  /** The node behind the one that was found goes behind the head of the list. */
  method MoveToFront(list: ListHead, found: ListHead, ghost s: seq<ListHead>, ghost k: nat)
    requires IsList(s, list) && Distinct(s) && k < |s| && s[k] == found
    modifies s`next
    ensures IsList(Moved(s, k), list)
  {
    hide Moved;
    assert k < |s| - 1 ==> s[k].next == s[k + 1];
    if found.next != null {
      var finder := found.next;
      assert k + 1 < |s| - 1 ==> s[k + 1].next == s[k + 2];
      assert s[0].next == s[1];
      ghost var r := Moved(s, k);
      found.next := finder.next;
      finder.next := list.next;
      list.next := finder;
      forall i | 0 <= i < |r| - 1
        ensures r[i].next == r[i + 1]
      {
        MovedAt(s, k, i);
        MovedAt(s, k, i + 1);
        if i >= k + 2 {
          assert old(s[i].next) == s[i + 1];
        } else if 2 <= i <= k {
          assert old(s[i - 1].next) == s[i];
        }
      }
      MovedAt(s, k, 0);
      MovedAt(s, k, |s| - 1);
    } else {
      AtTheEnd(s, k);
    }
  }

  lemma AtTheEnd<T>(s: seq<T>, k: nat)
    requires k + 1 == |s|
    ensures Moved(s, k) == s
  {
  }

  // ----- the searches of a round -----

  /** The ++ of a 16-bit signed index. */
  function Bumped(idx: int): int { if idx < 0 then idx else if idx == 0x7fff then -0x8000 else idx + 1 }

  /** One search: the list is reversed, and the node behind the one found is moved. */
  ghost function Searched(s: seq<ListHead>, d: map<ListHead, Datum>, idx: int, low: nat): (r: seq<ListHead>)
    requires forall n :: n in s ==> n in d
    ensures multiset(r) == multiset(s)
  {
    ReverseKeeps(s);
    var k, back := FirstMatch(s, d, idx, low), Reverse(s);
    if k == |s| then back else MovedKeeps(back, |s| - 1 - k); Moved(back, |s| - 1 - k)
  }

  /**
   * What a search does to the order. If no node is found, or the first one is, the list is reversed.
   * Else the node in front of the one found, which is behind it in the reversed list, goes to second place.
   */
  lemma SearchedMeans(s: seq<ListHead>, d: map<ListHead, Datum>, idx: int, low: nat, k: nat)
    requires s != [] && (forall n :: n in s ==> n in d) && k <= |s|
    requires (forall j :: 0 <= j < k ==> !Wanted(d[s[j]], idx, low)) && (k < |s| ==> Wanted(d[s[k]], idx, low))
    ensures Searched(s, d, idx, low) ==
      if k == 0 || k == |s| then Reverse(s)
      else [s[|s| - 1], s[k - 1]] + Reverse(s[k..|s| - 1]) + Reverse(s[..k - 1])
  {
    hide *;
    SearchedAt(s, d, idx, low, k);
    if k < |s| {
      MovedBack(s, k);
    }
  }

  lemma FirstMatchIs(s: seq<ListHead>, d: map<ListHead, Datum>, idx: int, low: nat, k: nat)
    requires (forall n :: n in s ==> n in d) && k <= |s|
    requires (forall j :: 0 <= j < k ==> !Wanted(d[s[j]], idx, low)) && (k < |s| ==> Wanted(d[s[k]], idx, low))
    ensures FirstMatch(s, d, idx, low) == k
  {
    hide FirstMatch;
    hide Wanted;
  }

  lemma SearchedBy(s: seq<ListHead>, d: map<ListHead, Datum>, idx: int, low: nat)
    requires forall n :: n in s ==> n in d
    ensures var k := FirstMatch(s, d, idx, low);
      Searched(s, d, idx, low) == if k == |s| then Reverse(s) else Moved(Reverse(s), |s| - 1 - k)
  {
    hide FirstMatch;
    hide Wanted;
    hide Reverse;
    hide Moved;
  }

  lemma SearchedAt(s: seq<ListHead>, d: map<ListHead, Datum>, idx: int, low: nat, k: nat)
    requires (forall n :: n in s ==> n in d) && k <= |s|
    requires (forall j :: 0 <= j < k ==> !Wanted(d[s[j]], idx, low)) && (k < |s| ==> Wanted(d[s[k]], idx, low))
    ensures Searched(s, d, idx, low) == if k == |s| then Reverse(s) else Moved(Reverse(s), |s| - 1 - k)
  {
    hide *;
    FirstMatchIs(s, d, idx, low, k);
    SearchedBy(s, d, idx, low);
  }

  lemma MovedBack<T>(s: seq<T>, k: nat)
    requires k < |s|
    ensures Moved(Reverse(s), |s| - 1 - k) ==
      if k == 0 then Reverse(s) else [s[|s| - 1], s[k - 1]] + Reverse(s[k..|s| - 1]) + Reverse(s[..k - 1])
  {
    hide *;
    if k == 0 {
      AtTheEnd(Reverse(s), |s| - 1);
    } else {
      SplitAround(s, k);
      ReverseFour(s[..k - 1], s[k - 1], s[k..|s| - 1], s[|s| - 1]);
      MovedParts(s[|s| - 1], Reverse(s[k..|s| - 1]), s[k - 1], Reverse(s[..k - 1]));
    }
  }

  lemma SplitAround<T>(s: seq<T>, k: nat)
    requires 0 < k < |s|
    ensures s == s[..k - 1] + [s[k - 1]] + s[k..|s| - 1] + [s[|s| - 1]]
  {
  }

  lemma ReverseFour<T>(a: seq<T>, x: T, b: seq<T>, y: T)
    ensures Reverse(a + [x] + b + [y]) == [y] + Reverse(b) + [x] + Reverse(a)
  {
    hide *;
    ReverseJoin(a + [x] + b, [y]);
    ReverseJoin(a + [x], b);
    ReverseJoin(a, [x]);
    ReverseOne(x);
    ReverseOne(y);
    assert [y] + (Reverse(b) + ([x] + Reverse(a))) == [y] + Reverse(b) + [x] + Reverse(a);
  }

  lemma ReverseOne<T>(x: T)
    ensures Reverse([x]) == [x]
  {
  }

  lemma MovedParts<T>(y: T, b: seq<T>, x: T, a: seq<T>)
    ensures Moved([y] + b + [x] + a, |b|) == [y, x] + b + a
  {
  }

  lemma {:induction false} ReverseJoin<T>(a: seq<T>, b: seq<T>)
    ensures Reverse(a + b) == Reverse(b) + Reverse(a)
  {
    if a == [] {
      assert a + b == b;
    } else {
      assert (a + b)[1..] == a[1..] + b;
      ReverseJoin(a[1..], b);
    }
  }

  /** Searches number i to n. */
  ghost function AfterSearches(s: seq<ListHead>, d: map<ListHead, Datum>, idx: int, i: nat, n: int): (r: seq<ListHead>)
    requires forall x :: x in s ==> x in d
    ensures multiset(r) == multiset(s)
    decreases n - i
  {
    if i >= n then s
    else
      var t := Searched(s, d, idx, i % 0x100);
      SameNodes(s, t);
      AfterSearches(t, d, Bumped(idx), i + 1, n)
  }

  /** The index that is looked for after m searches: a negative one stays, any other counts up until it wraps. */
  function IndexAfter(idx: int, m: nat): int {
    if idx < 0 then idx else if idx + m <= 0x7fff then idx + m else -0x8000
  }

  /** One search more, of the order that the searches before have left, for the index and low byte of its number. */
  lemma {:induction false} OneSearchMore(s: seq<ListHead>, d: map<ListHead, Datum>, idx: int, i: nat, m: nat)
    requires (forall x :: x in s ==> x in d) && idx <= 0x7fff
    ensures var t := AfterSearches(s, d, idx, i, i + m);
      && (forall x :: x in t ==> x in d)
      && AfterSearches(s, d, idx, i, i + m + 1) == Searched(t, d, IndexAfter(idx, m), (i + m) % 0x100)
    decreases m
  {
    hide *;
    NoSearches(s, d, idx, i, i);
    var t := Searched(s, d, idx, i % 0x100);
    SearchedStays(s, d, idx, i % 0x100);
    FirstSearch(s, t, d, idx, i, i + m + 1);
    if m == 0 {
      NoSearches(t, d, Bumped(idx), i + 1, i + 1);
      assert IndexAfter(idx, 0) == idx by { StartsThere(idx); }
    } else {
      FirstSearch(s, t, d, idx, i, i + m);
      CountsOn(idx, m);
      OneSearchMore(t, d, Bumped(idx), i + 1, m - 1);
    }
  }

  lemma FirstSearch(s: seq<ListHead>, t: seq<ListHead>, d: map<ListHead, Datum>, idx: int, i: nat, n: int)
    requires (forall x :: x in s ==> x in d) && (forall x :: x in t ==> x in d) && i < n
    requires t == Searched(s, d, idx, i % 0x100)
    ensures AfterSearches(s, d, idx, i, n) == AfterSearches(t, d, Bumped(idx), i + 1, n)
  {
    hide Searched;
    hide Bumped;
  }

  lemma SearchedStays(s: seq<ListHead>, d: map<ListHead, Datum>, idx: int, low: nat)
    requires forall x :: x in s ==> x in d
    ensures forall x :: x in Searched(s, d, idx, low) ==> x in d
  {
    SameNodes(s, Searched(s, d, idx, low));
    hide *;
  }

  lemma StartsThere(idx: int)
    requires idx <= 0x7fff
    ensures IndexAfter(idx, 0) == idx
  {
  }

  lemma CountsOn(idx: int, m: nat)
    requires idx <= 0x7fff && m > 0
    ensures Bumped(idx) <= 0x7fff && IndexAfter(Bumped(idx), m - 1) == IndexAfter(idx, m)
  {
  }

  /** No search from number i to n finds a node. */
  ghost predicate NothingFound(s: seq<ListHead>, d: map<ListHead, Datum>, idx: int, i: nat, n: int)
    requires forall x :: x in s ==> x in d
    decreases n - i
  {
    i < n ==> (forall x :: x in s ==> !Wanted(d[x], idx, i % 0x100)) && NothingFound(s, d, Bumped(idx), i + 1, n)
  }

  /** Searches that find nothing reverse the list each time. */
  lemma {:induction false} FruitlessSearches(s: seq<ListHead>, d: map<ListHead, Datum>, idx: int, i: nat, n: int)
    requires (forall x :: x in s ==> x in d) && NothingFound(s, d, idx, i, n)
    ensures AfterSearches(s, d, idx, i, n) == if i < n && (n - i) % 2 == 1 then Reverse(s) else s
    decreases n - i
  {
    hide *;
    if i < n {
      var t := Reverse(s);
      ReverseKeeps(s);
      FruitlessStep(s, d, idx, i, n);
      FruitlessSearches(t, d, Bumped(idx), i + 1, n);
      TwiceReversed(s);
    } else {
      NoSearches(s, d, idx, i, n);
    }
  }

  lemma FruitlessStep(s: seq<ListHead>, d: map<ListHead, Datum>, idx: int, i: nat, n: int)
    requires (forall x :: x in s ==> x in d) && (forall x :: x in Reverse(s) ==> x in d)
    requires NothingFound(s, d, idx, i, n) && i < n
    ensures NothingFound(Reverse(s), d, Bumped(idx), i + 1, n)
    ensures AfterSearches(s, d, idx, i, n) == AfterSearches(Reverse(s), d, Bumped(idx), i + 1, n)
  {
    hide Searched;
    hide Reverse;
    hide Wanted;
    hide Bumped;
    ReverseKeeps(s);
    SearchedNothing(s, d, idx, i % 0x100);
    NothingFoundBack(s, Reverse(s), d, Bumped(idx), i + 1, n);
  }

  lemma NoSearches(s: seq<ListHead>, d: map<ListHead, Datum>, idx: int, i: nat, n: int)
    requires (forall x :: x in s ==> x in d) && i >= n
    ensures AfterSearches(s, d, idx, i, n) == s
  {
  }

  lemma SearchedNothing(s: seq<ListHead>, d: map<ListHead, Datum>, idx: int, low: nat)
    requires forall x :: x in s ==> x in d && !Wanted(d[x], idx, low)
    ensures Searched(s, d, idx, low) == Reverse(s)
  {
    if s != [] {
      assert forall j :: 0 <= j < |s| ==> s[j] in s;
      SearchedMeans(s, d, idx, low, |s|);
    }
  }

  lemma TwiceReversed<T>(s: seq<T>)
    ensures Reverse(Reverse(s)) == s
  {
  }

  lemma {:induction false} NothingFoundBack(s: seq<ListHead>, t: seq<ListHead>, d: map<ListHead, Datum>,
                                            idx: int, i: nat, n: int)
    requires (forall x :: x in s ==> x in d) && (forall x :: x in t <==> x in s) && NothingFound(s, d, idx, i, n)
    ensures NothingFound(t, d, idx, i, n)
    decreases n - i
  {
    if i < n {
      NothingFoundBack(s, t, d, Bumped(idx), i + 1, n);
    }
  }

  lemma SameNodes<T>(s: seq<T>, t: seq<T>)
    requires multiset(s) == multiset(t)
    ensures |s| == |t| && forall x :: x in t <==> x in s
  {
    assert |multiset(s)| == |s| && |multiset(t)| == |t|;
    assert forall x :: (x in t <==> x in multiset(t)) && (x in s <==> x in multiset(s));
  }

  /** Rearranging a list keeps its nodes distinct. */
  lemma PermutedList(s: seq<ListHead>, t: seq<ListHead>)
    requires Distinct(s) && multiset(t) == multiset(s)
    ensures Distinct(t) && |t| == |s| && Nodes(t) == Nodes(s)
    ensures (forall n :: n in t <==> n in s) && forall i :: 0 <= i < |t| ==> t[i] in s
  {
    SequenceIsUnique(s);
    SameNodes(s, t);
    forall i, j | 0 <= i < j < |t|
      ensures t[i] != t[j]
    {
      assert t == t[..j] + t[j..];
      assert t[i] in t[..j] && t[j] in t[j..];
      assert multiset(t)[t[i]] == 1;
    }
  }

  /** Relinking leaves the data alone. */
  twostate lemma StillMirrors(d: Book<ListHead>)
    requires old(Mirrors(d))
    requires forall n :: n in d.data ==> n.info == old(n.info) && n.info.Value() == old(n.info.Value())
    ensures Mirrors(d) && Infos(d) == old(Infos(d))
  {
  }

  lemma SameInfos(d: Book<ListHead>, e: Book<ListHead>)
    requires d.data.Keys == e.data.Keys
    ensures Infos(e) == Infos(d)
  {
  }

  lemma ListHasHead(s: seq<ListHead>, list: ListHead?)
    requires IsList(s, list) && s != []
    ensures list != null
  {
  }

  lemma SearchedIs(s: seq<ListHead>, d: map<ListHead, Datum>, idx: int, low: nat) returns (k: nat, back: seq<ListHead>)
    requires Distinct(s) && forall n :: n in s ==> n in d
    ensures k == FirstMatch(s, d, idx, low) && k <= |s| == |back| && back == Reverse(s)
    ensures Distinct(back) && (forall i :: 0 <= i < |back| ==> back[i] in s) && (k < |s| ==> back[|s| - 1 - k] == s[k])
    ensures Searched(s, d, idx, low) == if k == |s| then back else Moved(back, |s| - 1 - k)
  {
    hide Distinct;
    hide FirstMatch;
    hide Reverse;
    hide Moved;
    k, back := FirstMatch(s, d, idx, low), Reverse(s);
    ReverseKeeps(s);
    PermutedList(s, back);
  }

  /** One turn of the search loop. */
  method SearchOnce(list0: ListHead, idx: int, low: nat, ghost s: seq<ListHead>, ghost d: Book<ListHead>)
    returns (list: ListHead)
    requires |s| >= 2 && Distinct(s) && IsList(s, list0) && Mirrors(d) && forall n :: n in s ==> n in d.data
    modifies s`next
    ensures IsList(Searched(s, d.data, idx, low), list) && Mirrors(d) && Infos(d) == old(Infos(d))
  {
    hide *;
    ghost var k, back := SearchedIs(s, d.data, idx, low);
    var thisFind := Find(list0, idx, low, s, d);
    var head := ReverseList(list0, s);
    ListHasHead(back, head);
    list := head;
    if thisFind != null {
      MoveToFront(list, thisFind, back, |s| - 1 - k);
    }
    StillMirrors(d);
  }

  /** The searches of core_bench_list, which change the order of the list but not its nodes. */
  method Search(list0: ListHead, finderIdx: int, findNum: int, ghost s: seq<ListHead>, ghost d: Book<ListHead>)
    returns (list: ListHead)
    requires |s| >= 2 && Distinct(s) && IsList(s, list0) && Mirrors(d) && forall n :: n in s ==> n in d.data
    modifies s`next
    ensures IsList(AfterSearches(s, d.data, finderIdx, 0, findNum), list) && Mirrors(d) && Infos(d) == old(Infos(d))
  {
    hide Searched;
    hide Mirrors;
    hide Linked;
    hide Distinct;
    list := list0;
    var idx, i := finderIdx, 0;
    ghost var t := s;
    while i < findNum
      invariant 0 <= i && |t| >= 2 && Distinct(t) && IsList(t, list) && multiset(t) == multiset(s)
      invariant Mirrors(d) && Infos(d) == old(Infos(d))
      invariant (forall n :: n in t ==> n in d.data) && forall j :: 0 <= j < |t| ==> t[j] in s
      invariant AfterSearches(t, d.data, idx, i, findNum) == AfterSearches(s, d.data, finderIdx, 0, findNum)
    {
      ghost var u := Searched(t, d.data, idx, i % 0x100);
      PermutedList(t, u);
      SameNodes(s, u);
      list := SearchOnce(list, idx, i % 0x100, t, d);
      t := u;
      if idx >= 0 {
        idx := if idx == 0x7fff then -0x8000 else idx + 1;
      }
      i := i + 1;
    }
  }

  // ----- removing a node and putting it back -----

  /** s without its node k + 1. */
  ghost function Unlinked<T>(s: seq<T>, k: nat): seq<T>
    requires k + 1 < |s|
  {
    s[..k + 1] + s[k + 2..]
  }

  /**
   * core_list_remove: the node behind item is unlinked, after the two have swapped their data, so
   * that the data that leaves the list is that of item.
   */
  method Remove(item: ListHead, ghost list: ListHead?, ghost s: seq<ListHead>, ghost k: nat) returns (ret: ListHead)
    requires IsList(s, list) && Distinct(s) && k + 1 < |s| && s[k] == item
    modifies {item, s[k + 1]}
    ensures ret == s[k + 1] && ret.info == old(item.info) && item.info == old(ret.info)
    ensures IsList(Unlinked(s, k), list) && ret.next == null
  {
    assert s[k].next == s[k + 1];
    assert k + 2 < |s| ==> s[k + 1].next == s[k + 2];
    ret := item.next;
    item.info, ret.info := ret.info, item.info;
    item.next := item.next.next;
    ret.next := null;
    ghost var t := Unlinked(s, k);
    forall i | 0 <= i < |t| - 1
      ensures t[i].next == t[i + 1]
    {
      if i > k {
        assert s[i + 1].next == s[i + 2];
      } else if i < k {
        assert s[i].next == s[i + 1];
      }
    }
  }

  /** core_list_undo_remove: the removed node is linked in behind the modified one, and the data are swapped back. */
  method UndoRemove(itemRemoved: ListHead, itemModified: ListHead, ghost list: ListHead?, ghost s: seq<ListHead>,
                    ghost k: nat)
    returns (item: ListHead)
    requires Distinct(s) && k + 1 < |s| && s[k] == itemModified && s[k + 1] == itemRemoved
      && IsList(Unlinked(s, k), list)
    modifies {itemRemoved, itemModified}
    ensures itemRemoved.info == old(itemModified.info) && itemModified.info == old(itemRemoved.info)
    ensures item == itemRemoved && IsList(s, list)
  {
    ghost var t := Unlinked(s, k);
    assert t[k] == s[k] && (k + 1 < |t| ==> t[k].next == t[k + 1] == s[k + 2]);
    itemRemoved.info, itemModified.info := itemModified.info, itemRemoved.info;
    itemRemoved.next := itemModified.next;
    itemModified.next := itemRemoved;
    item := itemRemoved;
    forall i | 0 <= i < |s| - 1
      ensures s[i].next == s[i + 1]
    {
      if i > k + 1 {
        assert t[i - 1].next == t[i];
      } else if i < k {
        assert t[i].next == t[i + 1];
      }
    }
  }

  // ----- the two sorts -----

  /** Every datum is as written when the list was built. */
  ghost predicate Pristine(d: map<ListHead, Datum>) { forall n :: n in d ==> Restored(d[n]) }

  /** What sorting r by value leaves, or not sorting it: the data e and the list t. */
  ghost predicate ByValue(k: Kernels, sorts: bool, d: map<ListHead, Datum>, e: map<ListHead, Datum>, r: seq<ListHead>,
                          t: seq<ListHead>)
    requires Distinct(r)
  {
    && d.Keys == e.Keys == Nodes(r) && multiset(t) == multiset(r)
    && (forall n :: n in d ==> Becomes(k, d[n], e[n]))
    && if sorts then StablySorted(ValueOrder(k), Book(e, {}), r, t) && forall n :: n in e ==> Cached(e[n])
       else e == d && t == r
  }

  /** a is in front of b after the value sort, if there is one, of the arrangement r. */
  ghost predicate InFront(e: map<ListHead, Datum>, r: seq<ListHead>, sorts: bool, a: ListHead, b: ListHead)
    requires a in e && b in e && a in r && b in r && Distinct(r)
  {
    if sorts && Low7(e[a]) != Low7(e[b]) then Low7(e[a]) < Low7(e[b]) else Positions(r)[a] < Positions(r)[b]
  }

  lemma ByValuePlaces(k: Kernels, sorts: bool, d: map<ListHead, Datum>, e: map<ListHead, Datum>, r: seq<ListHead>,
                      t: seq<ListHead>, a: ListHead, b: ListHead)
    requires Distinct(r) && Distinct(t) && ByValue(k, sorts, d, e, r, t) && a in t && b in t && a != b
    ensures a in e && b in e && a in r && b in r
    ensures Positions(t)[a] < Positions(t)[b] <==> InFront(e, r, sorts, a, b)
  {
    hide Becomes;
    if sorts {
      PlacedBefore(ValueOrder(k), Book(e, {}), r, t, a, b);
    }
  }

  /** Restoring data whose backup byte never changed brings back the original data. */
  lemma RestoredData(k: Kernels, d: map<ListHead, Datum>, e: map<ListHead, Datum>, f: map<ListHead, Datum>)
    requires d.Keys == e.Keys == f.Keys && Pristine(d) && forall n :: n in d ==> Becomes(k, d[n], e[n])
    requires forall n :: n in d ==> RESTORING_ORDER.may(e[n], f[n]) && Restored(f[n])
    ensures f == d
  {
    forall n | n in d
      ensures f[n] == d[n]
    {
      BecomesKeeps(k, d[n], e[n]);
      hide Becomes;
    }
  }

  /**
   * Sorting any rearrangement t of s by index gives s back exactly if indices never decrease along
   * s and nodes with equal indices stand in t in the order of s.
   */
  lemma IndexOrderIsOriginal(e: Book<ListHead>, s: seq<ListHead>, t: seq<ListHead>, u: seq<ListHead>)
    requires Distinct(t) && multiset(t) == multiset(s) && StablySorted(RESTORING_ORDER, e, t, u)
    requires Distinct(s) && Known(e, Positions(t), s)
    ensures u == s <==> forall i, j :: 0 <= i < j < |s| ==>
      e.data[s[i]].idx < e.data[s[j]].idx
      || (e.data[s[i]].idx == e.data[s[j]].idx && Positions(t)[s[i]] < Positions(t)[s[j]])
  {
    SortGives(RESTORING_ORDER, e, s, t, u);
  }

  /** Along s indices never decrease, and nodes with equal indices come out of the value sort in the order of s. */
  ghost predicate InPlace(d: map<ListHead, Datum>, e: map<ListHead, Datum>, s: seq<ListHead>, r: seq<ListHead>,
                          sorts: bool)
    requires Distinct(r) && forall n :: n in s ==> n in d && n in e && n in r
  {
    forall i, j :: 0 <= i < j < |s| ==>
      d[s[i]].idx < d[s[j]].idx || (d[s[i]].idx == d[s[j]].idx && InFront(e, r, sorts, s[i], s[j]))
  }

  /** The order comes back exactly if the list is in place. */
  lemma BackIfInPlace(k: Kernels, sorts: bool, d: Book<ListHead>, e: map<ListHead, Datum>,
                      s: seq<ListHead>, r: seq<ListHead>, t: seq<ListHead>, u: seq<ListHead>)
    requires Distinct(s) && Distinct(r) && Distinct(t) && multiset(r) == multiset(s)
      && ByValue(k, sorts, d.data, e, r, t)
    requires StablySorted(RESTORING_ORDER, d, t, u) && forall n :: n in s ==> n in d.data && n in e && n in r && n in t
    ensures u == s <==> InPlace(d.data, e, s, r, sorts)
  {
    assert Known(d, Positions(t), s);
    IndexOrderIsOriginal(d, s, t, u);
    forall i, j | 0 <= i < j < |s|
      ensures Positions(t)[s[i]] < Positions(t)[s[j]] <==> InFront(e, r, sorts, s[i], s[j])
    {
      ByValuePlaces(k, sorts, d.data, e, r, t, s[i], s[j]);
    }
    hide ByValue;
    hide InFront;
    hide StablySorted;
  }

  /** What the value sort leaves for the rest of the round. */
  lemma ValuesCached(k: Kernels, d: Book<ListHead>, b: Book<ListHead>, r: seq<ListHead>, t: seq<ListHead>)
    requires |r| >= 2 && Distinct(r) && d.data.Keys == Nodes(r) && Evolves(ValueOrder(k), d, b)
    requires StablySorted(ValueOrder(k), b, r, t) && forall n :: n in r ==> Settled(ValueOrder(k), b, n)
    ensures ByValue(k, true, d.data, b.data, r, t) && (Mirrors(b) ==> Mirrors(b.(seen := {})))
  {
    hide Becomes;
    SameDataSorted(ValueOrder(k), b, Book(b.data, {}), r, t);
    hide Sorted;
    hide Positions;
  }

  /** if (finder_idx>0) the list is sorted by value. */
  method SortByValue(list0: ListHead, res: Results, k: Kernels, finderIdx: int, ghost r: seq<ListHead>,
                     ghost d: Book<ListHead>)
    returns (list: ListHead?, ghost t: seq<ListHead>, ghost e: Book<ListHead>)
    requires |r| >= 2 && Distinct(r) && IsList(r, list0)
    requires Mirrors(d) && d.data.Keys == Nodes(r) && d.seen == {}
    modifies r`next, Infos(d)`data16, Infos(d)`idx, res
    ensures IsList(t, list) && Mirrors(e) && e.seen == {} && ByValue(k, finderIdx > 0, d.data, e.data, r, t)
    ensures forall n :: n in d.data ==> n.info == old(n.info)
  {
    hide *;
    list, t, e := list0, r, d;
    if finderIdx > 0 {
      ComplexIsLawful(k);
      ghost var b;
      list, t, b := MergeSort(list0, Complex(k), res, ValueOrder(k), r, d);
      ValuesCached(k, d, b, r, t);
      e := b.(seen := {});
    } else {
      Unsorted(k, d, r);
    }
  }

  lemma Unsorted(k: Kernels, d: Book<ListHead>, r: seq<ListHead>)
    requires Distinct(r) && d.data.Keys == Nodes(r)
    ensures ByValue(k, false, d.data, d.data, r, r)
  {
    assert forall x :: Becomes(k, x, x);
    hide Becomes;
  }

  /** What the index sort leaves. */
  lemma AllRestored(k: Kernels, d: Book<ListHead>, e: Book<ListHead>, f: Book<ListHead>, t: seq<ListHead>,
                    u: seq<ListHead>)
    requires |t| >= 2 && Distinct(t) && d.data.Keys == e.data.Keys == Nodes(t)
    requires Pristine(d.data) && forall n :: n in d.data ==> Becomes(k, d.data[n], e.data[n])
    requires Evolves(RESTORING_ORDER, e, f) && StablySorted(RESTORING_ORDER, f, t, u)
    requires forall n :: n in t ==> Settled(RESTORING_ORDER, f, n)
    ensures StablySorted(RESTORING_ORDER, d, t, u) && (Mirrors(f) ==> Mirrors(d))
  {
    hide Becomes;
    SameDataSorted(RESTORING_ORDER, f, f.(seen := d.seen), t, u);
    hide Sorted;
    hide Positions;
    RestoredData(k, d.data, e.data, f.data);
  }

  /** The list is sorted by index without a result record. */
  method SortByIndex(list0: ListHead, k: Kernels, ghost t: seq<ListHead>, ghost d: Book<ListHead>,
                     ghost e: Book<ListHead>)
    returns (list: ListHead?, ghost u: seq<ListHead>)
    requires |t| >= 2 && Distinct(t) && IsList(t, list0) && Mirrors(e) && e.seen == {}
    requires d.data.Keys == e.data.Keys == Nodes(t)
    requires Pristine(d.data) && forall n :: n in d.data ==> Becomes(k, d.data[n], e.data[n])
    modifies t`next, Infos(e)`data16, Infos(e)`idx
    ensures IsList(u, list) && Mirrors(d) && StablySorted(RESTORING_ORDER, d, t, u)
  {
    hide *;
    IndexIsLawful();
    ghost var f;
    list, u, f := MergeSort(list0, ByIndex(), null, RESTORING_ORDER, t, e);
    AllRestored(k, d, e, f, t, u);
  }

  // ----- a whole round -----

  /** One item is removed and put back. */
  method RemoveAndUndo(list: ListHead, ghost t: seq<ListHead>, ghost d: Book<ListHead>)
    requires |t| >= 3 && Distinct(t) && IsList(t, list) && Mirrors(d) && d.data.Keys == Nodes(t)
    modifies t
    ensures IsList(t, list) && Mirrors(d) && Infos(d) == old(Infos(d))
  {
    hide Mirrors;
    hide Distinct;
    assert t[0].next == t[1];
    SecondStays(t);
    var remover := Remove(list.next, list, t, 1);
    ghost var v := Unlinked(t, 1);
    assert v[0].next == v[1];
    remover := UndoRemove(remover, list.next, list, t, 1);
    hide Linked;
    StillMirrors(d);
  }

  lemma SecondStays(t: seq<ListHead>)
    requires |t| >= 3
    ensures |Unlinked(t, 1)| >= 2 && Unlinked(t, 1)[0] == t[0] && Unlinked(t, 1)[1] == t[1]
  {
  }

  /** In place for a round that searches findNum times from finderIdx on. */
  ghost predicate ComesBack(d: map<ListHead, Datum>, e: map<ListHead, Datum>, s: seq<ListHead>, finderIdx: int,
                            findNum: int)
    requires Distinct(s) && d.Keys == e.Keys == Nodes(s)
  {
    var r := AfterSearches(s, d, finderIdx, 0, findNum);
    PermutedList(s, r);
    InPlace(d, e, s, r, finderIdx > 0)
  }

  /** The first half of a round: the searches and the sort by value. */
  method Shuffle(list0: ListHead, res: Results, k: Kernels, finderIdx: int, findNum: int, ghost s: seq<ListHead>,
                 ghost d: Book<ListHead>)
    returns (list: ListHead, ghost t: seq<ListHead>, ghost e: Book<ListHead>)
    requires |s| >= 3 && Distinct(s) && IsList(s, list0) && Mirrors(d) && d.data.Keys == Nodes(s) && d.seen == {}
    modifies s, Infos(d), res
    ensures IsList(t, list) && Distinct(t) && Nodes(t) == Nodes(s) && |t| == |s|
      && forall i :: 0 <= i < |t| ==> t[i] in s
    ensures Mirrors(e) && e.seen == {} && Infos(e) == old(Infos(d))
    ensures var r := AfterSearches(s, d.data, finderIdx, 0, findNum);
      Distinct(r) && ByValue(k, finderIdx > 0, d.data, e.data, r, t)
  {
    hide *;
    NodesAre(s);
    var head := Search(list0, finderIdx, findNum, s, d);
    ghost var r := AfterSearches(s, d.data, finderIdx, 0, findNum);
    PermutedList(s, r);
    var sorted: ListHead?;
    sorted, t, e := SortByValue(head, res, k, finderIdx, r, d);
    ByValueParts(k, finderIdx > 0, d.data, e.data, r, t);
    ListHasHead(t, sorted);
    list := sorted;
    SameInfos(d, e);
  }

  /**
   * core_bench_list: searches, sort by value, removal and its undoing, sort by index. The data are
   * back afterwards, and the order is exactly if the list is in place in the sense above.
   */
  method BenchList(list0: ListHead, res: Results, k: Kernels, finderIdx: int, findNum: int,
                   ghost s: seq<ListHead>, ghost d: Book<ListHead>)
    returns (list: ListHead?, ghost u: seq<ListHead>, ghost e: Book<ListHead>)
    requires |s| >= 3 && Distinct(s) && IsList(s, list0)
    requires Mirrors(d) && d.data.Keys == Nodes(s) && d.seen == {} && Pristine(d.data)
    modifies s, Infos(d), res
    ensures IsList(u, list) && multiset(u) == multiset(s) && Mirrors(d)
    ensures d.data.Keys == e.data.Keys
    ensures forall n :: n in d.data ==> Becomes(k, d.data[n], e.data[n]) && (finderIdx > 0 ==> Cached(e.data[n]))
    ensures u == s <==> ComesBack(d.data, e.data, s, finderIdx, findNum)
  {
    hide *;
    NodesAre(s);
    ghost var t;
    list, t, e := Shuffle(list0, res, k, finderIdx, findNum, s, d);
    ByValueParts(k, finderIdx > 0, d.data, e.data, AfterSearches(s, d.data, finderIdx, 0, findNum), t);
    RemoveAndUndo(list, t, e);
    list, u := SortByIndex(list, k, t, d, e);
    RoundEnds(k, d, e.data, s, t, u, finderIdx, findNum);
  }

  lemma RoundEnds(k: Kernels, d: Book<ListHead>, e: map<ListHead, Datum>, s: seq<ListHead>, t: seq<ListHead>,
                  u: seq<ListHead>, finderIdx: int, findNum: int)
    requires Distinct(s) && d.data.Keys == e.Keys == Nodes(s)
    requires var r := AfterSearches(s, d.data, finderIdx, 0, findNum);
      Distinct(r) && ByValue(k, finderIdx > 0, d.data, e, r, t)
    requires Distinct(t) && StablySorted(RESTORING_ORDER, d, t, u)
    ensures multiset(u) == multiset(s) && (u == s <==> ComesBack(d.data, e, s, finderIdx, findNum))
  {
    var r := AfterSearches(s, d.data, finderIdx, 0, findNum);
    PermutedList(s, r);
    PermutedList(r, t);
    hide InPlace;
    hide ByValue;
    BackIfInPlace(k, finderIdx > 0, d, e, s, r, t, u);
  }

  lemma ByValueParts(k: Kernels, sorts: bool, d: map<ListHead, Datum>, e: map<ListHead, Datum>, r: seq<ListHead>,
                     t: seq<ListHead>)
    requires Distinct(r) && ByValue(k, sorts, d, e, r, t)
    ensures Distinct(t) && |t| == |r| && d.Keys == e.Keys == Nodes(t) == Nodes(r)
    ensures (forall n :: n in t <==> n in r) && (forall i :: 0 <= i < |t| ==> t[i] in r)
    ensures forall n :: n in d ==> Becomes(k, d[n], e[n]) && (sorts ==> Cached(e[n]))
  {
    PermutedList(r, t);
  }

  // ----- which lists come back -----

  /** The value of the datum depends on what a kernel will return. */
  predicate NamesKernel(x: Datum) { !Cached(x) && x.data16 % 8 < 2 }

  /** Nodes that share an index do not name a kernel. */
  ghost predicate ValuesKnown(d: map<ListHead, Datum>, s: seq<ListHead>)
    requires forall n :: n in s ==> n in d
  {
    forall i, j :: 0 <= i < |s| && 0 <= j < |s| && i != j && d[s[i]].idx == d[s[j]].idx ==> !NamesKernel(d[s[i]])
  }

  /** If nodes that name a kernel share their index with no other, then the data before the round decide. */
  lemma ComesBackInData(k: Kernels, d: map<ListHead, Datum>, e: map<ListHead, Datum>, s: seq<ListHead>, finderIdx: int,
                        findNum: int)
    requires Distinct(s) && d.Keys == e.Keys == Nodes(s) && forall n :: n in d ==> Becomes(k, d[n], e[n])
    requires ValuesKnown(d, s)
    ensures ComesBack(d, e, s, finderIdx, findNum) <==> ComesBack(d, d, s, finderIdx, findNum)
  {
    var r, sorts := AfterSearches(s, d, finderIdx, 0, findNum), finderIdx > 0;
    PermutedList(s, r);
    forall i, j | 0 <= i < j < |s| && d[s[i]].idx == d[s[j]].idx
      ensures InFront(e, r, sorts, s[i], s[j]) <==> InFront(d, r, sorts, s[i], s[j])
    {
      BecomesKeeps(k, d[s[i]], e[s[i]]);
      BecomesKeeps(k, d[s[j]], e[s[j]]);
      hide Becomes;
    }
    hide Becomes;
    hide InFront;
    hide AfterSearches;
  }

  /** Nodes with equal index and value change places if the searches leave the list reversed. */
  lemma TwinsSwapped(d: map<ListHead, Datum>, e: map<ListHead, Datum>, s: seq<ListHead>, finderIdx: int, findNum: int,
                     i: nat, j: nat)
    requires Distinct(s) && d.Keys == e.Keys == Nodes(s) && i < j < |s|
    requires d[s[i]].idx == d[s[j]].idx && Low7(e[s[i]]) == Low7(e[s[j]])
    requires AfterSearches(s, d, finderIdx, 0, findNum) == Reverse(s)
    ensures !ComesBack(d, e, s, finderIdx, findNum)
  {
    var r := Reverse(s);
    PermutedList(s, r);
    assert r[|s| - 1 - i] == s[i] && r[|s| - 1 - j] == s[j];
    assert !InFront(e, r, finderIdx > 0, s[i], s[j]);
  }

  // ----- the list that core_list_init builds -----

  /** Bitwise exclusive or of the low 16 bits of i with the seed. */
  function Mixed(i: nat, seed: bv16): bv16 { ((i % 0x1_0000) as bv16) ^ seed }

  /** The byte that is written twice into the datum of the i-th item. */
  function ItemByte(i: nat, seed: bv16): (dat: nat)
    ensures dat < 0x80
  {
    Mixed(i, seed) as nat % 16 * 8 + i % 8
  }

  /** The index of the p-th item behind the head: p for the first fifth, else a pseudo-random number. */
  function ItemIndex(p: nat, size: nat, seed: bv16): nat {
    if p < size / 5 then p else ((Mixed(p, seed) | (((p + 1) % 8 * 0x100) as bv16)) & 0x3fff) as nat
  }

  /** The p-th item behind the head in a block of size slots, which was inserted as number size - 3 - p. */
  function ItemAt(p: nat, size: nat, seed: bv16): Datum
    requires 1 <= p <= size - 3
  {
    Datum(ItemByte(size - 3 - p, seed) * 0x101, ItemIndex(p, size, seed))
  }

  /** The nodes s before the sort of core_list_init: a head, size - 3 items and a tail. */
  ghost predicate Built(size: nat, seed: bv16, s: seq<ListHead>, d: map<ListHead, Datum>) {
    && size >= 3 && |s| == size - 1 && Distinct(s) && d.Keys == Nodes(s)
    && d[s[0]] == Datum(0x8080, 0) && d[s[size - 2]] == Datum(0xffff, 0x7fff)
    && forall p :: 1 <= p <= size - 3 ==> d[s[p]] == ItemAt(p, size, seed)
  }

  lemma BuiltIsPristine(size: nat, seed: bv16, s: seq<ListHead>, d: map<ListHead, Datum>)
    requires Built(size, seed, s, d)
    ensures Pristine(d)
  {
    hide ItemByte;
    hide ItemIndex;
    forall n | n in d
      ensures Restored(d[n])
    {
      var p :| 0 <= p < |s| && s[p] == n;
      if 1 <= p <= size - 3 {
        assert d[n] == ItemAt(p, size, seed);
      }
    }
  }

  lemma MixedWith8()
    ensures Mixed(38, 8) == 46 && Mixed(30, 8) == 22
  {
    assert (38 as bv16) ^ 8 == 46;
    assert (30 as bv16) ^ 8 == 22;
  }

  lemma BytesOfSeed8()
    ensures ItemByte(38, 8) == 0x76 && ItemByte(30, 8) == 0x36
  {
    hide Mixed;
    MixedWith8();
  }

  lemma IndicesOfSeed8()
    ensures ItemIndex(7, 48, 8) == ItemIndex(15, 48, 8) == 7
  {
    assert Mixed(15, 8) == 7;
  }

  lemma ItemsOfSeed8(size: nat, a: nat, b: nat)
    requires size == 48 && a == 7 && b == 15
    ensures ItemAt(a, size, 8) == Datum(0x7676, 7) && ItemAt(b, size, 8) == Datum(0x3636, 7)
  {
    hide ItemByte;
    hide ItemIndex;
    BytesOfSeed8();
    IndicesOfSeed8();
  }

  /** Two nodes that share an index and stand in the wrong order of value change places in the sort by value. */
  lemma WrongOrder(k: Kernels, d: map<ListHead, Datum>, e: map<ListHead, Datum>, s: seq<ListHead>, finderIdx: int,
                   findNum: int, i: nat, j: nat)
    requires Distinct(s) && d.Keys == e.Keys == Nodes(s) && forall n :: n in d ==> Becomes(k, d[n], e[n])
    requires i < j < |s| && finderIdx > 0 && d[s[i]].idx == d[s[j]].idx
    requires !NamesKernel(d[s[i]]) && !NamesKernel(d[s[j]]) && Low7(d[s[i]]) > Low7(d[s[j]])
    ensures !ComesBack(d, e, s, finderIdx, findNum)
  {
    BecomesKeeps(k, d[s[i]], e[s[i]]);
    BecomesKeeps(k, d[s[j]], e[s[j]]);
    hide Becomes;
    hide AfterSearches;
    var r := AfterSearches(s, d, finderIdx, 0, findNum);
    PermutedList(s, r);
    assert !InFront(e, r, true, s[i], s[j]);
  }

  /**
   * With seed 8 and 48 slots, items 7 and 15 get the same index but different data, and change places
   * in every round that sorts by value: the list that core_list_init builds never comes back.
   */
  lemma Seed8NeverComesBack(k: Kernels, s0: seq<ListHead>, s: seq<ListHead>,
                            d: map<ListHead, Datum>, e: map<ListHead, Datum>,
                            size: nat, finderIdx: int, findNum: int)
    requires size == 48 && Built(size, 8, s0, d) && Distinct(s) && StablySorted(RESTORING_ORDER, Book(d, {}), s0, s)
    requires d.Keys == e.Keys == Nodes(s) && forall n :: n in d ==> Becomes(k, d[n], e[n])
    requires finderIdx > 0
    ensures !ComesBack(d, e, s, finderIdx, findNum)
  {
    hide Becomes;
    hide ItemAt;
    var i: nat, j: nat :| i == 7 && j == 15;
    ItemsOfSeed8(size, i, j);
    PermutedList(s0, s);
    hide Nodes;
    var v, w := TwoPlaces(Book(d, {}), s0, s, i, j);
    WrongOrder(k, d, e, s, finderIdx, findNum, v, w);
  }

  /** The sort by index keeps two nodes with the same index in order. */
  lemma TwoPlaces(d: Book<ListHead>, s0: seq<ListHead>, s: seq<ListHead>, i: nat, j: nat) returns (v: nat, w: nat)
    requires Distinct(s0) && Distinct(s) && StablySorted(RESTORING_ORDER, d, s0, s) && i < j < |s0|
    requires s0[i] in s && s0[j] in s && s0[i] in d.data && s0[j] in d.data && d.data[s0[i]].idx == d.data[s0[j]].idx
    ensures v < w < |s| && s[v] == s0[i] && s[w] == s0[j]
  {
    PlacedBefore(RESTORING_ORDER, d, s0, s, s0[i], s0[j]);
    v, w := Positions(s)[s0[i]], Positions(s)[s0[j]];
  }
}
