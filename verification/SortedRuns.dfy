/**
 * What a bottom-up merge sort keeps between passes, on values: the list is cut into
 * runs that are sorted and, among equals, in original order. The order is any total preorder.
 * Comparing two nodes may rewrite their data, so the data is part of the statement.
 */
module SortedRuns {
  import opened Basics

  type U16 = x: nat | x < 0x1_0000

  /** A list_data record; data16 as an unsigned 16-bit pattern. */
  datatype Datum = Datum(data16: U16, idx: int)

  /**
   * What a comparison routine decides by. leq is an order of the data; settled data no longer
   * changes when compared, and may says which data a datum can be turned into by comparisons.
   */
  datatype Order = Order(leq: (Datum, Datum) -> bool, settled: Datum -> bool, may: (Datum, Datum) -> bool)

  ghost predicate TotalPreorder(leq: (Datum, Datum) -> bool) {
    && (forall x, y :: leq(x, y) || leq(y, x))
    && (forall x, y, z :: leq(x, y) && leq(y, z) ==> leq(x, z))
  }

  /** What several comparisons do is what one may do. */
  ghost predicate Composes(may: (Datum, Datum) -> bool) {
    && (forall x :: may(x, x))
    && (forall x, y, z :: may(x, y) && may(y, z) ==> may(x, z))
  }

  /** The data of the nodes, and the nodes that have been handed to the comparison routine. */
  datatype Book<N> = Book(data: map<N, Datum>, seen: set<N>)

  /** One comparison settles a datum: x before, y after. */
  ghost predicate Touched(o: Order, x: Datum, y: Datum) {
    o.settled(y) && (o.settled(x) ==> y == x) && o.may(x, y)
  }

  /** Comparisons turned the book d into e: settled data are as before, the others have become what they may. */
  ghost predicate Evolves<N>(o: Order, d: Book<N>, e: Book<N>) {
    && d.data.Keys == e.data.Keys && d.seen <= e.seen <= d.seen + d.data.Keys
    && (forall n :: n in d.data && o.settled(d.data[n]) ==> e.data[n] == d.data[n])
    && (forall n :: n in d.data ==> o.may(d.data[n], e.data[n]))
  }

  /** Strictly before: not greater and, if not less either, at an earlier original position. */
  predicate Before<N>(o: Order, d: Book<N>, pos: map<N, nat>, a: N, b: N)
    requires a in d.data && b in d.data && a in pos && b in pos
  {
    o.leq(d.data[a], d.data[b]) && (o.leq(d.data[b], d.data[a]) ==> pos[a] < pos[b])
  }

  ghost predicate Known<N>(d: Book<N>, pos: map<N, nat>, s: seq<N>) {
    forall n :: n in s ==> n in d.data && n in pos
  }

  ghost predicate Sorted<N>(o: Order, d: Book<N>, pos: map<N, nat>, s: seq<N>)
    requires Known(d, pos, s)
  {
    forall i, j :: 0 <= i < j < |s| ==> Before(o, d, pos, s[i], s[j])
  }

  /** A node that has been compared, so that its data is final. */
  ghost predicate Settled<N>(o: Order, d: Book<N>, n: N) { n in d.data && n in d.seen && o.settled(d.data[n]) }

  /** The book after p and q were compared, which left the data x and y. */
  ghost function Compared<N>(d: Book<N>, p: N, q: N, x: Datum, y: Datum): Book<N> {
    Book(d.data[p := x][q := y], d.seen + {p, q})
  }

  lemma ComparedEvolves<N>(o: Order, d: Book<N>, p: N, q: N, x: Datum, y: Datum)
    requires p in d.data && q in d.data && p != q && Touched(o, d.data[p], x) && Touched(o, d.data[q], y)
      && Composes(o.may)
    ensures var e := Compared(d, p, q, x, y); Evolves(o, d, e) && Settled(o, e, p) && Settled(o, e, q)
  {
  }

  ghost predicate AllSettled<N>(o: Order, d: Book<N>, s: seq<N>)
    requires forall n :: n in s ==> n in d.data
  {
    forall n :: n in s ==> Settled(o, d, n)
  }

  /** A sorted run that came from the original positions [off, off + |s|). */
  ghost predicate Run<N>(o: Order, d: Book<N>, pos: map<N, nat>, s: seq<N>, off: nat) {
    && s != []
    && Known(d, pos, s)
    && (forall n :: n in s ==> off <= pos[n] < off + |s|)
    && Sorted(o, d, pos, s)
    && (|s| >= 2 ==> AllSettled(o, d, s))
  }

  /** Consecutive runs from position off on, all of length w except perhaps a shorter last one. */
  ghost predicate Runs<N>(o: Order, d: Book<N>, pos: map<N, nat>, rs: seq<seq<N>>, off: nat, w: nat) {
    rs == [] ||
    (&& Run(o, d, pos, rs[0], off)
     && |rs[0]| <= w
     && (|rs| > 1 ==> |rs[0]| == w)
     && Runs(o, d, pos, rs[1..], off + |rs[0]|, w))
  }

  ghost function Flatten<N>(rs: seq<seq<N>>): seq<N> {
    if rs == [] then [] else rs[0] + Flatten(rs[1..])
  }

  lemma {:induction false} FlattenAppend<N>(rs: seq<seq<N>>, r: seq<N>)
    ensures Flatten(rs + [r]) == Flatten(rs) + r
  {
    if rs == [] {
      assert Flatten([r]) == r + Flatten([]);
    } else {
      FlattenAppend(rs[1..], r);
      assert (rs + [r])[1..] == rs[1..] + [r];
      assert Flatten(rs + [r]) == rs[0] + (Flatten(rs[1..]) + r);
    }
  }

  /** Appending a run that starts where the others end; all earlier ones must be full. */
  lemma {:induction false} RunsAppend<N>(o: Order, d: Book<N>, pos: map<N, nat>, rs: seq<seq<N>>, r: seq<N>, off: nat,
                                         w: nat)
    requires Runs(o, d, pos, rs, off, w)
    requires rs != [] ==> |rs[|rs| - 1]| == w
    requires Run(o, d, pos, r, off + |Flatten(rs)|) && |r| <= w
    ensures Runs(o, d, pos, rs + [r], off, w)
  {
    if rs == [] {
      assert (rs + [r])[1..] == [];
    } else {
      RunsAppend(o, d, pos, rs[1..], r, off + |rs[0]|, w);
      assert (rs + [r])[1..] == rs[1..] + [r];
    }
  }

  lemma RunEvolves<N>(o: Order, d: Book<N>, e: Book<N>, pos: map<N, nat>, s: seq<N>, off: nat)
    requires Run(o, d, pos, s, off) && Evolves(o, d, e)
    ensures Run(o, e, pos, s, off)
  {
    forall i, j | 0 <= i < j < |s|
      ensures Before(o, e, pos, s[i], s[j])
    {
      assert s[i] in s && s[j] in s;
    }
  }

  lemma {:induction false} RunsEvolve<N>(o: Order, d: Book<N>, e: Book<N>, pos: map<N, nat>, rs: seq<seq<N>>, off: nat,
                                         w: nat)
    requires Runs(o, d, pos, rs, off, w) && Evolves(o, d, e)
    ensures Runs(o, e, pos, rs, off, w)
  {
    if rs != [] {
      RunEvolves(o, d, e, pos, rs[0], off);
      RunsEvolve(o, d, e, pos, rs[1..], off + |rs[0]|, w);
    }
  }

  // ----- the merge of two adjacent runs, one step at a time -----

  /**
   * merged has been taken from the fronts of two runs and p and q are what is left of them:
   * all sorted, merged before the rest, p from earlier positions than q.
   */
  ghost predicate Merging<N>(o: Order, d: Book<N>, pos: map<N, nat>, merged: seq<N>, p: seq<N>, q: seq<N>) {
    && Known(d, pos, merged) && Known(d, pos, p) && Known(d, pos, q)
    && Sorted(o, d, pos, merged) && Sorted(o, d, pos, p) && Sorted(o, d, pos, q)
    && (forall a, b :: a in merged && b in p ==> Before(o, d, pos, a, b))
    && (forall a, b :: a in merged && b in q ==> Before(o, d, pos, a, b))
    && (forall a, b :: a in p && b in q ==> pos[a] < pos[b])
  }

  lemma TakeLeft<N>(o: Order, d: Book<N>, pos: map<N, nat>, merged: seq<N>, p: seq<N>, q: seq<N>)
    requires Merging(o, d, pos, merged, p, q)
    requires TotalPreorder(o.leq) && p != [] && (q == [] || o.leq(d.data[p[0]], d.data[q[0]]))
    ensures Merging(o, d, pos, merged + [p[0]], p[1..], q)
  {
    var e := p[0];
    assert e in p;
    forall b | b in p[1..]
      ensures Before(o, d, pos, e, b)
    {
      var i :| 0 <= i < |p[1..]| && p[1..][i] == b;
      assert p[i + 1] == b;
    }
    forall b | b in q
      ensures Before(o, d, pos, e, b)
    {
      assert q[0] in q;
      var i :| 0 <= i < |q| && q[i] == b;
    }
    SortedAppend(o, d, pos, merged, e);
  }

  lemma TakeRight<N>(o: Order, d: Book<N>, pos: map<N, nat>, merged: seq<N>, p: seq<N>, q: seq<N>)
    requires Merging(o, d, pos, merged, p, q)
    requires TotalPreorder(o.leq) && q != [] && (p == [] || !o.leq(d.data[p[0]], d.data[q[0]]))
    ensures Merging(o, d, pos, merged + [q[0]], p, q[1..])
  {
    var e := q[0];
    assert e in q;
    forall b | b in q[1..]
      ensures Before(o, d, pos, e, b)
    {
      var i :| 0 <= i < |q[1..]| && q[1..][i] == b;
      assert q[i + 1] == b;
    }
    forall b | b in p
      ensures Before(o, d, pos, e, b)
    {
      var i :| 0 <= i < |p| && p[i] == b;
    }
    SortedAppend(o, d, pos, merged, e);
  }

  lemma SortedAppend<N>(o: Order, d: Book<N>, pos: map<N, nat>, s: seq<N>, e: N)
    requires Known(d, pos, s) && e in d.data && e in pos && Sorted(o, d, pos, s)
    requires forall a :: a in s ==> Before(o, d, pos, a, e)
    ensures Known(d, pos, s + [e]) && Sorted(o, d, pos, s + [e])
  {
    forall i, j | 0 <= i < j < |s + [e]|
      ensures Before(o, d, pos, (s + [e])[i], (s + [e])[j])
    {
      assert (s + [e])[i] == s[i] && s[i] in s;
    }
  }

  /** Data may still change, but only where it cannot matter: in a node not yet compared. */
  ghost predicate Stable<N>(o: Order, d: Book<N>, pos: map<N, nat>, merged: seq<N>, p: seq<N>, q: seq<N>)
    requires Known(d, pos, merged) && Known(d, pos, p) && Known(d, pos, q)
  {
    && (|p| >= 2 ==> AllSettled(o, d, p))
    && (|q| >= 2 ==> AllSettled(o, d, q))
    && (merged != [] && |merged| + |p| + |q| >= 2 ==>
          AllSettled(o, d, merged) && AllSettled(o, d, p) && AllSettled(o, d, q))
  }

  lemma MergingEvolves<N>(o: Order, d: Book<N>, e: Book<N>, pos: map<N, nat>, merged: seq<N>, p: seq<N>, q: seq<N>)
    requires Merging(o, d, pos, merged, p, q) && Stable(o, d, pos, merged, p, q)
    requires Evolves(o, d, e)
    ensures Merging(o, e, pos, merged, p, q) && Stable(o, e, pos, merged, p, q)
  {
    SortedEvolves(o, d, e, pos, merged);
    SortedEvolves(o, d, e, pos, p);
    SortedEvolves(o, d, e, pos, q);
    hide Sorted;
    if merged != [] {
      assert AllSettled(o, d, merged) || (p == [] && q == []);
    }
  }

  lemma SortedEvolves<N>(o: Order, d: Book<N>, e: Book<N>, pos: map<N, nat>, s: seq<N>)
    requires Known(d, pos, s) && Sorted(o, d, pos, s) && Evolves(o, d, e)
    requires |s| >= 2 ==> AllSettled(o, d, s)
    ensures Known(e, pos, s) && Sorted(o, e, pos, s)
    ensures AllSettled(o, d, s) ==> AllSettled(o, e, s)
  {
    forall i, j | 0 <= i < j < |s|
      ensures Before(o, e, pos, s[i], s[j])
    {
      assert s[i] in s && s[j] in s;
    }
  }

  /** Two adjacent runs are ready to be merged. */
  lemma StartMerging<N>(o: Order, d: Book<N>, pos: map<N, nat>, p: seq<N>, q: seq<N>, off: nat)
    requires Run(o, d, pos, p, off)
    requires q == [] || Run(o, d, pos, q, off + |p|)
    ensures Merging(o, d, pos, [], p, q) && Stable(o, d, pos, [], p, q)
  {
  }

  /** Once both are used up, the merged nodes form a run. */
  lemma FinishMerging<N>(o: Order, d: Book<N>, pos: map<N, nat>, merged: seq<N>, p: seq<N>, q: seq<N>, off: nat)
    requires Merging(o, d, pos, merged, [], []) && merged != []
    requires multiset(merged) == multiset(p) + multiset(q)
    requires forall n :: n in p ==> n in pos && off <= pos[n] < off + |p|
    requires forall n :: n in q ==> n in pos && off + |p| <= pos[n] < off + |p| + |q|
    requires |merged| >= 2 ==> AllSettled(o, d, merged)
    ensures |merged| == |p| + |q|
    ensures Run(o, d, pos, merged, off)
  {
    assert |multiset(merged)| == |merged|;
    forall n | n in merged
      ensures off <= pos[n] < off + |merged|
    {
      assert n in multiset(merged);
      assert n in p || n in q;
    }
  }

  /** The first comparison of two non-empty runs settles every node of both. */
  lemma ComparedIsSettled<N>(o: Order, d: Book<N>, pos: map<N, nat>, merged: seq<N>, p: seq<N>, q: seq<N>)
    requires Merging(o, d, pos, merged, p, q) && Stable(o, d, pos, merged, p, q)
    requires p != [] && q != [] && Settled(o, d, p[0]) && Settled(o, d, q[0])
    ensures AllSettled(o, d, merged) && AllSettled(o, d, p) && AllSettled(o, d, q)
  {
    assert |p| == 1 ==> p == [p[0]];
    assert |q| == 1 ==> q == [q[0]];
  }

  // ----- one pass over the runs -----

  ghost function Second<N>(rs: seq<seq<N>>): seq<N> { if |rs| > 1 then rs[1] else [] }

  ghost function Beyond<N>(rs: seq<seq<N>>): seq<seq<N>> { if |rs| > 1 then rs[2..] else [] }

  /** The first two runs and the rest. */
  lemma SplitRuns<N>(o: Order, d: Book<N>, pos: map<N, nat>, rs: seq<seq<N>>, off: nat, w: nat)
    requires rs != [] && Runs(o, d, pos, rs, off, w)
    ensures Flatten(rs) == rs[0] + (Second(rs) + Flatten(Beyond(rs)))
    ensures Run(o, d, pos, rs[0], off) && 0 < |rs[0]| <= w
    ensures Second(rs) == [] || Run(o, d, pos, Second(rs), off + |rs[0]|)
    ensures |Second(rs)| <= w && (|Second(rs)| < w ==> Flatten(Beyond(rs)) == [])
    ensures Second(rs) != [] ==> |rs[0]| == w
    ensures Beyond(rs) != [] ==> |rs[0]| == |Second(rs)| == w
    ensures Runs(o, d, pos, Beyond(rs), off + |rs[0]| + |Second(rs)|, w)
  {
    assert rs[0] != [];
    hide Run;
    if |rs| > 1 {
      assert rs[1..][0] == rs[1] && rs[1..][1..] == rs[2..];
      assert Flatten(rs[1..]) == rs[1] + Flatten(rs[2..]);
      assert |rs| == 2 ==> Flatten(rs[2..]) == [];
    } else {
      assert Flatten(rs[1..]) == [];
    }
  }

  /** One pass: done has been merged, rest is still to come. */
  ghost predicate PassLoop<N>(o: Order, e: Book<N>, pos: map<N, nat>, blocks: nat, done: seq<seq<N>>,
                              rest: seq<seq<N>>, w: nat)
  {
    && Runs(o, e, pos, done, 0, 2 * w)
    && Runs(o, e, pos, rest, |Flatten(done)|, w)
    && (rest != [] && done != [] ==> |done[|done| - 1]| == 2 * w)
    && PassCount(blocks, |done|, |rest|)
  }

  /** Runs are merged in pairs. */
  ghost predicate PassCount(blocks: nat, done: nat, rest: nat) {
    if rest == 0 then done == (blocks + 1) / 2 else blocks == 2 * done + rest
  }

  lemma PassCountStep(blocks: nat, done: nat, rest: nat)
    requires PassCount(blocks, done, rest) && rest > 0
    ensures PassCount(blocks, done + 1, if rest > 1 then rest - 2 else 0)
  {
  }

  /** Merging the first two runs of rest into one keeps the pass going. */
  lemma PassStep<N>(o: Order, d: Book<N>, e: Book<N>, pos: map<N, nat>, blocks: nat,
                    done: seq<seq<N>>, rest: seq<seq<N>>, w: nat, merged: seq<N>)
    requires PassLoop(o, d, pos, blocks, done, rest, w) && rest != [] && Evolves(o, d, e)
    requires Run(o, e, pos, merged, |Flatten(done)|) && |merged| == |rest[0]| + |Second(rest)|
    ensures PassLoop(o, e, pos, blocks, done + [merged], Beyond(rest), w)
    ensures Flatten(done + [merged]) == Flatten(done) + merged
  {
    hide PassCount;
    hide Runs;
    hide Run;
    hide Flatten;
    hide Evolves;
    PassCountStep(blocks, |done|, |rest|);
    FlattenAppend(done, merged);
    RestEvolves(o, d, e, pos, rest, |Flatten(done)|, w);
    DoneGrows(o, d, e, pos, done, merged, w);
  }

  lemma RestEvolves<N>(o: Order, d: Book<N>, e: Book<N>, pos: map<N, nat>, rest: seq<seq<N>>, off: nat, w: nat)
    requires Runs(o, d, pos, rest, off, w) && rest != [] && Evolves(o, d, e)
    ensures Runs(o, e, pos, Beyond(rest), off + |rest[0]| + |Second(rest)|, w)
    ensures |rest[0]| + |Second(rest)| <= 2 * w && (Beyond(rest) != [] ==> |rest[0]| + |Second(rest)| == 2 * w)
  {
    hide Runs;
    hide Evolves;
    SplitRuns(o, d, pos, rest, off, w);
    RunsEvolve(o, d, e, pos, Beyond(rest), off + |rest[0]| + |Second(rest)|, w);
  }

  lemma DoneGrows<N>(o: Order, d: Book<N>, e: Book<N>, pos: map<N, nat>, done: seq<seq<N>>, merged: seq<N>, w: nat)
    requires Runs(o, d, pos, done, 0, 2 * w) && Evolves(o, d, e) && (done != [] ==> |done[|done| - 1]| == 2 * w)
    requires Run(o, e, pos, merged, |Flatten(done)|) && |merged| <= 2 * w
    ensures Runs(o, e, pos, done + [merged], 0, 2 * w)
  {
    hide *;
    RunsEvolve(o, d, e, pos, done, 0, 2 * w);
    RunsAppend(o, e, pos, done, merged, 0, 2 * w);
  }

  // ----- the whole sort -----

  ghost function IndexOf<N>(s: seq<N>, n: N): (i: nat)
    requires n in s
    ensures i < |s| && s[i] == n
  {
    if s[0] == n then 0 else 1 + IndexOf(s[1..], n)
  }

  /** Where each node was before sorting. */
  ghost function Positions<N>(s: seq<N>): (pos: map<N, nat>)
    requires Distinct(s)
    ensures pos.Keys == set n | n in s
    ensures forall i :: 0 <= i < |s| ==> pos[s[i]] == i
  {
    map n | n in s :: IndexOf(s, n)
  }

  ghost function Singles<N>(s: seq<N>): (r: seq<seq<N>>)
    ensures |r| == |s|
  {
    if s == [] then [] else [[s[0]]] + Singles(s[1..])
  }

  lemma SingleRun<N>(o: Order, d: Book<N>, pos: map<N, nat>, n: N)
    requires n in d.data && n in pos
    ensures Run(o, d, pos, [n], pos[n])
  {
  }

  /** Single nodes are runs of length one. */
  lemma {:induction false} SinglesAreRuns<N>(o: Order, d: Book<N>, pos: map<N, nat>, s: seq<N>, off: nat)
    requires forall i :: 0 <= i < |s| ==> s[i] in d.data && s[i] in pos && pos[s[i]] == off + i
    ensures Runs(o, d, pos, Singles(s), off, 1) && Flatten(Singles(s)) == s
  {
    if s != [] {
      SinglesAreRuns(o, d, pos, s[1..], off + 1);
      assert Singles(s)[1..] == Singles(s[1..]);
      SingleRun(o, d, pos, s[0]);
      hide Run;
    }
  }

  /** Sorted by key, stably: this determines the order completely. */
  ghost predicate StablySorted<N>(o: Order, e: Book<N>, s: seq<N>, t: seq<N>)
    requires Distinct(s)
  {
    && multiset(t) == multiset(s)
    && Known(e, Positions(s), t) && Sorted(o, e, Positions(s), t)
  }

  /** Which nodes have been compared does not matter. */
  lemma SameDataSorted<N>(o: Order, d: Book<N>, e: Book<N>, s: seq<N>, t: seq<N>)
    requires Distinct(s) && StablySorted(o, d, s, t) && e.data == d.data
    ensures StablySorted(o, e, s, t)
  {
    hide Positions;
  }

  lemma OneRunIsSorted<N>(o: Order, e: Book<N>, s: seq<N>, rs: seq<seq<N>>, w: nat)
    requires Distinct(s) && |rs| == 1 && Runs(o, e, Positions(s), rs, 0, w)
    requires multiset(Flatten(rs)) == multiset(s)
    ensures StablySorted(o, e, s, Flatten(rs))
    ensures forall n :: n in s ==> n in e.data
    ensures |s| >= 2 ==> AllSettled(o, e, s)
  {
    assert Flatten(rs) == rs[0];
    assert |multiset(s)| == |s|;
    forall n | n in s
      ensures n in rs[0]
    {
      assert n in multiset(s);
    }
  }

  /** Two stably sorted arrangements of one list are equal. */
  lemma {:induction false} StableOrderIsUnique<N>(o: Order, e: Book<N>, pos: map<N, nat>, t: seq<N>, u: seq<N>)
    requires Known(e, pos, t) && Known(e, pos, u) && Sorted(o, e, pos, t) && Sorted(o, e, pos, u)
    requires multiset(t) == multiset(u)
    ensures t == u
  {
    assert |multiset(t)| == |t| && |multiset(u)| == |u|;
    if t != [] {
      SameFirst(o, e, pos, t, u);
      assert t == [t[0]] + t[1..] && u == [u[0]] + u[1..];
      assert multiset(t[1..]) == multiset(t) - multiset{t[0]};
      assert multiset(u[1..]) == multiset(u) - multiset{u[0]};
      SortedTail(o, e, pos, t);
      SortedTail(o, e, pos, u);
      hide *;
      StableOrderIsUnique(o, e, pos, t[1..], u[1..]);
    }
  }

  lemma SortedTail<N>(o: Order, e: Book<N>, pos: map<N, nat>, t: seq<N>)
    requires t != [] && Known(e, pos, t) && Sorted(o, e, pos, t)
    ensures Known(e, pos, t[1..]) && Sorted(o, e, pos, t[1..])
  {
  }

  lemma SameFirst<N>(o: Order, e: Book<N>, pos: map<N, nat>, t: seq<N>, u: seq<N>)
    requires Known(e, pos, t) && Known(e, pos, u) && Sorted(o, e, pos, t) && Sorted(o, e, pos, u)
    requires multiset(t) == multiset(u) && t != [] && u != []
    ensures t[0] == u[0]
  {
    assert t[0] in multiset(u) && u[0] in multiset(t);
    var i :| 0 <= i < |u| && u[i] == t[0];
    var j :| 0 <= j < |t| && t[j] == u[0];
  }

  /** Sorting t gives s exactly if s is in order, with the positions in t deciding among equals. */
  lemma SortGives<N>(o: Order, e: Book<N>, s: seq<N>, t: seq<N>, u: seq<N>)
    requires Distinct(t) && multiset(t) == multiset(s) && StablySorted(o, e, t, u) && Known(e, Positions(t), s)
    ensures u == s <==> Sorted(o, e, Positions(t), s)
  {
    if Sorted(o, e, Positions(t), s) {
      StableOrderIsUnique(o, e, Positions(t), u, s);
    }
  }

  /** The sort puts a in front of b exactly if a is less or, among equals, was in front before. */
  lemma PlacedBefore<N>(o: Order, e: Book<N>, s: seq<N>, t: seq<N>, a: N, b: N)
    requires Distinct(s) && Distinct(t) && StablySorted(o, e, s, t) && a in t && b in t && a != b
    ensures a in s && b in s && a in e.data && b in e.data
    ensures Positions(t)[a] < Positions(t)[b] <==> Before(o, e, Positions(s), a, b)
  {
    assert a in multiset(s) && b in multiset(s);
    var i, j := Positions(t)[a], Positions(t)[b];
    assert t[i] == a && t[j] == b;
    if i < j {
      assert Before(o, e, Positions(s), t[i], t[j]);
    } else {
      assert Before(o, e, Positions(s), t[j], t[i]);
    }
  }
}
