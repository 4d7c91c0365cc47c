/**
 * The benchmark's in-place, iterative, bottom-up merge sort of a singly linked list. The comparison
 * routine is a parameter, and may rewrite the data it compares and the result record it is handed.
 */
module ListSort {
  import Crc
  import opened Basics
  import opened SortedRuns

  class ListData {
    var data16: U16
    var idx: int

    function Value(): Datum
      reads this
    {
      Datum(data16, idx)
    }

    /** What a comparison routine leaves behind. */
    method Assign(x: Datum)
      modifies this`data16, this`idx
      ensures Value() == x
    {
      data16, idx := x.data16, x.idx;
    }
  }

  class ListHead {
    var next: ListHead?
    var info: ListData

    constructor (info: ListData)
      ensures this.info == info
    {
      this.info := info;
    }
  }

  /** The part of core_results that comparison routines write. */
  datatype Record = Record(crc: Crc.Register, crcstate: U16, crcmatrix: U16)

  class Results {
    var record: Record

    constructor (record: Record)
      ensures this.record == record
    {
      this.record := record;
    }
  }

  // ----- comparison routines -----

  /** What list_cmp leaves behind: both data, the record if there is one, and the result. */
  datatype Verdict = Verdict(a: Datum, b: Datum, record: Option<Record>, sign: int)

  type Comparator = (Datum, Datum, Option<Record>) --> Verdict

  /**
   * cmp, when called with or without a record, decides by a total preorder of the data, once it
   * has settled the two data it is given.
   */
  ghost predicate Lawful(o: Order, cmp: Comparator, withRecord: bool) {
    && TotalPreorder(o.leq) && Composes(o.may)
    && forall a, b, r: Option<Record> :: r.Some? == withRecord ==>
         cmp.requires(a, b, r) && LawfulVerdict(o, a, b, withRecord, cmp(a, b, r))
  }

  ghost predicate LawfulVerdict(o: Order, a: Datum, b: Datum, withRecord: bool, v: Verdict) {
    v.record.Some? == withRecord && Touched(o, a, v.a) && Touched(o, b, v.b) && (v.sign <= 0 <==> o.leq(v.a, v.b))
  }

  lemma LawfulCall(o: Order, cmp: Comparator, a: Datum, b: Datum, r: Option<Record>)
    requires Lawful(o, cmp, r.Some?)
    ensures cmp.requires(a, b, r) && LawfulVerdict(o, a, b, r.Some?, cmp(a, b, r))
  {
  }

  /** Before any comparison. */
  lemma Untouched(o: Order, cmp: Comparator, withRecord: bool, d: Book<ListHead>)
    requires Lawful(o, cmp, withRecord)
    ensures Composes(o.may) && Evolves(o, d, d)
  {
  }

  ghost function Infos(d: Book<ListHead>): set<ListData>
    reads d.data.Keys`info
  {
    set n | n in d.data :: n.info
  }

  /** d records the data of every node, and no two nodes share a data record. */
  ghost predicate Mirrors(d: Book<ListHead>)
    reads d.data.Keys`info, Infos(d)
  {
    && (forall n :: n in d.data ==> n.info.Value() == d.data[n])
    && (forall a, b :: a in d.data && b in d.data && a != b ==> a.info != b.info)
  }

  /** cmp(p->info, q->info, res); e records the data afterwards, and that p and q have been compared. */
  method Compare(cmp: Comparator, res: Results?, ghost o: Order, p: ListHead, q: ListHead, ghost d: Book<ListHead>)
    returns (c: int, ghost e: Book<ListHead>)
    requires Lawful(o, cmp, res != null)
    requires Mirrors(d) && p in d.data && q in d.data && p != q
    modifies {p.info, q.info}`data16, {p.info, q.info}`idx, res
    ensures Mirrors(e) && Evolves(o, d, e) && e.seen == d.seen + {p, q}
    ensures Settled(o, e, p) && Settled(o, e, q)
    ensures c <= 0 <==> o.leq(e.data[p], e.data[q])
  {
    Untouched(o, cmp, res != null, d);
    hide Lawful;
    hide Composes;
    hide Evolves;
    hide Touched;
    hide Settled;
    var r := if res == null then None else Some(res.record);
    LawfulCall(o, cmp, p.info.Value(), q.info.Value(), r);
    var v := cmp(p.info.Value(), q.info.Value(), r);
    ComparedEvolves(o, d, p, q, v.a, v.b);
    e := Compared(d, p, q, v.a, v.b);
    p.info.Assign(v.a);
    q.info.Assign(v.b);
    if res != null {
      res.record := v.record.value;
    }
    c := v.sign;
  }

  // ----- linked lists as sequences of nodes -----

  ghost function First(s: seq<ListHead>): ListHead? { if s == [] then null else s[0] }

  ghost function Last(s: seq<ListHead>): ListHead? { if s == [] then null else s[|s| - 1] }

  ghost predicate Linked(s: seq<ListHead>)
    reads s`next
  {
    forall i {:trigger s[i].next} :: 0 <= i < |s| - 1 ==> s[i].next == s[i + 1]
  }

  /** s are the nodes of the null-terminated list that starts at head. */
  ghost predicate IsList(s: seq<ListHead>, head: ListHead?)
    reads s`next
  {
    head == First(s) && Linked(s) && (s != [] ==> s[|s| - 1].next == null)
  }

  ghost predicate Unique(all: multiset<ListHead>) { forall n :: n in all ==> all[n] == 1 }

  /**
   * Progress of one merge: all output so far, the part of it this merge produced,
   * what is left of the two runs, and the nodes behind them.
   */
  datatype Progress = Progress(out: seq<ListHead>, merged: seq<ListHead>, p: seq<ListHead>, q: seq<ListHead>,
                               after: seq<ListHead>)
  {
    ghost function Nodes(): multiset<ListHead> {
      multiset(out) + multiset(p) + multiset(q) + multiset(after)
    }

    /** The nodes of this merge alone. */
    ghost function Own(): multiset<ListHead> {
      multiset(merged) + multiset(p) + multiset(q)
    }

    ghost function TakeP(): Progress
      requires p != []
    {
      Progress(out + [p[0]], merged + [p[0]], p[1..], q, after)
    }

    ghost function TakeQ(): Progress
      requires q != []
    {
      Progress(out + [q[0]], merged + [q[0]], p, q[1..], after)
    }
  }

  /** g is what became of g0: nothing lost, and the output extended by what was merged. */
  ghost predicate From(g0: Progress, g: Progress) {
    && g.Nodes() == g0.Nodes() && g.Own() == g0.Own()
    && g.after == g0.after && g.out == g0.out + g.merged
  }

  lemma FromTakeP(g0: Progress, g: Progress)
    requires From(g0, g) && g.p != []
    ensures From(g0, g.TakeP())
  {
    TakePConserves(g);
  }

  lemma FromTakeQ(g0: Progress, g: Progress)
    requires From(g0, g) && g.q != []
    ensures From(g0, g.TakeQ())
  {
    TakeQConserves(g);
  }

  lemma FromNodes(g0: Progress, g: Progress)
    requires From(g0, g)
    ensures forall n :: n in g.out ==> n in g0.Nodes()
    ensures g.p == [] && g.q == [] && g0.merged == [] ==> multiset(g.merged) == multiset(g0.p) + multiset(g0.q)
  {
    assert forall n :: n in g.out ==> n in g.Nodes();
    assert g.p == [] && g.q == [] ==> g.Own() == multiset(g.merged);
    assert g0.merged == [] ==> g0.Own() == multiset(g0.p) + multiset(g0.q);
  }

  /** The pointers of the merge agree with its progress. */
  ghost predicate Pending(g: Progress, list: ListHead?, tail: ListHead?, pp: ListHead?, qq: ListHead?)
    reads g.out`next, g.p`next, g.q`next, g.after`next
  {
    && Unique(g.Nodes())
    && Linked(g.out) && list == First(g.out) && tail == Last(g.out)
    && Linked(g.p) && (g.p != [] ==> pp == g.p[0])
    && IsList(g.q + g.after, qq)
  }

  lemma LastIsUnique(g: Progress)
    requires Unique(g.Nodes())
    ensures g.out != [] ==> var t := g.out[|g.out| - 1];
      t !in g.out[..|g.out| - 1] && t !in g.p && t !in g.q && t !in g.after
  {
    if g.out != [] {
      var t := g.out[|g.out| - 1];
      assert g.out == g.out[..|g.out| - 1] + [t];
      assert t in g.Nodes();
    }
  }

  /** Taking a node only moves it between the parts. */
  lemma TakePConserves(g: Progress)
    requires g.p != []
    ensures g.TakeP().Nodes() == g.Nodes() && g.TakeP().Own() == g.Own()
  {
    assert g.p == [g.p[0]] + g.p[1..];
  }

  lemma TakeQConserves(g: Progress)
    requires g.q != []
    ensures g.TakeQ().Nodes() == g.Nodes() && g.TakeQ().Own() == g.Own()
  {
    assert g.q == [g.q[0]] + g.q[1..];
  }

  /** Hangs e behind the last node of out. */
  method Append(list: ListHead?, tail: ListHead?, e: ListHead, ghost out: seq<ListHead>)
    returns (newList: ListHead?, newTail: ListHead?)
    requires Linked(out) && list == First(out) && tail == Last(out)
    requires out != [] ==> out[|out| - 1] !in out[..|out| - 1]
    modifies (if tail == null then {} else {tail})`next
    ensures Linked(out + [e]) && newList == First(out + [e]) && newTail == Last(out + [e])
    ensures tail != null ==> tail.next == e
  {
    newList := list;
    if tail != null {
      tail.next := e;
    } else {
      newList := e;
    }
    newTail := e;
    assert forall i :: 0 <= i < |out| - 1 ==> out[..|out| - 1][i] == out[i];
  }

  /** e = p; p = p->next; append e. */
  method StepLeft(list0: ListHead?, tail0: ListHead?, p0: ListHead?, ghost g: Progress, ghost qq: ListHead?,
                  ghost e: Book<ListHead>)
    returns (list: ListHead?, tail: ListHead?, pp: ListHead?)
    requires Pending(g, list0, tail0, p0, qq) && g.p != [] && Mirrors(e)
    modifies (if tail0 == null then {} else {tail0})`next
    ensures Pending(g.TakeP(), list, tail, pp, qq) && Mirrors(e)
  {
    LastIsUnique(g);
    TakePConserves(g);
    pp := p0.next;
    list, tail := Append(list0, tail0, p0, g.out);
  }

  /** e = q; q = q->next; append e. */
  method StepRight(list0: ListHead?, tail0: ListHead?, q0: ListHead?, ghost g: Progress, ghost pp: ListHead?,
                   ghost e: Book<ListHead>)
    returns (list: ListHead?, tail: ListHead?, qq: ListHead?)
    requires Pending(g, list0, tail0, pp, q0) && g.q != [] && Mirrors(e)
    modifies (if tail0 == null then {} else {tail0})`next
    ensures Pending(g.TakeQ(), list, tail, pp, qq) && Mirrors(e)
    ensures qq == First(g.q[1..] + g.after)
  {
    LastIsUnique(g);
    TakeQConserves(g);
    qq := q0.next;
    assert (g.q + g.after)[1..] == g.q[1..] + g.after;
    list, tail := Append(list0, tail0, q0, g.out);
  }

  ghost predicate Ordered(o: Order, e: Book<ListHead>, pos: map<ListHead, nat>, g: Progress) {
    Merging(o, e, pos, g.merged, g.p, g.q) && Stable(o, e, pos, g.merged, g.p, g.q)
  }

  /** Decide whether the next element comes from p or q. */
  method Choose(cmp: Comparator, res: Results?, ghost o: Order, p: ListHead?, q: ListHead?, psize: nat, qsize: nat,
                ghost d: Book<ListHead>, ghost pos: map<ListHead, nat>, ghost g: Progress)
    returns (fromLeft: bool, ghost e: Book<ListHead>)
    requires Lawful(o, cmp, res != null)
    requires Mirrors(d) && Ordered(o, d, pos, g)
    requires psize == |g.p| && (g.q == [] <==> qsize == 0 || q == null) && g.p + g.q != []
    requires g.p != [] ==> p == g.p[0]
    requires g.q != [] ==> q == g.q[0]
    modifies Infos(d)`data16, Infos(d)`idx, res
    ensures Mirrors(e) && Evolves(o, d, e)
    ensures if fromLeft then g.p != [] && Ordered(o, e, pos, g.TakeP())
            else g.q != [] && Ordered(o, e, pos, g.TakeQ())
  {
    e := d;
    Untouched(o, cmp, res != null, d);
    hide Composes;
    hide Evolves;
    hide Lawful;
    if psize == 0 {
      fromLeft := false;
    } else if qsize == 0 || q == null {
      fromLeft := true;
    } else {
      var c: int;
      assert pos[p] < pos[q];
      c, e := Compare(cmp, res, o, p, q, d);
      MergingEvolves(o, d, e, pos, g.merged, g.p, g.q);
      ComparedIsSettled(o, e, pos, g.merged, g.p, g.q);
      fromLeft := c <= 0;
    }
    if fromLeft {
      TakeLeft(o, e, pos, g.merged, g.p, g.q);
    } else {
      TakeRight(o, e, pos, g.merged, g.p, g.q);
    }
  }

  /** Whether q has run out is what the two counters and the pointer say. */
  ghost predicate CountersAgree(g: Progress, psize: nat, qsize: nat, q: ListHead?) {
    && psize == |g.p|
    && qsize >= |g.q| && (qsize > |g.q| ==> g.after == [])
    && q == First(g.q + g.after)
  }

  /** Everything the inner loop keeps. */
  ghost predicate MergeLoop(o: Order, pos: map<ListHead, nat>, g0: Progress, g: Progress, e: Book<ListHead>,
                            list: ListHead?, tail: ListHead?, p: ListHead?, q: ListHead?, psize: nat, qsize: nat)
    reads g.out`next, g.p`next, g.q`next, g.after`next, e.data.Keys`info, Infos(e)
  {
    && From(g0, g)
    && Pending(g, list, tail, p, q) && CountersAgree(g, psize, qsize, q)
    && Mirrors(e) && Ordered(o, e, pos, g)
  }

  /** What Choose needs, from the loop's invariant and its guard. */
  lemma LoopParts(o: Order, pos: map<ListHead, nat>, g0: Progress, g: Progress, e: Book<ListHead>,
                  list: ListHead?, tail: ListHead?, p: ListHead?, q: ListHead?, psize: nat, qsize: nat)
    requires MergeLoop(o, pos, g0, g, e, list, tail, p, q, psize, qsize)
    ensures From(g0, g) && Pending(g, list, tail, p, q) && CountersAgree(g, psize, qsize, q)
    ensures Mirrors(e) && Ordered(o, e, pos, g)
    ensures psize == |g.p| && (g.q == [] <==> qsize == 0 || q == null)
    ensures g.p != [] ==> p == g.p[0]
    ensures g.q != [] ==> q == g.q[0]
    ensures tail != null ==> tail in g.out
  {
    hide From;
    hide Ordered;
    hide Mirrors;
    hide Unique;
    hide Linked;
    assert g.q != [] ==> (g.q + g.after)[0] == g.q[0];
  }

  /** The counters after taking a node. */
  lemma CountDown(g: Progress, psize: nat, qsize: nat, q: ListHead?, next: ListHead?)
    requires CountersAgree(g, psize, qsize, q)
    ensures g.p != [] ==> psize > 0 && CountersAgree(g.TakeP(), psize - 1, qsize, q)
    ensures g.q != [] && next == First(g.q[1..] + g.after)
      ==> qsize > 0 && CountersAgree(g.TakeQ(), psize, qsize - 1, next)
  {
  }

  /** One turn of the inner loop. */
  method MergeStep(cmp: Comparator, res: Results?, ghost o: Order, list0: ListHead?, tail0: ListHead?, p0: ListHead?,
                   q0: ListHead?, psize0: nat, qsize0: nat, ghost pos: map<ListHead, nat>, ghost g0: Progress,
                   ghost g1: Progress, ghost d: Book<ListHead>, ghost nodes: set<ListHead>,
                   ghost infos: set<ListData>)
    returns (list: ListHead?, tail: ListHead?, p: ListHead?, q: ListHead?, psize: nat, qsize: nat,
             ghost g: Progress, ghost e: Book<ListHead>)
    requires Lawful(o, cmp, res != null)
    requires MergeLoop(o, pos, g0, g1, d, list0, tail0, p0, q0, psize0, qsize0)
    requires psize0 > 0 || (qsize0 > 0 && q0 != null)
    requires infos == Infos(d) && forall n :: n in g1.out ==> n in nodes
    modifies nodes`next, infos`data16, infos`idx, res
    ensures MergeLoop(o, pos, g0, g, e, list, tail, p, q, psize, qsize)
    ensures Evolves(o, d, e)
    ensures |g.p| + |g.q| < |g1.p| + |g1.q|
  {
    hide From;
    hide Ordered;
    hide Mirrors;
    hide Evolves;
    hide Pending;
    hide CountersAgree;
    hide Infos;
    LoopParts(o, pos, g0, g1, d, list0, tail0, p0, q0, psize0, qsize0);
    var fromLeft: bool;
    fromLeft, e := Choose(cmp, res, o, p0, q0, psize0, qsize0, d, pos, g1);
    list, tail, p, q, psize, qsize := list0, tail0, p0, q0, psize0, qsize0;
    if fromLeft {
      FromTakeP(g0, g1);
      list, tail, p := StepLeft(list, tail, p, g1, q, e);
      CountDown(g1, psize, qsize, q, q);
      g := g1.TakeP();
      psize := psize - 1;
    } else {
      FromTakeQ(g0, g1);
      list, tail, q := StepRight(list, tail, q, g1, p, e);
      CountDown(g1, psize, qsize, q0, q);
      g := g1.TakeQ();
      qsize := qsize - 1;
    }
  }

  lemma EvolvesTrans(o: Order, d: Book<ListHead>, e: Book<ListHead>, f: Book<ListHead>)
    requires Composes(o.may) && Evolves(o, d, e) && Evolves(o, e, f)
    ensures Evolves(o, d, f)
  {
  }

  lemma EvolvesInfos(o: Order, d: Book<ListHead>, e: Book<ListHead>)
    requires Evolves(o, d, e)
    ensures Infos(e) == Infos(d)
  {
  }

  /** Before the first turn. */
  lemma LoopStarts(o: Order, pos: map<ListHead, nat>, g0: Progress, d: Book<ListHead>, off: nat,
                   list: ListHead?, tail: ListHead?, p: ListHead?, q: ListHead?, psize: nat, qsize: nat)
    requires Mirrors(d) && Pending(g0, list, tail, p, q) && CountersAgree(g0, psize, qsize, q) && g0.merged == []
    requires Run(o, d, pos, g0.p, off) && (g0.q == [] || Run(o, d, pos, g0.q, off + |g0.p|))
    ensures MergeLoop(o, pos, g0, g0, d, list, tail, p, q, psize, qsize)
  {
    StartMerging(o, d, pos, g0.p, g0.q, off);
    hide Pending;
    hide CountersAgree;
    hide Mirrors;
    assert g0.out == g0.out + [];
  }

  /** After the last turn. */
  lemma LoopEnds(o: Order, pos: map<ListHead, nat>, g0: Progress, g: Progress, d: Book<ListHead>, e: Book<ListHead>,
                 off: nat, list: ListHead?, tail: ListHead?, p: ListHead?, q: ListHead?, psize: nat, qsize: nat)
    requires MergeLoop(o, pos, g0, g, e, list, tail, p, q, psize, qsize)
    requires !(psize > 0 || (qsize > 0 && q != null)) && g0.merged == []
    requires Run(o, d, pos, g0.p, off) && (g0.q == [] || Run(o, d, pos, g0.q, off + |g0.p|))
    ensures From(g0, g) && g.p == [] && g.q == [] && Pending(g, list, tail, null, q) && Mirrors(e)
    ensures Run(o, e, pos, g.merged, off)
  {
    LoopParts(o, pos, g0, g, e, list, tail, p, q, psize, qsize);
    FromNodes(g0, g);
    hide From;
    hide Mirrors;
    assert Run(o, e, pos, g.merged, off) by {
      hide Pending;
      assert g0.p[0] in multiset(g.merged);
      FinishMerging(o, e, pos, g.merged, g0.p, g0.q, off);
    }
  }

  /**
   * The inner loop: merge the psize nodes from p with at most insize nodes from q
   * onto the end of the output list.
   */
  method MergeTwo(cmp: Comparator, res: Results?, ghost o: Order, p0: ListHead?, q0: ListHead?, psize0: nat,
                  insize: nat, list0: ListHead?, tail0: ListHead?, ghost d: Book<ListHead>,
                  ghost pos: map<ListHead, nat>, ghost g0: Progress, ghost off: nat,
                  ghost nodes: set<ListHead>, ghost infos: set<ListData>)
    returns (list: ListHead?, tail: ListHead?, q: ListHead?, ghost g: Progress, ghost e: Book<ListHead>)
    requires Lawful(o, cmp, res != null)
    requires Mirrors(d) && infos == Infos(d) && forall n :: n in g0.Nodes() ==> n in nodes
    requires Pending(g0, list0, tail0, p0, q0) && CountersAgree(g0, psize0, insize, q0) && g0.merged == []
    requires Run(o, d, pos, g0.p, off)
    requires g0.q == [] || Run(o, d, pos, g0.q, off + |g0.p|)
    modifies nodes`next, infos`data16, infos`idx, res
    ensures From(g0, g) && g.p == [] && g.q == []
    ensures Pending(g, list, tail, null, q)
    ensures Mirrors(e) && Evolves(o, d, e)
    ensures Run(o, e, pos, g.merged, off)
  {
    hide *;
    var p := p0;
    var psize, qsize := psize0, insize;
    list, tail, q, g, e := list0, tail0, q0, g0, d;
    LoopStarts(o, pos, g0, d, off, list, tail, p, q, psize, qsize);
    Untouched(o, cmp, res != null, d);
    while psize > 0 || (qsize > 0 && q != null)
      invariant MergeLoop(o, pos, g0, g, e, list, tail, p, q, psize, qsize)
      invariant Evolves(o, d, e)
      decreases |g.p| + |g.q|
    {
      LoopParts(o, pos, g0, g, e, list, tail, p, q, psize, qsize);
      FromNodes(g0, g);
      EvolvesInfos(o, d, e);
      ghost var before := e;
      list, tail, p, q, psize, qsize, g, e := MergeStep(cmp, res, o, list, tail, p, q, psize, qsize, pos, g0, g, e,
        nodes, infos);
      EvolvesTrans(o, d, before, e);
    }
    LoopEnds(o, pos, g0, g, d, e, off, list, tail, p, q, psize, qsize);
  }

  /** Step insize places along from p. */
  method Advance(p: ListHead, insize: nat, ghost s: seq<ListHead>) returns (q: ListHead?, psize: nat)
    requires IsList(s, p) && insize > 0
    ensures psize == if insize <= |s| then insize else |s|
    ensures q == First(s[psize..])
  {
    q, psize := p, 0;
    for i := 0 to insize
      invariant psize == i < |s|
      invariant q == s[psize]
    {
      assert i < |s| - 1 ==> s[i].next == s[i + 1];
      psize := psize + 1;
      q := q.next;
      if q == null {
        break;
      }
    }
    assert psize < |s| ==> s[psize..][0] == s[psize];
  }

  /** The pointers between two merges of a pass. */
  ghost predicate PassPointers(all: multiset<ListHead>, out: seq<ListHead>, todo: seq<ListHead>,
                               list: ListHead?, tail: ListHead?, p: ListHead?)
    reads out`next, todo`next
  {
    && Unique(all) && multiset(out) + multiset(todo) == all
    && Linked(out) && list == First(out) && tail == Last(out)
    && IsList(todo, p)
  }

  /** A list cut in two. */
  lemma CutList(s: seq<ListHead>, t: seq<ListHead>, p: ListHead?)
    requires IsList(s + t, p) && s != []
    ensures p == s[0] && Linked(s) && IsList(t, First((s + t)[|s|..]))
  {
    assert (s + t)[|s|..] == t;
    assert forall i :: 0 <= i < |s| ==> (s + t)[i] == s[i];
    forall i | 0 <= i < |t| - 1
      ensures t[i].next == t[i + 1]
    {
      assert (s + t)[|s| + i] == t[i];
    }
    assert t != [] ==> (s + t)[|s| + |t| - 1] == t[|t| - 1];
  }

  /** The next two runs are ready to be merged. */
  lemma MergeReady(all: multiset<ListHead>, out: seq<ListHead>, left: seq<ListHead>, right: seq<ListHead>,
                   after: seq<ListHead>, list: ListHead?, tail: ListHead?, p: ListHead?, q: ListHead?, psize: nat,
                   insize: nat)
    requires PassPointers(all, out, left + (right + after), list, tail, p)
    requires 0 < |left| && |right| <= insize && (|right| < insize ==> after == [])
    requires psize == |left| && q == First((left + (right + after))[psize..])
    ensures var g := Progress(out, [], left, right, after);
      Pending(g, list, tail, p, q) && CountersAgree(g, psize, insize, q) && g.Nodes() == all
  {
    CutList(left, right + after, p);
    hide Linked;
    hide Unique;
    assert multiset(left + (right + after)) == multiset(left) + (multiset(right) + multiset(after));
    assert Progress(out, [], left, right, after).Nodes() == all;
  }

  /** One merge is done; p = q. */
  lemma MergeDone(all: multiset<ListHead>, g0: Progress, g: Progress, list: ListHead?, tail: ListHead?, q: ListHead?)
    requires From(g0, g) && g.p == [] && g.q == [] && g0.merged == [] && g0.Nodes() == all
    requires Pending(g, list, tail, null, q)
    ensures PassPointers(all, g0.out + g.merged, g0.after, list, tail, q)
    ensures |g.merged| == |g0.p| + |g0.q|
  {
    assert [] + g.after == g.after;
    FromNodes(g0, g);
    assert |multiset(g.merged)| == |g.merged|;
  }

  /** Everything a pass keeps: done and rest are the runs, out and todo their nodes in order. */
  ghost predicate PassInvariant(o: Order, pos: map<ListHead, nat>, all: multiset<ListHead>, blocks: nat, w: nat,
                                g: PassState, e: Book<ListHead>, list: ListHead?, tail: ListHead?, p: ListHead?)
    reads g.out`next, g.todo`next, e.data.Keys`info, Infos(e)
  {
    && g.out == Flatten(g.done) && g.todo == Flatten(g.rest)
    && PassLoop(o, e, pos, blocks, g.done, g.rest, w)
    && PassPointers(all, g.out, g.todo, list, tail, p)
    && Mirrors(e)
  }

  datatype PassState = PassState(done: seq<seq<ListHead>>, rest: seq<seq<ListHead>>, out: seq<ListHead>,
                                 todo: seq<ListHead>)
  {
    ghost function Next(merged: seq<ListHead>): PassState {
      PassState(done + [merged], Beyond(rest), out + merged, Flatten(Beyond(rest)))
    }
  }

  lemma PassStarts(o: Order, pos: map<ListHead, nat>, all: multiset<ListHead>, runs: seq<seq<ListHead>>, w: nat,
                   d: Book<ListHead>, p: ListHead?)
    requires Runs(o, d, pos, runs, 0, w) && runs != []
    requires IsList(Flatten(runs), p) && Unique(all) && multiset(Flatten(runs)) == all && Mirrors(d)
    ensures PassInvariant(o, pos, all, |runs|, w, PassState([], runs, [], Flatten(runs)), d, null, null, p)
  {
  }

  /** The list pointer is null exactly when no runs are left. */
  lemma PassGuard(o: Order, pos: map<ListHead, nat>, all: multiset<ListHead>, blocks: nat, w: nat, g: PassState,
                  e: Book<ListHead>, list: ListHead?, tail: ListHead?, p: ListHead?)
    requires PassInvariant(o, pos, all, blocks, w, g, e, list, tail, p)
    ensures p == null <==> g.rest == []
    ensures IsList(g.todo, p)
  {
    hide Linked;
    hide Unique;
    hide Mirrors;
    if g.rest != [] {
      assert g.rest[0] != [];
      assert g.todo != [];
    }
  }

  /** The next two runs, from the invariant of the pass. */
  lemma NextRuns(o: Order, pos: map<ListHead, nat>, e: Book<ListHead>, blocks: nat, g: PassState, w: nat)
    returns (g0: Progress)
    requires PassLoop(o, e, pos, blocks, g.done, g.rest, w) && g.rest != []
    requires g.out == Flatten(g.done) && g.todo == Flatten(g.rest)
    ensures g0 == Progress(g.out, [], g.rest[0], Second(g.rest), Flatten(Beyond(g.rest)))
    ensures g.todo == g0.p + (g0.q + g0.after) && 0 < |g0.p| && |g0.q| <= w && (|g0.q| < w ==> g0.after == [])
    ensures |g0.p| == if w <= |g.todo| then w else |g.todo|
    ensures Run(o, e, pos, g0.p, |g.out|) && (g0.q == [] || Run(o, e, pos, g0.q, |g.out| + |g0.p|))
  {
    g0 := Progress(g.out, [], g.rest[0], Second(g.rest), Flatten(Beyond(g.rest)));
    hide Run;
    hide Flatten;
    SplitRuns(o, e, pos, g.rest, |g.out|, w);
  }

  /** The pass turn up to the merge: the runs and pointers the merge starts from. */
  lemma TurnStarts(o: Order, pos: map<ListHead, nat>, all: multiset<ListHead>, blocks: nat, w: nat, g: PassState,
                   e: Book<ListHead>, list: ListHead?, tail: ListHead?, p: ListHead?, q: ListHead?, psize: nat)
    returns (g0: Progress)
    requires PassInvariant(o, pos, all, blocks, w, g, e, list, tail, p) && g.rest != []
    requires psize == if w <= |g.todo| then w else |g.todo|
    requires q == First(g.todo[psize..])
    ensures g0 == Progress(g.out, [], g.rest[0], Second(g.rest), Flatten(Beyond(g.rest))) && g0.Nodes() == all
    ensures Pending(g0, list, tail, p, q) && CountersAgree(g0, psize, w, q) && Mirrors(e)
    ensures Run(o, e, pos, g0.p, |g.out|)
    ensures g0.q == [] || Run(o, e, pos, g0.q, |g.out| + |g0.p|)
    ensures PassLoop(o, e, pos, blocks, g.done, g.rest, w) && g.out == Flatten(g.done)
  {
    assert && Mirrors(e) && PassLoop(o, e, pos, blocks, g.done, g.rest, w)
           && PassPointers(all, g.out, g.todo, list, tail, p)
           && g.out == Flatten(g.done) && g.todo == Flatten(g.rest) by {
      hide PassPointers;
      hide Mirrors;
      hide PassLoop;
      hide Flatten;
    }
    hide *;
    g0 := NextRuns(o, pos, e, blocks, g, w);
    MergeReady(all, g0.out, g0.p, g0.q, g0.after, list, tail, p, q, psize, w);
  }

  /** The pass turn after the merge. */
  lemma TurnEnds(o: Order, pos: map<ListHead, nat>, all: multiset<ListHead>, blocks: nat, w: nat, s: PassState,
                 d: Book<ListHead>, e: Book<ListHead>, g0: Progress, g: Progress, list: ListHead?, tail: ListHead?,
                 q: ListHead?)
    requires PassLoop(o, d, pos, blocks, s.done, s.rest, w) && s.rest != [] && Evolves(o, d, e) && Mirrors(e)
    requires s.out == Flatten(s.done)
    requires g0 == Progress(s.out, [], s.rest[0], Second(s.rest), Flatten(Beyond(s.rest))) && g0.Nodes() == all
    requires From(g0, g) && g.p == [] && g.q == [] && Pending(g, list, tail, null, q)
    requires Run(o, e, pos, g.merged, |s.out|)
    ensures PassInvariant(o, pos, all, blocks, w, s.Next(g.merged), e, list, tail, q)
  {
    hide *;
    MergeDone(all, g0, g, list, tail, q);
    PassStep(o, d, e, pos, blocks, s.done, s.rest, w, g.merged);
    FoldPass(o, pos, all, blocks, w, s, g.merged, e, list, tail, q);
  }

  lemma FoldPass(o: Order, pos: map<ListHead, nat>, all: multiset<ListHead>, blocks: nat, w: nat, s: PassState,
                 merged: seq<ListHead>, e: Book<ListHead>, list: ListHead?, tail: ListHead?, p: ListHead?)
    requires PassLoop(o, e, pos, blocks, s.done + [merged], Beyond(s.rest), w) && Mirrors(e)
    requires PassPointers(all, s.out + merged, Flatten(Beyond(s.rest)), list, tail, p)
    requires Flatten(s.done + [merged]) == s.out + merged
    ensures PassInvariant(o, pos, all, blocks, w, s.Next(merged), e, list, tail, p)
  {
    hide PassLoop;
    hide PassPointers;
    hide Mirrors;
    hide Flatten;
  }

  /** One turn of a pass: cut off the next one or two runs and merge them. */
  method PassTurn(cmp: Comparator, res: Results?, ghost o: Order, list0: ListHead?, tail0: ListHead?, p0: ListHead,
                  insize: nat, ghost d: Book<ListHead>, ghost pos: map<ListHead, nat>, ghost all: multiset<ListHead>,
                  ghost blocks: nat, ghost s: PassState, ghost nodes: set<ListHead>, ghost infos: set<ListData>)
    returns (list: ListHead?, tail: ListHead?, p: ListHead?, ghost merged: seq<ListHead>, ghost e: Book<ListHead>)
    requires Lawful(o, cmp, res != null)
    requires PassInvariant(o, pos, all, blocks, insize, s, d, list0, tail0, p0) && insize > 0
    requires infos == Infos(d) && forall n :: n in all ==> n in nodes
    modifies nodes`next, infos`data16, infos`idx, res
    ensures s.rest != []
    ensures PassInvariant(o, pos, all, blocks, insize, s.Next(merged), e, list, tail, p)
    ensures Evolves(o, d, e)
  {
    hide *;
    PassGuard(o, pos, all, blocks, insize, s, d, list0, tail0, p0);
    var q, psize := Advance(p0, insize, s.todo);
    ghost var g0 := TurnStarts(o, pos, all, blocks, insize, s, d, list0, tail0, p0, q, psize);
    ghost var g;
    list, tail, p, g, e := MergeTwo(cmp, res, o, p0, q, psize, insize, list0, tail0, d, pos, g0, |s.out|, nodes, infos);
    TurnEnds(o, pos, all, blocks, insize, s, d, e, g0, g, list, tail, p);
    merged := g.merged;
  }

  /** The last node is unlike the others. */
  lemma LastDiffers(all: multiset<ListHead>, out: seq<ListHead>)
    requires Unique(all) && multiset(out) == all && out != []
    ensures forall i :: 0 <= i < |out| - 1 ==> out[i] != out[|out| - 1]
    ensures out[|out| - 1] in all
  {
    var t := out[|out| - 1];
    assert out == out[..|out| - 1] + [t];
    assert t in all && all[t] == 1;
    assert t !in out[..|out| - 1];
    forall i | 0 <= i < |out| - 1
      ensures out[i] != t
    {
      assert out[i] == out[..|out| - 1][i];
    }
  }

  /** When the list pointer is null, everything has been output. */
  lemma PassEnds(o: Order, pos: map<ListHead, nat>, all: multiset<ListHead>, blocks: nat, w: nat, g: PassState,
                 e: Book<ListHead>, list: ListHead?, tail: ListHead?, p: ListHead?)
    requires PassInvariant(o, pos, all, blocks, w, g, e, list, tail, p) && g.rest == [] && blocks > 0
    ensures Runs(o, e, pos, g.done, 0, 2 * w) && Mirrors(e) && |g.done| == (blocks + 1) / 2
    ensures tail != null && tail in all && tail == Last(g.out) && Linked(g.out) && list == First(g.out)
    ensures g.out == Flatten(g.done) && multiset(g.out) == all
    ensures forall i :: 0 <= i < |g.out| - 1 ==> g.out[i] != tail
  {
    assert g.done[0] != [];
    assert g.out != [];
    LastDiffers(all, g.out);
  }

  /** tail->next = NULL. */
  method CutTail(tail: ListHead, ghost out: seq<ListHead>, ghost e: Book<ListHead>, ghost list: ListHead?)
    requires Linked(out) && list == First(out) && Last(out) == tail && Mirrors(e)
    requires forall i :: 0 <= i < |out| - 1 ==> out[i] != tail
    modifies tail`next
    ensures IsList(out, list) && Mirrors(e)
  {
    tail.next := null;
  }

  /** One pass over the list: merge its runs in pairs. */
  method MergePass(cmp: Comparator, res: Results?, ghost o: Order, list0: ListHead?, insize: nat,
                   ghost d: Book<ListHead>, ghost pos: map<ListHead, nat>, ghost runs: seq<seq<ListHead>>,
                   ghost all: multiset<ListHead>, ghost nodes: set<ListHead>, ghost infos: set<ListData>)
    returns (list: ListHead?, nmerges: nat, ghost done: seq<seq<ListHead>>, ghost e: Book<ListHead>)
    requires Lawful(o, cmp, res != null)
    requires Mirrors(d) && infos == Infos(d) && forall n :: n in all ==> n in nodes
    requires runs != [] && insize > 0 && Runs(o, d, pos, runs, 0, insize)
    requires IsList(Flatten(runs), list0) && Unique(all) && multiset(Flatten(runs)) == all
    modifies nodes`next, infos`data16, infos`idx, res
    ensures Mirrors(e) && Evolves(o, d, e)
    ensures Runs(o, e, pos, done, 0, 2 * insize)
    ensures IsList(Flatten(done), list) && multiset(Flatten(done)) == all
    ensures nmerges == |done| == (|runs| + 1) / 2
  {
    hide Runs;
    hide PassInvariant;
    hide Mirrors;
    hide Evolves;
    hide Flatten;
    hide Lawful;
    hide Composes;
    hide Unique;
    hide Linked;
    var p := list0;
    list := null;
    var tail: ListHead? := null;
    nmerges := 0;
    e := d;
    ghost var g := PassState([], runs, [], Flatten(runs));
    PassStarts(o, pos, all, runs, insize, d, p);
    Untouched(o, cmp, res != null, d);
    while p != null
      invariant PassInvariant(o, pos, all, |runs|, insize, g, e, list, tail, p)
      invariant Evolves(o, d, e) && nmerges == |g.done|
      decreases |g.rest|
    {
      nmerges := nmerges + 1;
      EvolvesInfos(o, d, e);
      ghost var before := e;
      ghost var merged;
      list, tail, p, merged, e := PassTurn(cmp, res, o, list, tail, p, insize, e, pos, all, |runs|, g, nodes, infos);
      EvolvesTrans(o, d, before, e);
      g := g.Next(merged);
    }
    PassGuard(o, pos, all, |runs|, insize, g, e, list, tail, p);
    PassEnds(o, pos, all, |runs|, insize, g, e, list, tail, p);
    done := g.done;
    hide *;
    CutTail(tail, g.out, e, list);
  }

  ghost function Nodes(s: seq<ListHead>): set<ListHead> { set n | n in s }

  /**
   * core_list_mergesort on a non-empty list (an empty one would dereference the null tail), for any
   * lawful comparison routine: the same nodes, relinked, stably sorted; with two or more nodes each
   * has been compared, and its data is final.
   */
  method MergeSort(list0: ListHead?, cmp: Comparator, res: Results?, ghost o: Order, ghost s: seq<ListHead>,
                   ghost d: Book<ListHead>)
    returns (list: ListHead?, ghost t: seq<ListHead>, ghost e: Book<ListHead>)
    requires Lawful(o, cmp, res != null)
    requires s != [] && Distinct(s) && IsList(s, list0)
    requires Mirrors(d) && d.data.Keys == Nodes(s) && d.seen == {}
    modifies s`next, Infos(d)`data16, Infos(d)`idx, res
    ensures IsList(t, list) && StablySorted(o, e, s, t)
    ensures Mirrors(e) && Evolves(o, d, e)
    ensures |s| >= 2 ==> e.seen == Nodes(s) && forall n :: n in s ==> Settled(o, e, n)
  {
    hide *;
    ghost var all, infos, pos := multiset(s), Infos(d), Positions(s);
    ghost var nodes := Nodes(s);
    NodesAre(s);
    ghost var runs := Singles(s);
    var insize := 1;
    list, e := list0, d;
    Untouched(o, cmp, res != null, d);
    SortStarts(o, d, pos, s);
    while true
      invariant Mirrors(e) && Evolves(o, d, e) && Unique(all) && runs != []
      invariant insize > 0 && Runs(o, e, pos, runs, 0, insize)
      invariant IsList(Flatten(runs), list) && multiset(Flatten(runs)) == all
      decreases |runs|
    {
      EvolvesInfos(o, d, e);
      ghost var before := e;
      var nmerges: nat;
      list, nmerges, runs, e := MergePass(cmp, res, o, list, insize, e, pos, runs, all, nodes, infos);
      EvolvesTrans(o, d, before, e);
      if nmerges <= 1 {
        t := Flatten(runs);
        OneRunIsSorted(o, e, s, runs, 2 * insize);
        AllCompared(o, d, e, s);
        return;
      }
      insize := insize * 2;
    }
  }

  lemma SortStarts(o: Order, d: Book<ListHead>, pos: map<ListHead, nat>, s: seq<ListHead>)
    requires s != [] && Distinct(s) && pos == Positions(s) && d.data.Keys == Nodes(s)
    ensures Runs(o, d, pos, Singles(s), 0, 1) && Flatten(Singles(s)) == s && Singles(s) != []
    ensures Unique(multiset(s))
  {
    SequenceIsUnique(s);
    SinglesAreRuns(o, d, pos, s, 0);
  }

  lemma AllCompared(o: Order, d: Book<ListHead>, e: Book<ListHead>, s: seq<ListHead>)
    requires Evolves(o, d, e) && d.data.Keys == Nodes(s) && d.seen == {}
    requires |s| >= 2 ==> (forall n :: n in s ==> n in e.data) && AllSettled(o, e, s)
    ensures |s| >= 2 ==> e.seen == Nodes(s) && forall n :: n in s ==> Settled(o, e, n)
  {
  }

  lemma NodesAre(s: seq<ListHead>)
    ensures forall n :: n in multiset(s) <==> n in Nodes(s)
    ensures forall n :: n in s <==> n in Nodes(s)
  {
  }

  lemma {:induction false} SequenceIsUnique(s: seq<ListHead>)
    requires Distinct(s)
    ensures Unique(multiset(s))
  {
    if s != [] {
      SequenceIsUnique(s[1..]);
      assert s == [s[0]] + s[1..];
      assert s[0] !in s[1..];
    }
  }

}
