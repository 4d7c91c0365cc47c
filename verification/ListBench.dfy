/**
 * The two comparison routines of the list benchmark, and the orders they decide by.
 */
module ListBench {
  import Crc
  import opened Basics
  import opened SortedRuns
  import opened ListSort

  function Backup(d: Datum): nat { d.data16 / 0x100 }

  function Low7(d: Datum): nat { d.data16 % 0x80 }

  /** Bit 7: the low seven bits are a result. */
  predicate Cached(d: Datum) { d.data16 / 0x80 % 2 == 1 }

  /** The low byte is the backup byte. */
  predicate Restored(d: Datum) { d.data16 == Backup(d) * 0x101 }

  // ----- calc_func -----

  /** core_bench_state and core_bench_matrix, as functions of the operand and the running CRC. */
  datatype Kernels = Kernels(state: (nat, Crc.Register) -> U16, matrix: (nat, Crc.Register) -> U16)

  /** The four operand bits, twice. */
  function Operand(d: Datum): nat { d.data16 / 8 % 16 * 17 }

  /** What the kernel that the datum names returns; the datum itself if it names none. */
  function Raw(k: Kernels, d: Datum, r: Record): U16 {
    match d.data16 % 8
    case 0 => k.state(if Operand(d) < 0x22 then 0x22 else Operand(d), r.crc)
    case 1 => k.matrix(Operand(d), r.crc)
    case _ => d.data16
  }

  function Cache(d: Datum, raw: U16): Datum { d.(data16 := Backup(d) * 0x100 + 0x80 + raw % 0x80) }

  /** The result enters the running CRC; the first result of each kernel is remembered. */
  function Recorded(d: Datum, raw: U16, r: Record): Record {
    Record(Crc.Feed(Crc.Bits(raw, 16), r.crc),
           if d.data16 % 8 == 0 && r.crcstate == 0 then raw else r.crcstate,
           if d.data16 % 8 == 1 && r.crcmatrix == 0 then raw else r.crcmatrix)
  }

  function Calculated(k: Kernels, d: Datum, r: Record): (Datum, Record) {
    if Cached(d) then (d, r) else (Cache(d, Raw(k, d, r)), Recorded(d, Raw(k, d, r), r))
  }

  /** The three fields of a cached word: backup byte, cache flag, seven result bits. */
  lemma CachedFields(d: Datum, raw: U16)
    ensures var w := Cache(d, raw); Backup(w) == Backup(d) && Cached(w) && Low7(w) == raw % 0x80
  {
  }

  /** The switch of calc_func. */
  method CallKernel(d: ListData, res: Results, k: Kernels) returns (retval: U16)
    modifies res
    ensures retval == Raw(k, d.Value(), old(res.record))
    ensures var n, r := d.data16 / 8 % 16, old(res.record);
      && (d.data16 % 8 == 0 ==> retval == k.state(if n < 2 then 0x22 else 0x11 * n, r.crc))
      && (d.data16 % 8 == 1 ==> retval == k.matrix(0x11 * n, r.crc))
      && (d.data16 % 8 > 1 ==> retval == d.data16 && res.record == r)
    ensures res.record.crcstate
         == if d.data16 % 8 == 0 && old(res.record.crcstate) == 0 then retval else old(res.record.crcstate)
    ensures res.record.crcmatrix
         == if d.data16 % 8 == 1 && old(res.record.crcmatrix) == 0 then retval else old(res.record.crcmatrix)
    ensures res.record == Recorded(d.Value(), retval, old(res.record)).(crc := old(res.record.crc))
  {
    hide Crc.Feed;
    hide Crc.Bits;
    var flag := d.data16 % 8;
    var dtype := d.data16 / 8 % 16;
    dtype := dtype + dtype * 16;
    retval := d.data16;
    if flag == 0 {
      if dtype < 0x22 {
        dtype := 0x22;
      }
      retval := k.state(dtype, res.record.crc);
      if res.record.crcstate == 0 {
        res.record := res.record.(crcstate := retval);
      }
    } else if flag == 1 {
      retval := k.matrix(dtype, res.record.crc);
      if res.record.crcmatrix == 0 {
        res.record := res.record.(crcmatrix := retval);
      }
    }
  }

  /** calc_func: the cached seven bits, computed by a kernel and cached on the first call. */
  method CalcFunc(d: ListData, res: Results, k: Kernels) returns (r: nat)
    modifies d`data16, res
    ensures (d.Value(), res.record) == Calculated(k, old(d.Value()), old(res.record))
    ensures r == Low7(d.Value()) && Cached(d.Value()) && Backup(d.Value()) == old(Backup(d.Value()))
    ensures if old(Cached(d.Value())) then d.Value() == old(d.Value()) && res.record == old(res.record)
      else r == Raw(k, old(d.Value()), old(res.record)) % 0x80
  {
    hide Crc.Feed;
    hide Crc.Bits;
    var data := d.data16;
    if data / 0x80 % 2 == 1 {
      return data % 0x80;
    }
    ghost var before, raw := d.Value(), Raw(k, d.Value(), res.record);
    var retval := CallKernel(d, res, k);
    var crc := Crc.Half(retval, res.record.crc);
    res.record := res.record.(crc := crc);
    CachedFields(before, raw);
    retval := retval % 0x80;
    d.data16 := data / 0x100 * 0x100 + 0x80 + retval;
    r := retval;
  }

  // ----- cmp_complex and cmp_idx -----

  function ComplexVerdict(k: Kernels, a: Datum, b: Datum, r: Record): Verdict {
    var (x, r1) := Calculated(k, a, r);
    var (y, r2) := Calculated(k, b, r1);
    Verdict(x, y, Some(r2), Low7(x) - Low7(y))
  }

  function Restore(d: Datum): Datum { d.(data16 := Backup(d) * 0x100 + Backup(d)) }

  function IndexVerdict(a: Datum, b: Datum, r: Option<Record>): Verdict {
    Verdict(if r.None? then Restore(a) else a, if r.None? then Restore(b) else b, r, a.idx - b.idx)
  }

  /** cmp_complex: the difference of the two values, after both have been cached. */
  method CompareComplex(a: ListData, b: ListData, res: Results, k: Kernels) returns (c: int)
    requires a != b
    modifies a`data16, b`data16, res
    ensures Verdict(a.Value(), b.Value(), Some(res.record), c)
      == ComplexVerdict(k, old(a.Value()), old(b.Value()), old(res.record))
    ensures Cached(a.Value()) && Cached(b.Value()) && c == a.data16 % 0x80 - b.data16 % 0x80
  {
    hide Calculated;
    var val1: int := CalcFunc(a, res, k);
    var val2: int := CalcFunc(b, res, k);
    c := val1 - val2;
  }

  /** cmp_idx: without a result record it also restores the data from the backup byte. */
  method CompareIdx(a: ListData, b: ListData, res: Results?) returns (c: int)
    requires a != b
    modifies a`data16, b`data16
    ensures var r := if res == null then None else Some(res.record);
      Verdict(a.Value(), b.Value(), r, c) == IndexVerdict(old(a.Value()), old(b.Value()), r)
    ensures c == a.idx - b.idx
    ensures if res == null
      then a.data16 == old(a.data16) / 0x100 * 0x101 && b.data16 == old(b.data16) / 0x100 * 0x101
      else a.data16 == old(a.data16) && b.data16 == old(b.data16)
  {
    if res == null {
      a.data16 := a.data16 / 0x100 * 0x100 + a.data16 / 0x100;
      b.data16 := b.data16 / 0x100 * 0x100 + b.data16 / 0x100;
    }
    c := a.idx - b.idx;
  }

  // ----- the orders they decide by -----

  /** Comparing by value leaves a datum as it is, or caches what the kernel it names returns for some record. */
  ghost predicate Becomes(k: Kernels, x: Datum, y: Datum) {
    y == x || (!Cached(x) && exists r: Record :: y == Cache(x, Raw(k, x, r)))
  }

  ghost function ValueOrder(k: Kernels): Order {
    Order((x: Datum, y: Datum) => Low7(x) <= Low7(y), (x: Datum) => Cached(x), (x: Datum, y: Datum) => Becomes(k, x, y))
  }

  ghost const INDEX_ORDER :=
    Order((x: Datum, y: Datum) => x.idx <= y.idx,
          (x: Datum) => true,
          (x: Datum, y: Datum) => y == x)

  ghost const RESTORING_ORDER :=
    Order((x: Datum, y: Datum) => x.idx <= y.idx,
          (x: Datum) => Restored(x),
          (x: Datum, y: Datum) => y == x || y == Restore(x))

  /** Index and backup byte stay, and so does the value of a datum that names no kernel. */
  lemma BecomesKeeps(k: Kernels, x: Datum, y: Datum)
    requires Becomes(k, x, y)
    ensures y.idx == x.idx && Backup(y) == Backup(x)
    ensures x.data16 % 8 >= 2 || Cached(x) ==> Low7(y) == Low7(x)
  {
    if y != x {
      var r: Record :| y == Cache(x, Raw(k, x, r));
      CachedFields(x, Raw(k, x, r));
    }
  }

  lemma ValuesCompose(k: Kernels)
    ensures TotalPreorder(ValueOrder(k).leq) && Composes(ValueOrder(k).may)
  {
    forall x, y, z | Becomes(k, x, y) && Becomes(k, y, z)
      ensures Becomes(k, x, z)
    {
      if y != x {
        var r: Record :| y == Cache(x, Raw(k, x, r));
        CachedFields(x, Raw(k, x, r));
      }
    }
  }

  lemma CalculatedTouches(k: Kernels, d: Datum, r: Record)
    ensures Touched(ValueOrder(k), d, Calculated(k, d, r).0)
  {
    CachedFields(d, Raw(k, d, r));
  }

  /** cmp_complex as the argument of the sort. */
  function Complex(k: Kernels): Comparator {
    (a: Datum, b: Datum, r: Option<Record>) requires r.Some? => ComplexVerdict(k, a, b, r.value)
  }

  /** cmp_idx as the argument of the sort. */
  function ByIndex(): Comparator { (a: Datum, b: Datum, r: Option<Record>) => IndexVerdict(a, b, r) }

  lemma ComplexVerdictIsLawful(k: Kernels, a: Datum, b: Datum, r: Record)
    ensures LawfulVerdict(ValueOrder(k), a, b, true, ComplexVerdict(k, a, b, r))
  {
    hide Calculated;
    hide Becomes;
    hide Touched;
    CalculatedTouches(k, a, r);
    CalculatedTouches(k, b, Calculated(k, a, r).1);
  }

  lemma ComplexIsLawful(k: Kernels)
    ensures Lawful(ValueOrder(k), Complex(k), true)
  {
    hide Becomes;
    hide LawfulVerdict;
    hide ComplexVerdict;
    hide TotalPreorder;
    hide Composes;
    ValuesCompose(k);
    forall a, b, r: Option<Record> | r.Some?
      ensures Complex(k).requires(a, b, r) && LawfulVerdict(ValueOrder(k), a, b, true, Complex(k)(a, b, r))
    {
      ComplexVerdictIsLawful(k, a, b, r.value);
    }
  }

  lemma IndexIsLawful()
    ensures Lawful(INDEX_ORDER, ByIndex(), true) && Lawful(RESTORING_ORDER, ByIndex(), false)
  {
    forall d: Datum
      ensures Touched(RESTORING_ORDER, d, Restore(d)) && Restore(Restore(d)) == Restore(d)
    {
      RestoreTouches(d);
    }
    hide Touched;
    hide Restore;
  }

  lemma RestoreTouches(d: Datum)
    ensures Touched(RESTORING_ORDER, d, Restore(d)) && Restore(Restore(d)) == Restore(d)
  {
  }
}
