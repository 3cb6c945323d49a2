/** The batch-fetch fallback for virtual tables
    (browser/src/extension-loader.js:1387-1440) against the row-by-row scan it
    stands in for.

    An extension's cursor is any state `C` with its exports; `None` means that
    the export throws. Only `next` moves the cursor. */
module VtabBatch {
  import opened Text

  datatype Vtab<!C, V> = Vtab(
    eof: C -> Option<bool>,
    column: (C, nat) -> Option<V>,
    rowid: C -> Option<int>,
    next: C -> Option<C>)

  datatype VRow<V> = VRow(rowid: int, columns: seq<V>)

  const PROBE := 32

  const U32_BOUND := 0x1_0000_0000

  /** The columns from the `i`th on, up to the first that throws or the cap. */
  function ColumnsFrom<C, V>(v: Vtab<C, V>, c: C, i: nat): seq<V>
    decreases PROBE - i
  {
    if i >= PROBE || v.column(c, i).None? then [] else [v.column(c, i).value] + ColumnsFrom(v, c, i + 1)
  }

  /** The row under the cursor, as the fallback caches it. */
  function RowAt<C, V>(v: Vtab<C, V>, c: C): VRow<V>
    requires v.rowid(c).Some?
  {
    VRow(v.rowid(c).value, ColumnsFrom(v, c, 0))
  }

  /** Where the cursor is left, the rows read, and whether an export threw. */
  datatype Outcome<C, V> = Outcome(cursor: C, rows: seq<VRow<V>>, threw: bool)

  predicate AtEnd<C, V>(v: Vtab<C, V>, c: C) {
    v.eof(c) == Some(true)
  }

  /** The row-by-row scan of at most `n` rows: every row is read before the
      cursor moves on, and what was read before an export throws is kept. */
  function Scan<C, V>(v: Vtab<C, V>, c: C, n: nat): Outcome<C, V> {
    if n == 0 || AtEnd(v, c) then Outcome(c, [], false)
    else if v.eof(c).None? || v.rowid(c).None? then Outcome(c, [], true)
    else if v.next(c).None? then Outcome(c, [RowAt(v, c)], true)
    else Behind([RowAt(v, c)], Scan(v, v.next(c).value, n - 1))
  }

  /** Rows already read in front of what the rest of the scan gives. */
  function Behind<C, V>(rows: seq<VRow<V>>, rest: Outcome<C, V>): Outcome<C, V> {
    rest.(rows := rows + rest.rows)
  }

  /** The scan spelled out: row `i` is the one under the cursor after `i` moves,
      and the scan stops where it is told to or at the end of the table. */
  lemma {:induction false} ScanRowsAre<C, V>(v: Vtab<C, V>, cursors: seq<C>, n: nat)
    requires cursors != [] && |cursors| <= n + 1
    requires forall i :: 0 <= i < |cursors| - 1 ==>
               && v.eof(cursors[i]) == Some(false) && v.rowid(cursors[i]).Some?
               && v.next(cursors[i]) == Some(cursors[i + 1])
    requires |cursors| == n + 1 || v.eof(cursors[|cursors| - 1]) == Some(true)
    ensures var o := Scan(v, cursors[0], n);
            && !o.threw && o.cursor == cursors[|cursors| - 1] && |o.rows| == |cursors| - 1
            && forall i :: 0 <= i < |o.rows| ==>
                 o.rows[i] == VRow(v.rowid(cursors[i]).value, ColumnsFrom(v, cursors[i], 0))
    decreases |cursors|
  {
    hide ColumnsFrom;
    if |cursors| > 1 {
      var rest := cursors[1..];
      ScanRowsAre(v, rest, n - 1);
      var o, p := Scan(v, cursors[0], n), Scan(v, rest[0], n - 1);
      assert o == Behind([RowAt(v, cursors[0])], p);
      assert forall i :: 0 < i < |o.rows| ==> o.rows[i] == p.rows[i - 1] && rest[i - 1] == cursors[i];
    }
  }

  /** `Number(maxRows) >>> 0`. */
  function Max(maxRows: nat): nat {
    maxRows % U32_BOUND
  }

  /** At most what was asked for, and exactly that below 2^32. */
  lemma {:induction false} MaxIs(maxRows: nat)
    ensures Max(maxRows) <= maxRows && (maxRows < 0x1_0000_0000 ==> Max(maxRows) == maxRows)
  {
  }

  /** The fallback loop. When an export throws, all rows of the batch are lost
      and the caller gets a dispatch error; the cursor has moved all the same. */
  method FetchBatch<C, V>(v: Vtab<C, V>, cursor: C, maxRows: nat) returns (c: C, r: Option<seq<VRow<V>>>)
    ensures var o := Scan(v, cursor, Max(maxRows));
            c == o.cursor && r == if o.threw then None else Some(o.rows)
    ensures r.Some? ==> |r.value| <= maxRows
    ensures maxRows < 0x1_0000_0000 ==>
              var o := Scan(v, cursor, maxRows); c == o.cursor && r == if o.threw then None else Some(o.rows)
  {
    hide RowAt, ColumnsFrom;
    var rows: seq<VRow<V>> := [];
    var max := Max(maxRows);
    c := cursor;
    NothingBehind(Scan(v, c, max));
    while |rows| < max
      invariant |rows| <= max
      invariant Scan(v, cursor, max) == Behind(rows, Scan(v, c, max - |rows|))
    {
      var eof := v.eof(c);
      if eof.None? { return c, None; }
      if eof.value { break; }
      var cols := ProbeColumns(v, c);
      var rowid := v.rowid(c);
      if rowid.None? { return c, None; }
      var row := VRow(rowid.value, cols);
      RowIs(v, c);
      var next := v.next(c);
      if next.None? { return c, None; }
      BehindMore(rows, row, Scan(v, next.value, max - |rows| - 1));
      rows := rows + [row];
      c := next.value;
    }
    assert rows + [] == rows;
    MaxIs(maxRows);
    r := Some(rows);
  }

  lemma {:induction false} BehindMore<C, V>(rows: seq<VRow<V>>, row: VRow<V>, rest: Outcome<C, V>)
    ensures Behind(rows + [row], rest) == Behind(rows, Behind([row], rest))
  {
    assert rows + [row] + rest.rows == rows + ([row] + rest.rows);
  }

  lemma {:induction false} RowIs<C, V>(v: Vtab<C, V>, c: C)
    requires v.rowid(c).Some?
    ensures RowAt(v, c) == VRow(v.rowid(c).value, ColumnsFrom(v, c, 0))
  {
  }

  method ProbeColumns<C, V>(v: Vtab<C, V>, c: C) returns (cols: seq<V>)
    ensures cols == ColumnsFrom(v, c, 0)
  {
    cols := [];
    var i := 0;
    while i < PROBE
      invariant i <= PROBE
      invariant cols + ColumnsFrom(v, c, i) == ColumnsFrom(v, c, 0)
    {
      var cv := v.column(c, i);
      if cv.None? { break; }
      assert cols + ColumnsFrom(v, c, i) == cols + [cv.value] + ColumnsFrom(v, c, i + 1);
      cols := cols + [cv.value];
      i := i + 1;
    }
  }

  /** A row that is `width` columns wide is cached with its first 32. */
  lemma {:induction false} ColumnsAre<C, V>(v: Vtab<C, V>, c: C, i: nat, width: nat)
    requires i <= PROBE && forall k: nat :: v.column(c, k).Some? <==> k < width
    ensures var cols := ColumnsFrom(v, c, i);
            var all := if width < 32 then width else 32;
            && |cols| == (if i < all then all - i else 0)
            && forall k :: 0 <= k < |cols| ==> v.column(c, i + k) == Some(cols[k])
    decreases PROBE - i
  {
    if i < PROBE && i < width {
      ColumnsAre(v, c, i + 1, width);
      var cols, rest := ColumnsFrom(v, c, i), ColumnsFrom(v, c, i + 1);
      forall k | 0 <= k < |cols|
        ensures v.column(c, i + k) == Some(cols[k])
      {
        if k > 0 {
          assert cols[k] == rest[k - 1];
        }
      }
    }
  }

  /** A scan that stops early without a throw is at the end. */
  lemma {:induction false} ShortScanIsEnd<C, V>(v: Vtab<C, V>, c: C, n: nat)
    ensures var o := Scan(v, c, n);
            |o.rows| <= n && (|o.rows| < n && !o.threw ==> AtEnd(v, o.cursor))
  {
    hide RowAt;
    if n > 0 && !AtEnd(v, c) && v.eof(c).Some? && v.rowid(c).Some? && v.next(c).Some? {
      ShortScanIsEnd(v, v.next(c).value, n - 1);
    }
  }

  /** For a batch size `m`, a batch that is shorter than asked always means the
      end of the table exactly when `m` fits in 32 bits. `c` is any cursor. */
  lemma {:induction false} ShortBatchIsEndIff<C(!new), V(!new)>(m: nat, c: C)
    ensures (forall v: Vtab<C, V>, start: C ::
               var o := Scan(v, start, Max(m));
               !o.threw && |o.rows| < m ==> AtEnd(v, o.cursor))
            <==> m < 0x1_0000_0000
  {
    hide RowAt;
    if m < U32_BOUND {
      forall v: Vtab<C, V>, start: C
        ensures var o := Scan(v, start, Max(m));
                !o.threw && |o.rows| < m ==> AtEnd(v, o.cursor)
      {
        ShortScanIsEnd(v, start, m);
      }
    } else {
      var endless: Vtab<C, V> := Vtab(_ => Some(false), (_, _) => None, _ => Some(0), x => Some(x));
      EndlessScan(endless, c, Max(m));
      ShortScanIsEnd(endless, c, Max(m));
      var o := Scan(endless, c, Max(m));
      assert !o.threw && |o.rows| < m && !AtEnd(endless, o.cursor);
    }
  }

  lemma {:induction false} EndlessScan<C, V>(v: Vtab<C, V>, c: C, n: nat)
    requires forall x: C :: v.eof(x) == Some(false) && v.rowid(x).Some? && v.next(x).Some?
    ensures !Scan(v, c, n).threw
  {
    hide RowAt;
    if n > 0 {
      EndlessScan(v, v.next(c).value, n - 1);
    }
  }

  /** Scanning `m` rows and then `n` more is scanning `m + n`, unless an export
      throws among the first `m`. */
  lemma {:induction false} ScanSplits<C, V>(v: Vtab<C, V>, c: C, m: nat, n: nat)
    ensures var first := Scan(v, c, m);
            Scan(v, c, m + n) == if first.threw then first else Behind(first.rows, Scan(v, first.cursor, n))
  {
    hide RowAt;
    if m == 0 || AtEnd(v, c) {
      NothingBehind(Scan(v, c, n));
    } else if v.eof(c).Some? && v.rowid(c).Some? && v.next(c).Some? {
      var next, row := v.next(c).value, RowAt(v, c);
      ScanSplits(v, next, m - 1, n);
      var first := Scan(v, next, m - 1);
      BehindHead(row, first.rows, Scan(v, first.cursor, n));
    }
  }

  lemma {:induction false} NothingBehind<C, V>(rest: Outcome<C, V>)
    ensures Behind([], rest) == rest
  {
    assert [] + rest.rows == rest.rows;
  }

  lemma {:induction false} BehindHead<C, V>(row: VRow<V>, rows: seq<VRow<V>>, rest: Outcome<C, V>)
    ensures Behind([row] + rows, rest) == Behind([row], Behind(rows, rest))
  {
    assert [row] + rows + rest.rows == [row] + (rows + rest.rows);
  }

  /** What a caller gets from batches on one cursor, one after the other, until
      one of them throws. */
  function Batches<C, V>(v: Vtab<C, V>, c: C, sizes: seq<nat>): Outcome<C, V>
    decreases |sizes|
  {
    if sizes == [] then Outcome(c, [], false)
    else
      var batch := Scan(v, c, Max(sizes[0]));
      if batch.threw then Outcome(batch.cursor, [], true)
      else Behind(batch.rows, Batches(v, batch.cursor, sizes[1..]))
  }

  function Sum(sizes: seq<nat>): nat {
    if sizes == [] then 0 else Max(sizes[0]) + Sum(sizes[1..])
  }

  /** However the batch sizes are chosen, the batches together are the row scan.
      If nothing throws, they have the same rows in the same order and leave the
      cursor in the same place. If something throws, it does so in both, and
      the batches have delivered exactly the rows of the scan up to the batch
      in which it happens. */
  lemma {:induction false} BatchesAreTheScan<C, V>(v: Vtab<C, V>, c: C, sizes: seq<nat>) returns (k: nat)
    ensures var all, got := Scan(v, c, Sum(sizes)), Batches(v, c, sizes);
            && got.threw == all.threw && got.cursor == all.cursor
            && (!all.threw ==> k == |sizes| && got.rows == all.rows)
            && (all.threw ==>
                  && k < |sizes| && Scan(v, c, Sum(sizes[..k + 1])).threw
                  && !Scan(v, c, Sum(sizes[..k])).threw
                  && got.rows == Scan(v, c, Sum(sizes[..k])).rows)
    decreases |sizes|
  {
    hide RowAt, Max;
    k := 0;
    if sizes != [] {
      var n, batch := Max(sizes[0]), Scan(v, c, Max(sizes[0]));
      ScanSplits(v, c, n, Sum(sizes[1..]));
      if batch.threw {
        assert Sum(sizes[..1]) == n by { SumCons(sizes, 0); }
      } else {
        var k' := BatchesAreTheScan(v, batch.cursor, sizes[1..]);
        k := k' + 1;
        SumCons(sizes, k');
        ScanSplits(v, c, n, Sum(sizes[1..][..k']));
        if k' < |sizes| - 1 {
          SumCons(sizes, k' + 1);
          ScanSplits(v, c, n, Sum(sizes[1..][..k' + 1]));
        }
      }
    }
  }

  lemma {:induction false} SumCons(sizes: seq<nat>, k: nat)
    requires k < |sizes|
    ensures Sum(sizes[..k + 1]) == Max(sizes[0]) + Sum(sizes[1..][..k])
    ensures k == 0 ==> Sum(sizes[1..][..k]) == 0
  {
    hide Max;
    assert sizes[..k + 1][1..] == sizes[1..][..k];
  }

  lemma {:induction false} SumNext(sizes: seq<nat>, k: nat)
    requires k < |sizes|
    ensures Sum(sizes[..k + 1]) == Sum(sizes[..k]) + Max(sizes[k])
  {
    hide Max;
    if k > 0 {
      SumNext(sizes[1..], k - 1);
      SumCons(sizes, k);
      SumCons(sizes, k - 1);
      assert sizes[1..][k - 1] == sizes[k];
    } else {
      SumCons(sizes, 0);
    }
  }

  /** What comes behind a throw is not read. */
  lemma {:induction false} ThrowEnds<C, V>(v: Vtab<C, V>, c: C, sizes: seq<nat>, k: nat)
    requires k <= |sizes| && Scan(v, c, Sum(sizes[..k])).threw
    ensures Scan(v, c, Sum(sizes)) == Scan(v, c, Sum(sizes[..k]))
    decreases |sizes| - k
  {
    hide Max;
    if k < |sizes| {
      SumNext(sizes, k);
      ScanSplits(v, c, Sum(sizes[..k]), Max(sizes[k]));
      ThrowEnds(v, c, sizes, k + 1);
    } else {
      assert sizes[..k] == sizes;
    }
  }

  /** The rows that batches lose: those that batch `k`, in which an export
      throws, had read. All rows of the scan are delivered exactly when nothing
      throws or that batch had read none. */
  lemma {:induction false} AllDeliveredIff<C, V>(v: Vtab<C, V>, c: C, sizes: seq<nat>)
    returns (k: nat, lost: seq<VRow<V>>)
    ensures var all, got := Scan(v, c, Sum(sizes)), Batches(v, c, sizes);
            && all.rows == got.rows + lost
            && (got.rows == all.rows <==> !all.threw || lost == [])
            && (all.threw ==> k < |sizes| && lost == Scan(v, Scan(v, c, Sum(sizes[..k])).cursor, Max(sizes[k])).rows)
  {
    hide Max;
    k := BatchesAreTheScan(v, c, sizes);
    lost := [];
    if Scan(v, c, Sum(sizes)).threw {
      var before := Scan(v, c, Sum(sizes[..k]));
      lost := Scan(v, before.cursor, Max(sizes[k])).rows;
      SumNext(sizes, k);
      ScanSplits(v, c, Sum(sizes[..k]), Max(sizes[k]));
      ThrowEnds(v, c, sizes, k + 1);
      assert |before.rows + lost| == |before.rows| + |lost|;
    }
  }

  /** A cursor that counts up and whose second `next` throws. */
  function BreaksAtOne(): Vtab<nat, nat> {
    Vtab(_ => Some(false), (_, _) => None, c => Some(c), c => if c == 1 then None else Some(c + 1))
  }

  /** The row-by-row scan of it reads two rows, a batch of two delivers none. */
  lemma {:induction false} RowsAreLost()
    ensures |Scan(BreaksAtOne(), 0, Sum([2])).rows| == 2 && Batches(BreaksAtOne(), 0, [2]).rows == []
  {
    var v := BreaksAtOne();
    assert [2][1..] == [] && Sum([2]) == 2 && Max(2) == 2;
    assert Scan(v, 1, 1) == Outcome(1, [RowAt(v, 1)], true);
    assert Scan(v, 0, 2) == Behind([RowAt(v, 0)], Scan(v, 1, 1));
  }
}
