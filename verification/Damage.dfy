/** Row damage of a frame against the last one sent: `t6_compute_frame_damage` (trigger6_drv.c:1395-1435). */
module Damage {
  import opened Bits

  /** `struct t6_dirty_range`. */
  datatype Range = Range(start: nat, count: nat) {
    function End(): nat { start + count }

    predicate Has(row: nat) { start <= row < start + count }
  }

  const MAX_DIRTY_RANGES: nat := 32

  /** The bytes of one row. */
  function RowOf(frame: seq<byte>, stride: nat, row: nat): seq<byte>
    requires (row + 1) * stride <= |frame|
  {
    Scaled(row, row + 1, stride);
    frame[row * stride..(row + 1) * stride]
  }

  lemma {:induction false} Scaled(a: nat, b: nat, stride: nat)
    requires a <= b
    ensures a * stride <= b * stride
  {
    assert b * stride == a * stride + (b - a) * stride;
  }

  /** Which rows differ. */
  function DirtyRows(cur: seq<byte>, ref: seq<byte>, stride: nat, height: nat): (d: seq<bool>)
    requires height * stride <= |cur| && height * stride <= |ref|
    ensures |d| == height
  {
    seq(height, row requires 0 <= row < height =>
      Scaled(row + 1, height, stride);
      RowOf(cur, stride, row) != RowOf(ref, stride, row))
  }

  /** The maximal runs of dirty rows, first to last. */
  function Runs(d: seq<bool>): seq<Range>
  {
    if d == [] then []
    else
      var n := |d| - 1;
      var r := Runs(d[..n]);
      if !d[n] then r
      else if n > 0 && d[n - 1] && r != [] then r[..|r| - 1] + [Range(r[|r| - 1].start, r[|r| - 1].count + 1)]
      else r + [Range(n, 1)]
  }

  /** `struct t6_frame_damage`. */
  class FrameDamage {
    const ranges: array<Range>
    var numRanges: nat
    var fullFrame: bool

    constructor ()
      ensures fresh(ranges) && ranges.Length == MAX_DIRTY_RANGES
    {
      ranges := new Range[MAX_DIRTY_RANGES];
      numRanges := 0;
      fullFrame := true;
    }

    /** What the scan reports for a reference that is usable or not. */
    ghost predicate Describes(cur: seq<byte>, ref: seq<byte>, valid: bool, stride: nat, height: nat)
      requires height * stride <= |cur| && (valid ==> height * stride <= |ref|)
      reads this, ranges
    {
      if !valid then fullFrame
      else
        var runs := Runs(DirtyRows(cur, ref, stride, height));
        && fullFrame == (|runs| > MAX_DIRTY_RANGES)
        && (!fullFrame ==> numRanges == |runs| <= ranges.Length && ranges[..numRanges] == runs)
    }

    method Compute(cur: array<byte>, ref: array?<byte>, lastSentValid: bool, stride: nat, height: nat)
      requires ranges.Length == MAX_DIRTY_RANGES
      requires height * stride <= cur.Length && (ref != null ==> height * stride <= ref.Length)
      modifies this`numRanges, this`fullFrame, ranges
      ensures numRanges <= MAX_DIRTY_RANGES
      ensures Describes(cur[..], if ref == null then [] else ref[..], ref != null && lastSentValid, stride, height)
    {
      numRanges := 0;
      fullFrame := true;
      if ref == null || !lastSentValid {
        return;
      }
      fullFrame := false;
      ScanRows(cur, ref, stride, height, DirtyRows(cur[..], ref[..], stride, height));
    }

    method ScanRows(cur: array<byte>, ref: array<byte>, stride: nat, height: nat, ghost d: seq<bool>)
      requires ranges.Length == MAX_DIRTY_RANGES && numRanges == 0 && !fullFrame
      requires height * stride <= cur.Length && height * stride <= ref.Length
      requires d == DirtyRows(cur[..], ref[..], stride, height)
      modifies this`numRanges, this`fullFrame, ranges
      ensures fullFrame == (|Runs(d)| > MAX_DIRTY_RANGES) && numRanges <= MAX_DIRTY_RANGES
      ensures !fullFrame ==> numRanges == |Runs(d)| <= ranges.Length && ranges[..numRanges] == Runs(d)
    {
      var row := 0;
      var inDirty := false;
      while row < height
        invariant row <= height && !fullFrame
        invariant Scanned(ranges[..], numRanges, d, row, inDirty)
      {
        var dirty := RowDiffers(cur, ref, stride, height, row);
        ScanStep(ranges[..], numRanges, d, row, inDirty);
        if dirty && !inDirty {
          if numRanges >= MAX_DIRTY_RANGES {
            fullFrame := true;
            RunsGrow(d, row + 1);
            return;
          }
          ranges[numRanges] := Range(row, 1);
          inDirty := true;
        } else if dirty && inDirty {
          ranges[numRanges] := Range(ranges[numRanges].start, ranges[numRanges].count + 1);
        } else if !dirty && inDirty {
          numRanges := numRanges + 1;
          inDirty := false;
        }
        row := row + 1;
      }
      assert d[..height] == d;
      if inDirty {
        numRanges := numRanges + 1;
      }
      assert ranges[..][..numRanges] == ranges[..numRanges];
    }

    /** `memcmp` of one row. */
    method RowDiffers(cur: array<byte>, ref: array<byte>, stride: nat, height: nat, row: nat) returns (dirty: bool)
      requires row < height && height * stride <= cur.Length && height * stride <= ref.Length
      ensures dirty == DirtyRows(cur[..], ref[..], stride, height)[row]
    {
      Scaled(row + 1, height, stride);
      Scaled(row, row + 1, stride);
      var a, b := row * stride, (row + 1) * stride;
      assert cur[a..b] == cur[..][a..b] && ref[a..b] == ref[..][a..b];
      dirty := cur[a..b] != ref[a..b];
    }
  }

  /** After `row` rows: the runs so far, the last still open when `inDirty`. */
  ghost predicate Scanned(ranges: seq<Range>, num: nat, d: seq<bool>, row: nat, inDirty: bool)
    requires row <= |d|
  {
    var runs := Runs(d[..row]);
    && |ranges| == MAX_DIRTY_RANGES && |runs| <= MAX_DIRTY_RANGES
    && inDirty == (row > 0 && d[row - 1])
    && |runs| == (if inDirty then num + 1 else num)
    && ranges[..|runs|] == runs
  }

  /** The effect of each branch of the scan; a 33rd run overflows. */
  lemma {:induction false} ScanStep(ranges: seq<Range>, num: nat, d: seq<bool>, row: nat, inDirty: bool)
    requires row < |d| && Scanned(ranges, num, d, row, inDirty)
    ensures inDirty ==> num < MAX_DIRTY_RANGES
    ensures d[row] && !inDirty && num >= MAX_DIRTY_RANGES ==> |Runs(d[..row + 1])| > MAX_DIRTY_RANGES
    ensures d[row] && !inDirty && num < MAX_DIRTY_RANGES ==>
      Scanned(ranges[num := Range(row, 1)], num, d, row + 1, true)
    ensures d[row] && inDirty ==>
              Scanned(ranges[num := Range(ranges[num].start, ranges[num].count + 1)], num, d, row + 1, true)
    ensures !d[row] ==> Scanned(ranges, if inDirty then num + 1 else num, d, row + 1, false)
  {
    var r := Runs(d[..row]);
    RunsStep(d, row);
    if d[row] && inDirty {
      assert r[num] == ranges[num];
    }
  }

  // ---- What the runs are -------------------------------------------------------------

  /** How one more row changes the runs: `r` becomes `r'`. */
  ghost predicate Extends(r: seq<Range>, r': seq<Range>, d: seq<bool>, row: nat)
    requires row < |d|
  {
    if !d[row] then r' == r
    else if row > 0 && d[row - 1] then
      r != [] && r' == r[..|r| - 1] + [Range(r[|r| - 1].start, r[|r| - 1].count + 1)]
    else r' == r + [Range(row, 1)]
  }

  lemma {:induction false} RunsStep(d: seq<bool>, row: nat)
    requires row < |d|
    ensures Extends(Runs(d[..row]), Runs(d[..row + 1]), d, row)
  {
    assert d[..row + 1][..row] == d[..row];
    if row > 0 && d[row - 1] { OpenRun(d, row); }
  }

  /** After a dirty row there is a run, and it ends there. */
  lemma {:induction false} OpenRun(d: seq<bool>, row: nat)
    requires 0 < row <= |d| && d[row - 1]
    ensures var r := Runs(d[..row]); r != [] && r[|r| - 1].End() == row
  {
    assert d[..row][..row - 1] == d[..row - 1];
    if row > 1 && d[row - 2] { OpenRun(d, row - 1); }
  }

  lemma {:induction false} RunsGrow(d: seq<bool>, row: nat)
    requires row <= |d|
    ensures |Runs(d[..row])| <= |Runs(d)|
    decreases |d| - row
  {
    if row == |d| {
      assert d[..row] == d;
    } else {
      RunsStep(d, row);
      RunsGrow(d, row + 1);
    }
  }

  /** Non-empty runs in bounds, in order, each followed by a clean row, that cover exactly the dirty rows. */
  ghost predicate Exact(r: seq<Range>, d: seq<bool>) {
    && (forall i | 0 <= i < |r| :: r[i].count > 0 && r[i].End() <= |d|)
    && (forall i, j | 0 <= i < j < |r| :: r[i].End() < r[j].start)
    && (forall row | 0 <= row < |d| :: d[row] <==> exists i :: 0 <= i < |r| && r[i].Has(row))
  }

  lemma {:induction false} PrefixExact(d: seq<bool>, n: nat)
    requires n <= |d|
    ensures Exact(Runs(d[..n]), d[..n])
  {
    if n > 0 {
      var m := n - 1;
      PrefixExact(d, m);
      RunsStep(d, m);
      if m > 0 && d[m - 1] { OpenRun(d, m); }
      ExactStep(Runs(d[..m]), Runs(d[..m + 1]), d, m);
    }
  }

  /** The reported runs are exact. */
  lemma {:induction false} RunsExact(d: seq<bool>)
    ensures Exact(Runs(d), d)
  {
    PrefixExact(d, |d|);
    assert d[..|d|] == d;
  }

  lemma {:induction false} ExactStep(r: seq<Range>, r': seq<Range>, d: seq<bool>, n: nat)
    requires n < |d| && Exact(r, d[..n]) && Extends(r, r', d, n)
    requires n > 0 && d[n - 1] ==> r != [] && r[|r| - 1].End() == n
    ensures Exact(r', d[..n + 1])
  {
    var e := d[..n + 1];
    assert e[..n] == d[..n];
    if !d[n] {
      Widen(r, e);
    } else if n > 0 && d[n - 1] {
      ExtendLast(r, r', e);
    } else {
      AddRun(r, r', e);
    }
  }

  lemma {:induction false} Widen(r: seq<Range>, d: seq<bool>)
    requires d != [] && !d[|d| - 1] && Exact(r, d[..|d| - 1])
    ensures Exact(r, d)
  {
    var n := |d| - 1;
    forall row | 0 <= row < |d| ensures d[row] <==> exists i :: 0 <= i < |r| && r[i].Has(row) {
      if row < n { assert d[..n][row] == d[row]; }
    }
  }

  lemma {:induction false} ExtendLast(r: seq<Range>, r': seq<Range>, d: seq<bool>)
    requires |d| > 1 && d[|d| - 1] && Exact(r, d[..|d| - 1]) && r != [] && r[|r| - 1].End() == |d| - 1
    requires r' == r[..|r| - 1] + [Range(r[|r| - 1].start, r[|r| - 1].count + 1)]
    ensures Exact(r', d)
  {
    var n, m := |d| - 1, |r| - 1;
    forall row | 0 <= row < n ensures d[row] <==> exists i :: 0 <= i < |r'| && r'[i].Has(row) {
      assert d[..n][row] == d[row];
      SameRows(r, r', row, n);
    }
    assert r'[m].Has(n);
  }

  /** Lists that differ only in rows from `n` on say the same of the rows before it. */
  lemma {:induction false} SameRows(r: seq<Range>, r': seq<Range>, row: nat, n: nat)
    requires row < n && |r| <= |r'|
    requires forall i | 0 <= i < |r| :: r[i].Has(row) <==> r'[i].Has(row)
    requires forall i | |r| <= i < |r'| :: r'[i].start >= n
    ensures (exists i :: 0 <= i < |r| && r[i].Has(row)) <==> (exists i :: 0 <= i < |r'| && r'[i].Has(row))
  {
    if i :| 0 <= i < |r| && r[i].Has(row) {
      assert r'[i].Has(row);
    }
  }

  lemma {:induction false} AddRun(r: seq<Range>, r': seq<Range>, d: seq<bool>)
    requires d != [] && d[|d| - 1] && Exact(r, d[..|d| - 1]) && (|d| > 1 ==> !d[|d| - 2])
    requires r' == r + [Range(|d| - 1, 1)]
    ensures Exact(r', d)
  {
    var n := |d| - 1;
    forall i | 0 <= i < |r| ensures r[i].End() < n {
      if n > 0 {
        assert d[..n][n - 1] == d[n - 1];
        assert !r[i].Has(n - 1);
      }
    }
    forall row | 0 <= row < n ensures d[row] <==> exists i :: 0 <= i < |r'| && r'[i].Has(row) {
      assert d[..n][row] == d[row];
      SameRows(r, r', row, n);
    }
    assert r'[|r|].Has(n);
  }

  /** Only one list of runs is exact, so "the maximal dirty runs" of a frame are well defined. */
  lemma {:induction false} ExactUnique(a: seq<Range>, b: seq<Range>, d: seq<bool>)
    requires Exact(a, d) && Exact(b, d)
    ensures a == b
  {
    var n := if |a| < |b| then |a| else |b|;
    PrefixUnique(a, b, d, n);
    forall i | 0 <= i < n ensures a[i] == b[i] { assert a[i] == a[..n][i] && b[i] == b[..n][i]; }
    NoMoreRuns(a, b, d);
    NoMoreRuns(b, a, d);
  }

  lemma {:induction false} PrefixUnique(a: seq<Range>, b: seq<Range>, d: seq<bool>, n: nat)
    requires Exact(a, d) && Exact(b, d) && n <= |a| && n <= |b|
    ensures a[..n] == b[..n]
  {
    if n > 0 {
      PrefixUnique(a, b, d, n - 1);
      forall i | 0 <= i < n - 1 ensures a[i] == b[i] { assert a[i] == a[..n - 1][i]; }
      StartNotLater(a, b, d, n - 1);
      StartNotLater(b, a, d, n - 1);
      EndNotLater(a, b, d, n - 1);
      EndNotLater(b, a, d, n - 1);
      assert a[n - 1] == b[n - 1];
      assert a[..n] == a[..n - 1] + [a[n - 1]] && b[..n] == b[..n - 1] + [b[n - 1]];
    }
  }

  /** The next run of `b` cannot start before that of `a`. */
  lemma {:induction false} StartNotLater(a: seq<Range>, b: seq<Range>, d: seq<bool>, k: nat)
    requires Exact(a, d) && Exact(b, d) && k < |a| && k < |b|
    requires forall i | 0 <= i < k :: a[i] == b[i]
    ensures a[k].start <= b[k].start
  {
    var row := b[k].start;
    assert b[k].Has(row) && d[row];
    forall j | 0 <= j < k ensures !a[j].Has(row) { assert b[j].End() < b[k].start; }
    var i :| 0 <= i < |a| && a[i].Has(row);
    if k < i { assert a[k].End() < a[i].start; }
  }

  /** The row after a run is clean. */
  lemma {:induction false} CleanAfter(a: seq<Range>, d: seq<bool>, k: nat)
    requires Exact(a, d) && k < |a| && a[k].End() < |d|
    ensures !d[a[k].End()]
  {
    forall i | 0 <= i < |a| ensures !a[i].Has(a[k].End()) {
      if i < k {
        assert a[i].End() < a[k].start;
      } else if k < i {
        assert a[k].End() < a[i].start;
      }
    }
  }

  /** Of two runs with the same start, the second cannot end later. */
  lemma {:induction false} EndNotLater(a: seq<Range>, b: seq<Range>, d: seq<bool>, k: nat)
    requires Exact(a, d) && Exact(b, d) && k < |a| && k < |b| && a[k].start == b[k].start
    ensures b[k].count <= a[k].count
  {
    var row := a[k].End();
    if row < |d| {
      CleanAfter(a, d, k);
      assert !b[k].Has(row);
    }
  }

  lemma {:induction false} NoMoreRuns(a: seq<Range>, b: seq<Range>, d: seq<bool>)
    requires Exact(a, d) && Exact(b, d)
    requires forall i | 0 <= i < |a| && i < |b| :: a[i] == b[i]
    ensures |b| <= |a|
  {
    if |a| < |b| {
      var row := b[|a|].start;
      assert b[|a|].Has(row) && d[row];
      forall i | 0 <= i < |a| ensures !a[i].Has(row) { assert b[i].End() < b[|a|].start; }
    }
  }
}
