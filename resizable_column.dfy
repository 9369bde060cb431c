/**
 * The resizable column: which resize handles a column shows, and the width
 * arithmetic of one drag gesture (start, move, stop), together with the
 * per-gesture state the component keeps between those events.
 *
 * Units: widths are held in ten-thousandths of a pixel (`SubPixels` to the
 * pixel). The page's measurements are whole pixels and a stored width is a
 * percentage with at most two decimals, so every width the component
 * captures is a whole number of these units and is held exactly.
 * Percentages are held in hundredths of a percent (3333 is 33.33%), so a
 * value rounded to one decimal is a multiple of 10.
 */
module ColumnResize {
  import opened Wrappers

  /** The editor's preview device. */
  datatype Device = Desktop | Tablet | Mobile

  /** The handle being dragged: the column's right or left edge. */
  datatype Direction = Right | Left

  /** The units of width in one pixel. */
  const SubPixels: nat := 10000

  /** `MIN_COLUMN_WIDTHS`: the narrowest a column may be dragged, in pixels. */
  function MinColumnWidth(device: Device): nat {
    match device
    case Desktop => 100
    case Tablet => 50
    case Mobile => 50
  }

  /** Where the column sits among its sibling columns. */
  datatype BlockContext = BlockContext(blockIndex: nat, count: nat) {
    predicate IsFirst() { blockIndex == 0 }
    predicate IsLast() { blockIndex + 1 == count }
    predicate IsOnly() { count == 1 }
  }

  /** The resize handles that are on; the top, bottom and corner handles are always off. */
  datatype Edges = Edges(right: bool, left: bool)

  /** The `enable` prop: which resize handles are on. */
  function Enable(device: Device, b: BlockContext): (e: Edges)
    ensures device == Desktop ==>
              && (e.right <==> b.count != 1 && b.blockIndex + 1 != b.count)
              && (e.left <==> b.count != 1 && b.blockIndex != 0)
    ensures device != Desktop ==> (e.right <==> b.count != 1) && !e.left
  {
    if device == Desktop then Edges(right := !b.IsOnly() && !b.IsLast(), left := !b.IsOnly() && !b.IsFirst())
    else Edges(right := !b.IsOnly(), left := false)
  }

  predicate EdgeEnabled(e: Edges, d: Direction) {
    if d == Right then e.right else e.left
  }

  /** The column on the other side of the dragged edge. */
  function Adjacent(blockIndex: nat, d: Direction): (r: int)
    ensures r == blockIndex + 1 || r == blockIndex - 1
    ensures r > blockIndex <==> d == Right
  {
    if d == Right then blockIndex + 1 else blockIndex - 1
  }

  /** On desktop, a handle is only on where there is a neighbouring column behind it. */
  lemma EnabledEdgeHasAdjacent(b: BlockContext, d: Direction)
    requires b.blockIndex < b.count
    requires EdgeEnabled(Enable(Desktop, b), d)
    ensures 0 <= Adjacent(b.blockIndex, d) < b.count
    ensures Adjacent(b.blockIndex, d) != b.blockIndex
  {
  }

  /** On tablet and mobile only the right handle can be dragged. */
  lemma NarrowDevicesDragRightOnly(device: Device, b: BlockContext, d: Direction)
    requires device != Desktop
    requires EdgeEnabled(Enable(device, b), d)
    ensures d == Right && !b.IsOnly()
  {
  }

  function Sum(s: seq<int>): int {
    if s == [] then 0 else s[0] + Sum(s[1..])
  }

  lemma {:induction false} SumConcat(a: seq<int>, b: seq<int>)
    ensures Sum(a + b) == Sum(a) + Sum(b)
  {
    if a == [] {
      assert a + b == b;
    } else {
      assert (a + b)[1..] == a[1..] + b;
      SumConcat(a[1..], b);
    }
  }

  /** Replacing one entry changes the sum by the difference. */
  lemma SumUpdate(s: seq<int>, k: nat, v: int)
    requires k < |s|
    ensures Sum(s[k := v]) == Sum(s) - s[k] + v
  {
    assert s == s[..k] + [s[k]] + s[k + 1..];
    assert s[k := v] == s[..k] + [v] + s[k + 1..];
    SumConcat(s[..k] + [s[k]], s[k + 1..]);
    SumConcat(s[..k], [s[k]]);
    SumConcat(s[..k] + [v], s[k + 1..]);
    SumConcat(s[..k], [v]);
  }

  /** Splits a sum around one entry. */
  lemma SumAround(s: seq<int>, k: nat)
    requires k < |s|
    ensures Sum(s) == Sum(s[..k]) + s[k] + Sum(s[k + 1..])
  {
    assert s == s[..k] + [s[k]] + s[k + 1..];
    SumConcat(s[..k] + [s[k]], s[k + 1..]);
    SumConcat(s[..k], [s[k]]);
  }

  /** What is known of a column when a drag starts. */
  datatype Column = Column(
    columnWidth: nat,   // the stored width in hundredths of a percent; 0 when unset
    renderedWidth: nat) // the measured pixel width; 0 when it cannot be measured

  /**
   * The width of one column in `onResizeStart`, in units: exactly its stored
   * share of the row width `parentWidth` (whole pixels) when it has a stored
   * width, and its measured width otherwise.
   */
  function PixelWidth(parentWidth: nat, c: Column): (w: nat)
    ensures c.columnWidth != 0 ==> w * 10000 == (parentWidth * SubPixels) * c.columnWidth
    ensures c.columnWidth == 0 ==> w == c.renderedWidth * SubPixels
  {
    if c.columnWidth != 0 then
      MulScale(parentWidth, SubPixels, c.columnWidth);
      parentWidth * c.columnWidth
    else c.renderedWidth * SubPixels
  }

  function CapturedWidths(parentWidth: nat, columns: seq<Column>): (ws: seq<int>)
    ensures |ws| == |columns|
    ensures forall i | 0 <= i < |columns| :: ws[i] == PixelWidth(parentWidth, columns[i])
  {
    seq(|columns|, i requires 0 <= i < |columns| => PixelWidth(parentWidth, columns[i]))
  }

  /** The sum of the stored widths of a row, in hundredths of a percent. */
  function StoredTotal(columns: seq<Column>): nat {
    if columns == [] then 0 else columns[0].columnWidth + StoredTotal(columns[1..])
  }

  /**
   * When every column has a stored width, the captured row is the row width
   * scaled by the stored total, with nothing lost: stored widths adding up
   * to 100% fill the measured row exactly.
   */
  lemma {:induction false} StoredWidthsFillRow(parentWidth: nat, columns: seq<Column>)
    requires forall k | 0 <= k < |columns| :: columns[k].columnWidth != 0
    ensures Sum(CapturedWidths(parentWidth, columns)) == parentWidth * StoredTotal(columns)
    ensures StoredTotal(columns) == 10000 ==> Sum(CapturedWidths(parentWidth, columns)) == parentWidth * SubPixels
  {
    if columns != [] {
      var ws := CapturedWidths(parentWidth, columns);
      assert ws[1..] == CapturedWidths(parentWidth, columns[1..]);
      StoredWidthsFillRow(parentWidth, columns[1..]);
      MulDist(columns[0].columnWidth, StoredTotal(columns[1..]), parentWidth);
    }
  }

  /**
   * The desktop drag bound set by `onResizeStart`: the column may grow until
   * its neighbour is down to the desktop minimum.
   */
  function DesktopMaxWidth(ws: seq<int>, blockIndex: nat, d: Direction): (m: int)
    requires blockIndex < |ws| && 0 <= Adjacent(blockIndex, d) < |ws|
    ensures m == ws[blockIndex] + ws[Adjacent(blockIndex, d)] - MinColumnWidth(Desktop) * SubPixels
  {
    ws[blockIndex] + (ws[Adjacent(blockIndex, d)] - MinColumnWidth(Desktop) * SubPixels)
  }

  /**
   * The paired desktop widths of `onResize`: the dragged
   * column gains `dw`, the adjacent one loses it, the rest keep their width,
   * so the row's total width is unchanged.
   */
  function PairedWidths(ws: seq<int>, blockIndex: nat, adj: nat, dw: int): (nw: seq<int>)
    requires blockIndex < |ws| && adj < |ws| && adj != blockIndex
    ensures |nw| == |ws|
    ensures nw[blockIndex] == ws[blockIndex] + dw && nw[adj] == ws[adj] - dw
    ensures forall k | 0 <= k < |ws| && k != blockIndex && k != adj :: nw[k] == ws[k]
    ensures Sum(nw) == Sum(ws)
  {
    var once := ws[adj := ws[adj] - dw];
    SumUpdate(ws, adj, ws[adj] - dw);
    SumUpdate(once, blockIndex, once[blockIndex] + dw);
    once[blockIndex := once[blockIndex] + dw]
  }

  /**
   * A drag the resize box keeps within the drag-start bound leaves the
   * adjacent column at least the desktop minimum wide.
   */
  lemma BoundKeepsAdjacentMinimum(ws: seq<int>, blockIndex: nat, d: Direction, dw: int)
    requires blockIndex < |ws| && 0 <= Adjacent(blockIndex, d) < |ws| && Adjacent(blockIndex, d) != blockIndex
    requires ws[blockIndex] + dw <= DesktopMaxWidth(ws, blockIndex, d)
    ensures PairedWidths(ws, blockIndex, Adjacent(blockIndex, d), dw)[Adjacent(blockIndex, d)] >= MinColumnWidth(Desktop) * SubPixels
  {
  }

  // Small facts of integer arithmetic, stated apart so that each proof
  // below stays linear in the products it mentions.

  lemma FloorDivBounds(n: int, m: int)
    requires m > 0
    ensures (n / m) * m <= n < (n / m) * m + m
  {
  }

  lemma MulTwo(q: int, d: int)
    ensures q * (2 * d) == 2 * (q * d)
  {
  }

  lemma MulNeg(q: int, d: int)
    ensures (-q) * d == -(q * d)
  {
  }

  lemma MulScale(c: int, q: int, d: int)
    ensures (c * q) * d == c * (q * d)
  {
  }

  lemma MulDist(a: int, b: int, c: int)
    ensures (a + b) * c == a * c + b * c
  {
  }

  lemma MulMinus(k: int, a: int, b: int, t: int)
    ensures (k - a - b) * t == k * t - a * t - b * t
  {
  }

  /** Comparing two products with the same positive factor compares the other factors. */
  lemma FactorLess(a: int, b: int, t: int)
    requires t > 0 && a * t < b * t
    ensures a < b
  {
  }

  /**
   * The integer nearest to `n / d`, a half rounded away from zero: how
   * `toFixed` rounds, since it rounds the magnitude and keeps the sign.
   */
  function RoundHalfAway(n: int, d: int): (q: int)
    requires d > 0
    ensures n >= 0 ==> -d < 2 * (q * d) - 2 * n <= d
    ensures n < 0 ==> -d <= 2 * (q * d) - 2 * n < d
  {
    if n >= 0 then
      var q := (2 * n + d) / (2 * d);
      FloorDivBounds(2 * n + d, 2 * d);
      MulTwo(q, d);
      q
    else
      var q := (2 * -n + d) / (2 * d);
      FloorDivBounds(2 * -n + d, 2 * d);
      MulTwo(q, d);
      MulNeg(q, d);
      -q
  }

  /**
   * `parseFloat((w / total * 100).toFixed(1))` in hundredths: the share of
   * `w` in `total` as a percentage rounded to one decimal.
   */
  function Percent(w: int, total: int): (p: int)
    requires total > 0
    ensures p % 10 == 0
    ensures -5 * total <= p * total - 10000 * w <= 5 * total
    ensures 0 <= w <= total ==> 0 <= p <= 10000
  {
    var q := RoundHalfAway(1000 * w, total);
    MulScale(10, q, total);
    ShareRange(w, total, q);
    10 * q
  }

  lemma ShareRange(w: int, total: int, q: int)
    requires total > 0 && -total <= 2 * (q * total) - 2000 * w <= total
    ensures 0 <= w <= total ==> 0 <= q <= 1000
  {
    if 0 <= w <= total {
      FactorLess(-1, q, total);
      FactorLess(q, 1001, total);
    }
  }

  /** `parseFloat(x.toFixed(1))` for a percentage `x` in hundredths. */
  function ToFixed1(x: int): (p: int)
    ensures p % 10 == 0 && -5 <= p - x <= 5
    ensures x % 10 == 0 ==> p == x
  {
    var q := RoundHalfAway(x, 10);
    NearestTenth(x, q);
    10 * q
  }

  lemma NearestTenth(x: int, q: int)
    requires -10 <= 2 * (q * 10) - 2 * x <= 10
    ensures -5 <= 10 * q - x <= 5
    ensures x % 10 == 0 ==> 10 * q == x
  {
    if x % 10 == 0 {
      var m := x / 10;
      assert x == 10 * m;
      assert -10 <= 20 * (q - m) <= 10;
      assert q - m == 0;
    }
  }

  /** The rounded percentage of every column, as `onResize` maps the widths. */
  function Percentages(ws: seq<int>, total: int): (ps: seq<int>)
    requires total > 0
    ensures |ps| == |ws|
    ensures forall k | 0 <= k < |ws| :: ps[k] == Percent(ws[k], total)
  {
    if ws == [] then [] else [Percent(ws[0], total)] + Percentages(ws[1..], total)
  }

  /**
   * Rounding each share to one decimal moves the sum of the percentages by
   * at most 0.05% per column away from the exact share of the widths.
   */
  lemma {:induction false} RoundingError(ws: seq<int>, total: int)
    requires total > 0
    ensures -(5 * |ws| * total) <= Sum(Percentages(ws, total)) * total - 10000 * Sum(ws) <= 5 * |ws| * total
  {
    if ws != [] {
      var ps := Percentages(ws, total);
      var rest := Percentages(ws[1..], total);
      assert ps == [Percent(ws[0], total)] + rest;
      assert ps[1..] == rest;
      RoundingError(ws[1..], total);
      var s, s1 := Sum(ps), Sum(rest);
      var e0 := ps[0] * total - 10000 * ws[0];
      var e1 := s1 * total - 10000 * Sum(ws[1..]);
      var n1 := 5 * |ws[1..]| * total;
      assert -5 * total <= e0 <= 5 * total;
      assert -n1 <= e1 <= n1;
      assert s == ps[0] + s1;
      assert s * total == ps[0] * total + s1 * total by { MulDist(ps[0], s1, total); }
      assert s * total - 10000 * Sum(ws) == e0 + e1;
      assert 5 * |ws| * total == 5 * total + n1 by {
        assert 5 * |ws| == 5 + 5 * |ws[1..]|;
        MulDist(5, 5 * |ws[1..]|, total);
      }
    }
  }

  /**
   * The fix-up in `onResize`: when the rounded percentages do not add up
   * to 100, the adjacent entry takes up the difference.
   */
  function FixUp(ps: seq<int>, adj: nat): (r: seq<int>)
    requires adj < |ps|
    requires forall k | 0 <= k < |ps| :: ps[k] % 10 == 0
    ensures |r| == |ps| && Sum(r) == 10000
    ensures forall k | 0 <= k < |ps| && k != adj :: r[k] == ps[k]
  {
    var total := Sum(ps);
    if total != 10000 then
      var v := ToFixed1(ps[adj] + 10000 - total);
      assert (ps[adj] + 10000 - total) % 10 == 0 by { SumMultipleOfTen(ps); }
      SumUpdate(ps, adj, v);
      ps[adj := v]
    else ps
  }

  lemma {:induction false} SumMultipleOfTen(s: seq<int>)
    requires forall k | 0 <= k < |s| :: s[k] % 10 == 0
    ensures Sum(s) % 10 == 0
  {
    if s != [] {
      SumMultipleOfTen(s[1..]);
    }
  }

  /**
   * The percentages a desktop drag by `dw` produces from the captured widths
   * `ws`: they add up to exactly 100%, every column other than the adjacent
   * one shows its own rounded share of the row, the columns outside the
   * dragged pair keep the share they had, and the adjacent column's
   * percentage is within 0.05% per other column of its exact share.
   */
  function PairedPercents(ws: seq<int>, blockIndex: nat, d: Direction, dw: int): (ps: seq<int>)
    requires blockIndex < |ws| && 0 <= Adjacent(blockIndex, d) < |ws| && Sum(ws) > 0
    ensures |ps| == |ws| && Sum(ps) == 10000
    ensures ps[blockIndex] == Percent(ws[blockIndex] + dw, Sum(ws))
    ensures forall k | 0 <= k < |ws| && k != blockIndex && k != Adjacent(blockIndex, d) ::
              ps[k] == Percent(ws[k], Sum(ws))
    ensures -(5 * (|ws| - 1) * Sum(ws))
              <= ps[Adjacent(blockIndex, d)] * Sum(ws) - 10000 * (ws[Adjacent(blockIndex, d)] - dw)
              <= 5 * (|ws| - 1) * Sum(ws)
  {
    var adj := Adjacent(blockIndex, d);
    FixedShareError(PairedWidths(ws, blockIndex, adj, dw), adj, Sum(ws), |ws| - 1);
    FixUp(Percentages(PairedWidths(ws, blockIndex, adj, dw), Sum(ws)), adj)
  }

  /**
   * The adjacent column's percentage after the fix-up lies within 0.05% per
   * other column of its exact share of the row, for any row `nw` of `n + 1`
   * columns whose widths add up to `t`.
   */
  lemma FixedShareError(nw: seq<int>, adj: nat, t: int, n: int)
    requires adj < |nw| && t > 0 && Sum(nw) == t && n == |nw| - 1
    ensures -(5 * n * t) <= FixUp(Percentages(nw, t), adj)[adj] * t - 10000 * nw[adj] <= 5 * n * t
  {
    var p := Percentages(nw, t);
    var lo, hi := nw[..adj], nw[adj + 1..];
    var r := FixUp(p, adj);
    assert r[..adj] == p[..adj] == Percentages(lo, t);
    assert r[adj + 1..] == p[adj + 1..] == Percentages(hi, t);
    SumAround(r, adj);
    SumAround(nw, adj);
    RoundingError(lo, t);
    RoundingError(hi, t);
    CombinedError(r[adj], Sum(Percentages(lo, t)), Sum(Percentages(hi, t)),
                  t, Sum(lo), nw[adj], Sum(hi), |lo|, |hi|, n);
  }

  /** The arithmetic step of FixedShareError: the errors of the two sides add up. */
  lemma CombinedError(x: int, a: int, b: int, t: int, sa: int, w: int, sb: int, la: nat, lb: nat, n: int)
    requires x == 10000 - a - b && t == sa + w + sb && n == la + lb
    requires -(5 * la * t) <= a * t - 10000 * sa <= 5 * la * t
    requires -(5 * lb * t) <= b * t - 10000 * sb <= 5 * lb * t
    ensures -(5 * n * t) <= x * t - 10000 * w <= 5 * n * t
  {
    MulMinus(10000, a, b, t);
    MulDist(5 * la, 5 * lb, t);
  }

  function Clamp(x: int, lo: int, hi: int): (r: int)
    requires lo <= hi
    ensures lo <= r <= hi
    ensures lo <= x <= hi ==> r == x
  {
    if x < lo then lo else if x > hi then hi else x
  }

  /**
   * The tablet and mobile percentage of `onResize`: the new width as a share
   * of the drag bound, rounded to one decimal and clamped to [0%, 100%]
   * however far the drag goes. A bound of 0 makes the share an infinity,
   * which the clamp takes to 100% or 0% by its sign; 0 over 0 is `NaN`,
   * which the requires leaves out.
   */
  function IndependentPercent(width: int, dw: int, maxWidth: nat): (p: int)
    requires maxWidth > 0 || width + dw != 0
    ensures 0 <= p <= 10000 && p % 10 == 0
    ensures 0 <= width + dw <= maxWidth && maxWidth > 0 ==>
              -5 * maxWidth <= p * maxWidth - 10000 * (width + dw) <= 5 * maxWidth
    ensures width + dw >= maxWidth ==> p == 10000
    ensures width + dw <= 0 ==> p == 0
  {
    if maxWidth == 0 then
      if width + dw > 0 then 10000 else 0
    else
      var p := Percent(width + dw, maxWidth);
      OutOfRangeShare(width + dw, maxWidth, p);
      Clamp(p, 0, 10000)
  }

  lemma OutOfRangeShare(w: int, total: int, p: int)
    requires total > 0 && -5 * total <= p * total - 10000 * w <= 5 * total
    ensures w >= total ==> p > 9990
    ensures w <= 0 ==> p < 10
  {
    if w >= total {
      FactorLess(9990, p, total);
    }
    if w <= 0 {
      FactorLess(p, 10, total);
    }
  }

  /**
   * What the component holds between the events of a gesture: on desktop a
   * row with one entry per column, on tablet and mobile a single number.
   */
  datatype Widths = Row(values: seq<int>) | Alone(value: int)

  /** `h | 0` for a percentage `h` in hundredths: the whole percent, truncated toward zero. */
  function TruncatedPercent(h: int): (r: int)
    ensures h >= 0 ==> 0 <= 100 * r <= h < 100 * r + 100
    ensures h < 0 ==> 100 * r - 100 < h <= 100 * r <= 0
  {
    if h >= 0 then h / 100 else -((-h) / 100)
  }

  /** Every entry of a three-column row reads 33.something percent. */
  predicate NearThirds(ps: seq<int>) {
    |ps| == 3 && forall k | 0 <= k < 3 :: 3300 <= ps[k] < 3400
  }

  /**
   * The row `onResizeStop` commits on desktop: a three-column row whose
   * whole percents are all 33 is taken to be meant as equal thirds.
   */
  function DesktopCommit(ps: seq<int>): (r: seq<int>)
    ensures NearThirds(ps) ==> r == [3333, 3333, 3333]
    ensures !NearThirds(ps) ==> r == ps
  {
    if |ps| == 3 && TruncatedPercent(ps[0]) == 33 && TruncatedPercent(ps[1]) == 33 && TruncatedPercent(ps[2]) == 33
    then [3333, 3333, 3333]
    else ps
  }

  /** The equal-thirds policy moves no column by a whole percent. */
  lemma DesktopCommitIsClose(ps: seq<int>)
    ensures |DesktopCommit(ps)| == |ps|
    ensures forall k | 0 <= k < |ps| :: -100 < DesktopCommit(ps)[k] - ps[k] < 100
  {
  }

  /**
   * A row of percentages adding up to 100% is committed as it is, adding up
   * to 100%, or as equal thirds, which add up to 99.99%.
   */
  lemma DesktopCommitTotal(ps: seq<int>)
    requires Sum(ps) == 10000
    ensures DesktopCommit(ps) == ps ==> Sum(DesktopCommit(ps)) == 10000
    ensures DesktopCommit(ps) != ps ==> NearThirds(ps) && Sum(DesktopCommit(ps)) == 9999
  {
    assert Sum([3333, 3333, 3333]) == 3333 + Sum([3333, 3333]);
    assert Sum([3333, 3333]) == 3333 + Sum([3333]);
  }

  /** The single attribute update the end of a gesture asks for. */
  datatype Commit =
    | NoCommit
    | ChangeDesktop(widths: seq<int>)
    | ChangeTablet(tablet: Widths)
    | ChangeMobile(mobile: Widths)

  /**
   * The update `onResizeStop` hands to the block: none for a
   * drag that ended where it began, otherwise exactly one, to the current
   * device's widths.
   */
  function StopCommit(device: Device, dw: int, pending: Widths): (c: Commit)
    requires device == Desktop && dw != 0 ==> pending.Row?
    ensures c == NoCommit <==> dw == 0
    ensures c.ChangeDesktop? <==> dw != 0 && device == Desktop
    ensures c.ChangeTablet? <==> dw != 0 && device == Tablet
    ensures c.ChangeMobile? <==> dw != 0 && device == Mobile
    ensures c.ChangeDesktop? ==> c.widths == DesktopCommit(pending.values)
    ensures c.ChangeTablet? ==> c.tablet == pending
    ensures c.ChangeMobile? ==> c.mobile == pending
  {
    if dw == 0 then NoCommit
    else if device == Desktop then ChangeDesktop(DesktopCommit(pending.values))
    else if device == Tablet then ChangeTablet(pending)
    else ChangeMobile(pending)
  }

  /**
   * A desktop drag commits one percentage per column, adding up to 100%, or
   * the equal thirds.
   */
  lemma DesktopDragCommit(ws: seq<int>, blockIndex: nat, d: Direction, dw: int)
    requires blockIndex < |ws| && 0 <= Adjacent(blockIndex, d) < |ws| && Sum(ws) > 0
    requires dw != 0
    ensures var c := StopCommit(Desktop, dw, Row(PairedPercents(ws, blockIndex, d, dw)));
            && c.ChangeDesktop?
            && |c.widths| == |ws|
            && (Sum(c.widths) == 10000 || (c.widths == [3333, 3333, 3333] && Sum(c.widths) == 9999))
  {
    DesktopCommitTotal(PairedPercents(ws, blockIndex, d, dw));
  }

  /** Dragging the first of three 300-pixel columns 90 pixels to the right. */
  lemma DragExample()
    ensures PairedWidths([3000000, 3000000, 3000000], 0, 1, 900000) == [3900000, 2100000, 3000000]
    ensures PairedPercents([3000000, 3000000, 3000000], 0, Right, 900000) == [4330, 2340, 3330]
  {
    var nw := PairedWidths([3000000, 3000000, 3000000], 0, 1, 900000);
    assert nw == [3900000, 2100000, 3000000];
    assert Sum([3000000, 3000000, 3000000]) == 9000000;
    var ps := Percentages(nw, 9000000);
    assert ps == [4330, 2330, 3330];
    assert Sum(ps) == 4330 + Sum([2330, 3330]) == 4330 + 2330 + Sum([3330]);
  }

  /** A one-pixel drag of three equal columns commits equal thirds. */
  lemma ThirdsExample()
    ensures PairedPercents([3000000, 3000000, 3000000], 0, Right, 10000) == [3340, 3330, 3330]
    ensures StopCommit(Desktop, 1, Row([3340, 3330, 3330])) == ChangeDesktop([3333, 3333, 3333])
  {
    var nw := PairedWidths([3000000, 3000000, 3000000], 0, 1, 10000);
    assert nw == [3010000, 2990000, 3000000];
    assert Sum([3000000, 3000000, 3000000]) == 9000000;
    var ps := Percentages(nw, 9000000);
    assert ps == [3340, 3320, 3330];
    assert Sum(ps) == 3340 + Sum([3320, 3330]) == 3340 + 3320 + Sum([3330]);
  }

  /**
   * Stored widths of 12.3% and 87.7% in a 1013-pixel row, the first column
   * dragged 5 pixels to the right: its exact share grows to 12.79...%, shown
   * as 12.8%, and the neighbour takes 87.2%.
   */
  lemma StoredWidthsExample()
    ensures CapturedWidths(1013, [Column(1230, 0), Column(8770, 0)]) == [1245990, 8884010]
    ensures PairedPercents([1245990, 8884010], 0, Right, 5 * SubPixels) == [1280, 8720]
  {
    var ws := CapturedWidths(1013, [Column(1230, 0), Column(8770, 0)]);
    assert ws[0] == 1245990 && ws[1] == 8884010;
    var nw := PairedWidths([1245990, 8884010], 0, 1, 50000);
    assert nw == [1295990, 8834010];
    assert Sum([1245990, 8884010]) == 10130000;
    var ps := Percentages(nw, 10130000);
    assert ps == [1280, 8720];
    assert Sum(ps) == 1280 + Sum([8720]);
  }

  /** `reduce( ( a, b ) => a + b, 0 )`: the total of a row of widths or of percentages. */
  method RowTotal(s: seq<int>) returns (total: int)
    ensures total == Sum(s)
  {
    total := 0;
    var i := 0;
    while i < |s|
      invariant 0 <= i <= |s|
      invariant total == Sum(s[..i])
    {
      SumConcat(s[..i], [s[i]]);
      assert s[..i + 1] == s[..i] + [s[i]];
      total := total + s[i];
      i := i + 1;
    }
    assert s[..i] == s;
  }

  /** The `map` of `onResize` over the new widths: every width's rounded share of `total`. */
  method RoundedShares(ws: seq<int>, total: int) returns (ps: seq<int>)
    requires total > 0
    ensures ps == Percentages(ws, total)
  {
    ps := [];
    var i := 0;
    while i < |ws|
      invariant 0 <= i <= |ws|
      invariant |ps| == i
      invariant forall k | 0 <= k < i :: ps[k] == Percent(ws[k], total)
    {
      ps := ps + [Percent(ws[i], total)];
      i := i + 1;
    }
  }

  /**
   * The desktop arithmetic of `onResize`, step by step: the
   * row total, the paired widths, the rounded shares, their total and the
   * fix-up of the adjacent column.
   */
  method DesktopResize(currentWidths: seq<int>, blockIndex: nat, d: Direction, dw: int)
      returns (columnWidths: seq<int>, totalWidth: int, columnPercentages: seq<int>)
    requires blockIndex < |currentWidths| && 0 <= Adjacent(blockIndex, d) < |currentWidths|
    requires Sum(currentWidths) > 0
    ensures totalWidth == Sum(currentWidths)
    ensures columnWidths == PairedWidths(currentWidths, blockIndex, Adjacent(blockIndex, d), dw)
    ensures columnPercentages == PairedPercents(currentWidths, blockIndex, d, dw)
  {
    var adj := Adjacent(blockIndex, d);
    columnWidths := currentWidths;
    totalWidth := RowTotal(currentWidths);
    columnWidths := columnWidths[adj := columnWidths[adj] - dw];
    columnWidths := columnWidths[blockIndex := columnWidths[blockIndex] + dw];
    assert columnWidths == PairedWidths(currentWidths, blockIndex, adj, dw);
    columnPercentages := RoundedShares(columnWidths, totalWidth);
    var totalCurrentWidth := RowTotal(columnPercentages);
    if totalCurrentWidth != 10000 {
      columnPercentages := columnPercentages[adj := ToFixed1(columnPercentages[adj] + 10000 - totalCurrentWidth)];
    }
  }

  /** The shape of `getSnapWidths( widths, index, total, direction, isShiftKey )`. */
  type SnapWidthsFn = (seq<int>, nat, int, Direction, bool) -> seq<int>

  /**
   * The state one resizable column keeps across a drag gesture, in its
   * `useState` hooks and the `prevAdjacentBlocks` ref: the widths captured
   * at drag start, the percentages last computed, the drag bound, the snap
   * points of the gesture, how many columns the row had, and whether the
   * width popup is open. Widths and the bound are in units.
   */
  class ResizableColumn {
    var currentWidths: Widths
    var newWidthsPercent: Widths
    var maxWidth: int
    var snapWidths: Option<seq<int>>
    var prevAdjacentBlocks: nat
    var isEditWidth: bool

    constructor (adjacentCount: nat)
      ensures currentWidths == Row([]) && newWidthsPercent == Row([])
      ensures maxWidth == 2000 * SubPixels && snapWidths == None
      ensures prevAdjacentBlocks == adjacentCount && !isEditWidth
    {
      currentWidths := Row([]);
      newWidthsPercent := Row([]);
      maxWidth := 2000 * SubPixels;
      snapWidths := None;
      prevAdjacentBlocks := adjacentCount;
      isEditWidth := false;
    }

    /**
     * The `adjacentBlocks.length` effect: when the row gained or lost a
     * column the desktop widths are reset, once, and the new count is
     * remembered.
     */
    method OnAdjacentBlocksChange(count: nat) returns (resetDesktop: bool)
      modifies this`prevAdjacentBlocks
      ensures resetDesktop <==> old(prevAdjacentBlocks) != count
      ensures prevAdjacentBlocks == count
    {
      resetDesktop := prevAdjacentBlocks != count;
      if resetDesktop {
        prevAdjacentBlocks := count;
      }
    }

    /** The `isShiftKey` effect: pressing or releasing shift drops the snap points. */
    method OnShiftKeyChange()
      modifies this`snapWidths
      ensures snapWidths == None
    {
      snapWidths := None;
    }

    /**
     * `onResizeStart`: on desktop the width of every
     * column and the bound that keeps the neighbour at its minimum; on
     * tablet and mobile the column's own width and the row width as bound.
     * `parentWidth` and the rendered widths are the measurements of the
     * editor's page.
     */
    method OnResizeStart(device: Device, b: BlockContext, d: Direction, parentWidth: nat, columns: seq<Column>)
      requires b.blockIndex < b.count && |columns| == b.count
      requires EdgeEnabled(Enable(device, b), d)
      modifies this`currentWidths, this`maxWidth
      ensures device == Desktop ==>
                && currentWidths == Row(CapturedWidths(parentWidth, columns))
                && maxWidth == DesktopMaxWidth(currentWidths.values, b.blockIndex, d)
      ensures device != Desktop ==>
                && currentWidths == Alone(columns[b.blockIndex].renderedWidth * SubPixels)
                && maxWidth == parentWidth * SubPixels
    {
      if device == Desktop {
        EnabledEdgeHasAdjacent(b, d);
        var columnWidths := CapturedWidths(parentWidth, columns);
        currentWidths := Row(columnWidths);
        maxWidth := columnWidths[b.blockIndex] + (columnWidths[Adjacent(b.blockIndex, d)] - MinColumnWidth(Desktop) * SubPixels);
      } else {
        currentWidths := Alone(columns[b.blockIndex].renderedWidth * SubPixels);
        maxWidth := parentWidth * SubPixels;
      }
    }

    /**
     * `onResize` for a drag of `dw` whole pixels so far: closes the
     * width popup, computes the new percentages from the widths captured at
     * drag start, and asks for the snap points on the gesture's first move.
     */
    method OnResize(device: Device, blockIndex: nat, d: Direction, dw: int, isShiftKey: bool, getSnapWidths: SnapWidthsFn)
      requires device == Desktop ==>
                 && currentWidths.Row?
                 && blockIndex < |currentWidths.values|
                 && 0 <= Adjacent(blockIndex, d) < |currentWidths.values|
                 && Sum(currentWidths.values) > 0
      requires device != Desktop ==>
                 && currentWidths.Alone? && maxWidth >= 0
                 && (maxWidth > 0 || currentWidths.value + dw * SubPixels != 0)
      modifies this`newWidthsPercent, this`snapWidths, this`isEditWidth
      ensures !isEditWidth
      ensures device == Desktop ==>
                newWidthsPercent == Row(PairedPercents(currentWidths.values, blockIndex, d, dw * SubPixels))
      ensures device != Desktop ==>
                newWidthsPercent == Alone(IndependentPercent(currentWidths.value, dw * SubPixels, maxWidth))
      ensures old(snapWidths).Some? ==> snapWidths == old(snapWidths)
      ensures old(snapWidths).None? && device == Desktop ==>
                var ws := currentWidths.values;
                snapWidths == Some(getSnapWidths(PairedWidths(ws, blockIndex, Adjacent(blockIndex, d), dw * SubPixels),
                                                 blockIndex, Sum(ws), d, isShiftKey))
      ensures old(snapWidths).None? && device != Desktop ==>
                snapWidths == Some(getSnapWidths([100], 0, maxWidth, d, isShiftKey))
    {
      isEditWidth := false;
      if device == Desktop {
        var columnWidths, totalWidth, columnPercentages := DesktopResize(currentWidths.values, blockIndex, d, dw * SubPixels);
        newWidthsPercent := Row(columnPercentages);
        if snapWidths.None? {
          snapWidths := Some(getSnapWidths(columnWidths, blockIndex, totalWidth, d, isShiftKey));
        }
      } else {
        newWidthsPercent := Alone(IndependentPercent(currentWidths.value, dw * SubPixels, maxWidth));
        if snapWidths.None? {
          snapWidths := Some(getSnapWidths([100], 0, maxWidth, d, isShiftKey));
        }
      }
    }

    /**
     * `onResizeStop`: the update handed to the block for the
     * last computed percentages, and the snap points dropped.
     */
    method OnResizeStop(device: Device, dw: int) returns (commit: Commit)
      requires device == Desktop && dw != 0 ==> newWidthsPercent.Row?
      modifies this`snapWidths
      ensures commit == StopCommit(device, dw, newWidthsPercent)
      ensures snapWidths == None
    {
      commit := StopCommit(device, dw, newWidthsPercent);
      snapWidths := None;
    }
  }
}
