/** The time and index arithmetic of the streaming time-series chart: the
    window of sample rows, its first and last dates, the count of steps not
    yet drawn, and the visible (zoomed) date interval.

    Dates are integer milliseconds since the epoch (what `Date.getTime()`
    gives), and the step between two rows is an integer number of
    milliseconds. Scales, selections, axes, paths, the segment tree and the
    timer that defers drawing are not modelled. */
module Draw {

  /** One sample row: one value per plotted series. */
  type Row = seq<real>

  class TimeSeriesChart {
    /** Milliseconds between two consecutive rows. */
    const stepX: int
    /** Date of the first row as last drawn. */
    var minX: int
    /** Date of the last row as last drawn. */
    var maxX: int
    /** Rows received since the last draw. */
    var missedStepsCount: nat
    /** The window of rows, oldest first. */
    var data: seq<Row>
    /** Domain [from, to] of the unzoomed time scale. */
    var xDomain: (int, int)
    /** Domain [from, to] of the zoomed time scale, the visible dates. */
    var rxDomain: (int, int)

    /** The last drawn dates span the whole window, and the unzoomed scale
        shows exactly that span. */
    ghost predicate Valid()
      reads this
    {
      maxX == CalcDate(|data| - 1, minX) && xDomain == (minX, maxX)
    }

    /** The date `index` steps after `offset`. */
    function CalcDate(index: int, offset: int): int {
      index * stepX + offset
    }

    /** The date carried by the row at position `i` of the window: rows
        received since the last draw have moved the window on by
        `missedStepsCount` steps past `minX`. */
    ghost function RowDate(i: int): int
      reads this
    {
      CalcDate(missedStepsCount + i, minX)
    }

    /** Stepping `i` then `j` steps is stepping `i + j` steps. */
    lemma CalcDateAdditive(i: int, j: int, offset: int)
      ensures CalcDate(j, CalcDate(i, offset)) == CalcDate(i + j, offset)
    {
      assert (i + j) * stepX == i * stepX + j * stepX;
    }

    constructor (minX0: int, stepX0: int, data0: seq<Row>)
      ensures Valid()
      ensures stepX == stepX0 && minX == minX0 && data == data0
      ensures maxX == minX0 + (|data0| - 1) * stepX0
      ensures missedStepsCount == 0
      ensures rxDomain == xDomain == (minX0, maxX)
    {
      stepX := stepX0;
      minX := minX0;
      maxX := (|data0| - 1) * stepX0 + minX0;
      data := data0;
      xDomain := (minX0, maxX);
      rxDomain := xDomain;
      missedStepsCount := 0;
    }

    /** The row at index `i` is dated inside the closed interval `sub`. */
    predicate InSubInterval(i: int, sub: (int, int))
      reads this
    {
      CalcDate(i, minX) >= sub.0 && CalcDate(i, minX) <= sub.1
    }

    /** The indices dated inside an interval have no gaps, whatever the sign
        of the step. */
    lemma InSubIntervalConvex(i: int, j: int, k: int, sub: (int, int))
      requires i <= j <= k
      requires InSubInterval(i, sub) && InSubInterval(k, sub)
      ensures InSubInterval(j, sub)
    {
      assert (j - i) * stepX + (k - j) * stepX == (k - i) * stepX;
      if stepX >= 0 {
        assert (j - i) * stepX >= 0 && (k - j) * stepX >= 0;
      } else {
        assert (j - i) * stepX <= 0 && (k - j) * stepX <= 0;
      }
      assert CalcDate(j, minX) == CalcDate(i, minX) + (j - i) * stepX;
      assert CalcDate(k, minX) == CalcDate(j, minX) + (k - j) * stepX;
    }

    /** With dates increasing along the window, every index below the
        window's length, dated from `minX` as the scan in `GetZoomIntervalY`
        dates it, lies inside the unzoomed domain. Rows received since the
        last draw carry later dates (`RowDate`) than this. */
    lemma WholeWindowVisible(i: int)
      requires Valid() && stepX >= 0
      requires 0 <= i < |data|
      ensures InSubInterval(i, xDomain)
    {
      assert (|data| - 1 - i) * stepX >= 0;
      assert i * stepX >= 0;
    }

    /** The first and last of the indices 0 .. intervalSize - 1 whose dates
        lie in `xSubInterval`; (intervalSize, 0) when none does. */
    method GetZoomIntervalY(xSubInterval: (int, int), intervalSize: int) returns (from: int, to: int)
      ensures forall i :: 0 <= i < intervalSize ==> (InSubInterval(i, xSubInterval) <==> from <= i <= to)
      ensures (forall i :: 0 <= i < intervalSize ==> !InSubInterval(i, xSubInterval)) ==> from == intervalSize && to == 0
      ensures (exists i :: 0 <= i < intervalSize && InSubInterval(i, xSubInterval)) ==>
                0 <= from <= to < intervalSize && InSubInterval(from, xSubInterval) && InSubInterval(to, xSubInterval)
    {
      from := intervalSize;
      to := 0;
      ghost var found := false;
      var i := 0;
      while i < intervalSize
        invariant 0 <= i && (i <= intervalSize || i == 0)
        invariant forall k :: 0 <= k < i && InSubInterval(k, xSubInterval) ==> from <= k <= to
        invariant !found ==> from == intervalSize && to == 0
        invariant !found ==> forall k :: 0 <= k < i ==> !InSubInterval(k, xSubInterval)
        invariant found ==> 0 <= from <= to < i && InSubInterval(from, xSubInterval) && InSubInterval(to, xSubInterval)
      {
        if InSubInterval(i, xSubInterval) {
          found := true;
          if i > to {
            to := i;
          }
          if i < from {
            from := i;
          }
        }
        i := i + 1;
      }
      forall j | 0 <= j < intervalSize && from <= j <= to
        ensures InSubInterval(j, xSubInterval)
      {
        InSubIntervalConvex(from, j, to, xSubInterval);
      }
    }

    /** A new row arrives: it is appended, the oldest row is dropped, and
        one more step waits to be drawn. Every row keeps its date. */
    method UpdateChartWithNewData(newData: Row)
      requires Valid()
      modifies this
      ensures Valid()
      ensures missedStepsCount == old(missedStepsCount) + 1
      ensures |data| == |old(data)|
      ensures old(data) != [] ==> data == old(data)[1..] + [newData]
      ensures old(data) == [] ==> data == []
      ensures forall i :: RowDate(i) == old(RowDate(i + 1))
      ensures minX == old(minX) && maxX == old(maxX)
      ensures xDomain == old(xDomain) && rxDomain == old(rxDomain)
    {
      missedStepsCount := missedStepsCount + 1;
      data := data + [newData];
      data := data[1..];
      forall i ensures RowDate(i) == old(RowDate(i + 1)) {
        assert missedStepsCount + i == old(missedStepsCount) + (i + 1);
      }
    }

    /** The deferred drawing step: the window's dates and both time domains
        move on by the steps received since the last draw. */
    method DrawNewDataBody()
      requires Valid()
      modifies this
      ensures Valid()
      ensures missedStepsCount == 0
      ensures minX == old(minX) + old(missedStepsCount) * stepX
      ensures maxX == minX + (|data| - 1) * stepX
      ensures rxDomain == (old(rxDomain.0) + old(missedStepsCount) * stepX, old(rxDomain.1) + old(missedStepsCount) * stepX)
      ensures rxDomain.1 - rxDomain.0 == old(rxDomain.1 - rxDomain.0)
      ensures forall i :: RowDate(i) == old(RowDate(i))
      ensures minX == RowDate(0) && maxX == RowDate(|data| - 1)
      ensures data == old(data)
    {
      var stepsToDraw := missedStepsCount;
      missedStepsCount := 0;

      minX := CalcDate(stepsToDraw, minX);
      maxX := CalcDate(|data| - 1, minX);

      var minimumRX := CalcDate(stepsToDraw, rxDomain.0);
      var maximumRX := CalcDate(stepsToDraw, rxDomain.1);

      xDomain := (minX, maxX);
      rxDomain := (minimumRX, maximumRX);

      forall i ensures RowDate(i) == old(RowDate(i)) {
        CalcDateAdditive(stepsToDraw, i, old(minX));
      }
    }

    /** Rows arrive one by one before the deferred draw runs: the draw then
        moves the window on by exactly one step per row. */
    method UpdatesThenDraw(rows: seq<Row>)
      requires Valid()
      modifies this
      ensures Valid()
      ensures missedStepsCount == 0
      ensures minX == old(minX) + (old(missedStepsCount) + |rows|) * stepX
      ensures rxDomain == (old(rxDomain.0) + (old(missedStepsCount) + |rows|) * stepX,
                           old(rxDomain.1) + (old(missedStepsCount) + |rows|) * stepX)
      ensures data == (old(data) + rows)[|rows|..]
      ensures |data| == |old(data)|
    {
      var k := 0;
      while k < |rows|
        invariant 0 <= k <= |rows|
        invariant Valid()
        invariant missedStepsCount == old(missedStepsCount) + k
        invariant minX == old(minX) && |data| == |old(data)|
        invariant rxDomain == old(rxDomain)
        invariant data == (old(data) + rows[..k])[k..]
      {
        UpdateChartWithNewData(rows[k]);
        assert rows[..k + 1] == rows[..k] + [rows[k]];
        k := k + 1;
      }
      assert rows[..k] == rows;
      DrawNewDataBody();
    }
  }
}
