/**
 * The score of a run: how many rows `getSatisfaction` reads and the
 * percentage it makes of their totals. Totals are in half-units, so a row
 * total of `t` stands for `t / 2` satisfied passengers.
 */
module Scoring {

  /**
   * The value of `satisfaction / passengerCount * 100` in the source's
   * double arithmetic: a percentage, or the IEEE results of dividing by zero.
   */
  datatype Satisfaction = Percentage(value: real) | NotANumber | Infinity | NegativeInfinity

  function Sum(xs: seq<int>): int {
    if xs == [] then 0 else Sum(xs[..|xs| - 1]) + xs[|xs| - 1]
  }

  /** Summing a prefix one element longer adds that element. */
  lemma {:induction false} SumStep(xs: seq<int>, k: nat)
    requires k < |xs|
    ensures Sum(xs[..k + 1]) == Sum(xs[..k]) + xs[k]
  {
    assert xs[..k + 1][..k] == xs[..k];
  }

  /** The least `c` with `b * c >= a`, for a positive `b`. */
  function CeilDiv(a: int, b: int): (c: int)
    requires b >= 1
    ensures b * (c - 1) < a <= b * c
  {
    var q, m := (a + b - 1) / b, (a + b - 1) % b;
    assert a + b - 1 == b * q + m && 0 <= m < b;
    q
  }

  /**
   * How many rows the score loop reads: it stops at `numRows`, and after
   * each row once the passengers not yet accounted for, counting
   * `seatsInRow` per row read, are used up. At least row 0 is read whenever
   * the plane has a row.
   */
  function RowsScored(passengerCount: int, seatsInRow: int, numRows: int): (k: nat)
    requires seatsInRow >= 1
  {
    if numRows <= 0 then 0
    else
      var c := CeilDiv(passengerCount, seatsInRow);
      if c <= 1 then 1 else if c < numRows then c else numRows
  }

  /**
   * The rows read are exactly those the loop reaches: none without rows,
   * otherwise row 0 and then row `k` while `k < numRows` and passengers
   * remain after `k` rows.
   */
  lemma {:induction false} RowsScoredStops(passengerCount: int, seatsInRow: int, numRows: int)
    requires seatsInRow >= 1
    ensures var k := RowsScored(passengerCount, seatsInRow, numRows);
            && k <= (if numRows > 0 then numRows else 0)
            && (numRows >= 1 ==> k >= 1)
            && (forall j :: 1 <= j < k ==> passengerCount - seatsInRow * j > 0)
            && (1 <= k < numRows ==> passengerCount - seatsInRow * k <= 0)
  {
    if numRows >= 1 {
      var c := CeilDiv(passengerCount, seatsInRow);
      var k := RowsScored(passengerCount, seatsInRow, numRows);
      forall j | 1 <= j < k
        ensures passengerCount - seatsInRow * j > 0
      {
        MulLess(seatsInRow, j, c - 1);
      }
      if 1 <= k < numRows {
        MulLess(seatsInRow, c, k + 1);
      }
    }
  }

  /**
   * One more step of the score loop: when the loop reaches row `c` it takes
   * that row in, and it stops after it exactly when no passengers remain.
   */
  lemma {:induction false} RowsScoredNext(passengerCount: int, seatsInRow: int, numRows: int, c: nat)
    requires seatsInRow >= 1 && c < numRows
    requires c == 0 || passengerCount - seatsInRow * c > 0
    ensures c + 1 <= RowsScored(passengerCount, seatsInRow, numRows)
    ensures passengerCount - seatsInRow * (c + 1) <= 0 ==> RowsScored(passengerCount, seatsInRow, numRows) == c + 1
  {
    var q := CeilDiv(passengerCount, seatsInRow);
    if c >= 1 {
      MulLessInverse(seatsInRow, c, q);
    }
    if passengerCount - seatsInRow * (c + 1) <= 0 {
      MulLessInverse(seatsInRow, q - 1, c + 1);
    }
  }

  lemma {:induction false} MulStep(b: int, c: int)
    ensures b * (c + 1) == b * c + b
  {
  }

  /** A positive factor that scales `x` below `y` leaves `x` below `y`. */
  lemma {:induction false} MulLessInverse(b: int, x: int, y: int)
    requires b >= 1 && b * x < b * y
    ensures x < y
  {
    assert b * (y - x) == b * y - b * x;
  }

  /** Scaling by a positive factor keeps `<=`. */
  lemma {:induction false} MulLess(b: int, x: int, y: int)
    requires b >= 1 && x <= y
    ensures b * x <= b * y
  {
    assert b * y - b * x == b * (y - x);
  }

  /** Every row read exists once the rows can hold all passengers counted. */
  lemma {:induction false} RowsScoredInRange(passengerCount: int, seatsInRow: int, numRows: int, rows: nat)
    requires seatsInRow >= 1 && rows >= 1 && passengerCount <= seatsInRow * rows
    ensures RowsScored(passengerCount, seatsInRow, numRows) <= rows
  {
    var c := CeilDiv(passengerCount, seatsInRow);
    if c > rows {
      MulLess(seatsInRow, rows, c - 1);
    }
  }

  /**
   * The percentage of `halfUnits / 2` over `passengerCount`; dividing by a
   * zero count gives NaN for a zero sum and an infinity of the sum's sign.
   */
  function Score(halfUnits: int, passengerCount: int): (s: Satisfaction)
    ensures s.Percentage? <==> passengerCount != 0
    ensures s.Percentage? ==> s.value * (passengerCount as real) == 50.0 * (halfUnits as real)
  {
    if passengerCount == 0 then
      if halfUnits == 0 then NotANumber
      else if halfUnits > 0 then Infinity
      else NegativeInfinity
    else
      Percentage(50.0 * (halfUnits as real) / (passengerCount as real))
  }

  /** With a positive count and at most full satisfaction per passenger, the score is in `[0, 100]`. */
  lemma {:induction false} ScoreInRange(halfUnits: int, passengerCount: int)
    requires passengerCount > 0 && 0 <= halfUnits <= 2 * passengerCount
    ensures Score(halfUnits, passengerCount).Percentage?
    ensures 0.0 <= Score(halfUnits, passengerCount).value <= 100.0
  {
    var v := Score(halfUnits, passengerCount).value;
    var p := passengerCount as real;
    assert v * p == 50.0 * (halfUnits as real);
    assert 0.0 <= 50.0 * (halfUnits as real) <= 100.0 * p;
    Bounded(v, p, 100.0);
  }

  /** A non-negative `v` with `v * p` at most `bound * p`, for a positive `p`, is at most `bound`. */
  lemma {:induction false} Bounded(v: real, p: real, bound: real)
    requires p > 0.0 && 0.0 <= v * p <= bound * p
    ensures 0.0 <= v <= bound
  {
    assert (bound - v) * p >= 0.0;
  }
}
