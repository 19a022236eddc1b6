/**
 * Per-row counters: seats left, window seats left and the satisfaction
 * (in half-units) awarded to the passengers seated in the row.
 */
module Rows {

  class RowDescriptor {
    var availableSeats: int
    var availableWindowSeats: int
    var rowSatisfaction: int

    constructor (availableSeats: int, availableWindowSeats: int)
      ensures this.availableSeats == availableSeats
      ensures this.availableWindowSeats == availableWindowSeats
      ensures rowSatisfaction == 0
    {
      this.availableSeats := availableSeats;
      this.availableWindowSeats := availableWindowSeats;
      rowSatisfaction := 0;
    }

    method GetAvailableSeats() returns (n: int)
      ensures n == availableSeats
    {
      n := availableSeats;
    }

    /** Adds `delta` to the seats left; the other two counters are untouched. */
    method UpdateAvailableSeats(delta: int)
      modifies this`availableSeats
      ensures availableSeats == old(availableSeats) + delta
    {
      availableSeats := availableSeats + delta;
    }

    method GetAvailableWindowSeats() returns (n: int)
      ensures n == availableWindowSeats
    {
      n := availableWindowSeats;
    }

    /** Adds `delta` to the window seats left; the other two counters are untouched. */
    method UpdateAvailableWindowSeats(delta: int)
      modifies this`availableWindowSeats
      ensures availableWindowSeats == old(availableWindowSeats) + delta
    {
      availableWindowSeats := availableWindowSeats + delta;
    }

    method GetRowSatisfaction() returns (s: int)
      ensures s == rowSatisfaction
    {
      s := rowSatisfaction;
    }

    /** Adds `amount` half-units to the row's satisfaction; the seat counters are untouched. */
    method UpdateRowSatisfaction(amount: int)
      modifies this`rowSatisfaction
      ensures rowSatisfaction == old(rowSatisfaction) + amount
    {
      rowSatisfaction := rowSatisfaction + amount;
    }
  }

  /** The satisfaction totals of the rows `ds` describe, in order. */
  ghost function Totals(ds: seq<RowDescriptor>): (t: seq<int>)
    reads ds
    ensures |t| == |ds| && forall i :: 0 <= i < |ds| ==> t[i] == ds[i].rowSatisfaction
  {
    if ds == [] then [] else Totals(ds[..|ds| - 1]) + [ds[|ds| - 1].rowSatisfaction]
  }
}
