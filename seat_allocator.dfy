/**
 * The greedy seat allocator. Groups are sorted (largest first, then most
 * window seekers first) and seated whole, first fit, into rows opened on
 * demand; groups larger than a row are dissolved into an overflow list that
 * is seated passenger by passenger, window seekers first, each passenger
 * flagged as separated. The clean-up trims the rows beyond the plane and moves
 * window seekers to the ends of each row; the score is the percentage of the
 * satisfaction awarded.
 *
 * Satisfaction is in half-units (2 = full, 1 = half, 0 = none).
 */
module Allocation {
  import opened Wrappers
  import opened Passengers
  import opened Rows
  import opened GroupOrder
  import opened Arrangement
  import opened Scoring

  /** What `findSuitableRow` returns when no scanned row will do. */
  const NO_SUITABLE_ROW: int := -1

  /**
   * The award a seating gives, by the branches of `fitPassengerInCurrentRow`:
   * a window seeker with a free window seat scores full, or half when
   * separated; without one, half while still with the group and nothing
   * otherwise; anyone else scores full unless separated.
   */
  function Award(wantsWindow: bool, windowFree: bool, inGroup: bool, separated: bool): (a: nat)
    ensures a <= FULL_SATISFACTION
    ensures a == FULL_SATISFACTION <==> !separated && (!wantsWindow || windowFree)
  {
    if wantsWindow then
      if windowFree then (if separated then HALF_SATISFACTION else FULL_SATISFACTION)
      else if inGroup && !separated then HALF_SATISFACTION
      else NO_SATISFACTION
    else if separated then NO_SATISFACTION
    else FULL_SATISFACTION
  }

  /** A separated passenger scores half with a free window seat they want, and nothing otherwise. */
  lemma {:induction false} AwardSeparated(wantsWindow: bool, windowFree: bool, inGroup: bool)
    ensures Award(wantsWindow, windowFree, inGroup, true)
         == if wantsWindow && windowFree then HALF_SATISFACTION else NO_SATISFACTION
  {
  }

  /** Where phase 1 put a group: to the overflow list, or in one row from a start index on. */
  datatype Placement = Overflowed | SeatedAt(row: nat, start: nat)

  /**
   * `g` went where `p` says: an overflowed group is larger than a row, a
   * seated one fits a row and stands, contiguous and in order, in row `p.row`.
   */
  ghost predicate PlacedAt(g: seq<Passenger>, p: Placement, rows: seq<seq<Passenger>>, seatsInRow: int) {
    match p
    case Overflowed => |g| > seatsInRow
    case SeatedAt(r, s) =>
      |g| <= seatsInRow && r < |rows| && s + |g| <= |rows[r]| && rows[r][s..s + |g|] == g
  }

  ghost predicate Placed(gs: seq<seq<Passenger>>, ps: seq<Placement>, rows: seq<seq<Passenger>>, seatsInRow: int) {
    |ps| == |gs| && forall i :: 0 <= i < |gs| ==> PlacedAt(gs[i], ps[i], rows, seatsInRow)
  }

  /** `rows2` arises from `rows` by appending to rows and opening new ones. */
  ghost predicate RowsExtend(rows: seq<seq<Passenger>>, rows2: seq<seq<Passenger>>) {
    |rows| <= |rows2| && forall r :: 0 <= r < |rows| ==> rows[r] <= rows2[r]
  }

  lemma {:induction false} PlacedExtend(gs: seq<seq<Passenger>>, ps: seq<Placement>, rows: seq<seq<Passenger>>,
                     rows2: seq<seq<Passenger>>, seatsInRow: int)
    requires Placed(gs, ps, rows, seatsInRow) && RowsExtend(rows, rows2)
    ensures Placed(gs, ps, rows2, seatsInRow)
  {
    forall i | 0 <= i < |gs| ensures PlacedAt(gs[i], ps[i], rows2, seatsInRow) {
      match ps[i]
      case Overflowed =>
      case SeatedAt(r, s) =>
        assert rows[r] <= rows2[r];
        assert rows2[r][s..s + |gs[i]|] == rows[r][s..s + |gs[i]|];
    }
  }

  /** The groups larger than a row, in order. */
  function Oversized(gs: seq<seq<Passenger>>, seatsInRow: int): (r: seq<seq<Passenger>>)
  {
    if gs == [] then []
    else Oversized(gs[..|gs| - 1], seatsInRow)
         + (if |gs[|gs| - 1]| > seatsInRow then [gs[|gs| - 1]] else [])
  }

  /** The groups in `Oversized` are exactly the groups given that are larger than a row. */
  lemma {:induction false} OversizedFilter(gs: seq<seq<Passenger>>, seatsInRow: int)
    ensures |Oversized(gs, seatsInRow)| <= |gs|
    ensures forall g :: g in Oversized(gs, seatsInRow) <==> g in gs && |g| > seatsInRow
    decreases |gs|
  {
    if gs != [] {
      var n := |gs| - 1;
      OversizedFilter(gs[..n], seatsInRow);
      assert gs == gs[..n] + [gs[n]];
      forall g ensures g in gs <==> g in gs[..n] || g == gs[n] {
      }
    }
  }

  /** Window seekers in `g`, counted by a loop as the allocator does before each search. */
  method CountWindowPreferences(g: seq<Passenger>) returns (n: nat)
    ensures n == WindowCount(g)
  {
    n := 0;
    var i := 0;
    while i < |g|
      invariant 0 <= i <= |g|
      invariant n == WindowCount(g[..i])
    {
      assert g[..i + 1][..i] == g[..i];
      if g[i].wantsWindow {
        n := n + 1;
      }
      i := i + 1;
    }
    assert g[..|g|] == g;
  }

  /** The list access past the end that the clean-up or the score can make. */
  datatype AllocationError = IndexOutOfBounds

  datatype SittingArrangement = SittingArrangement(seatConfiguration: seq<seq<Passenger>>,
                                                   satisfaction: Satisfaction)

  class SeatAllocator {
    var passengerGroups: seq<seq<Passenger>>
    var planeRows: seq<seq<Passenger>>
    var rowDescriptors: seq<RowDescriptor>
    const numRows: int
    const numSeatsInRow: int
    const numWindowsInPlane: int
    const passengerCount: int

    constructor (passengerGroups: seq<seq<Passenger>>, numRows: int, numSeatsInRow: int,
                 passengerCount: int, numWindowsInPlane: int)
      ensures this.passengerGroups == passengerGroups && this.numRows == numRows
      ensures this.numSeatsInRow == numSeatsInRow && this.numWindowsInPlane == numWindowsInPlane
      ensures this.passengerCount == passengerCount
      ensures planeRows == [] && rowDescriptors == []
    {
      this.passengerGroups := passengerGroups;
      this.numRows := numRows;
      this.numSeatsInRow := numSeatsInRow;
      this.numWindowsInPlane := numWindowsInPlane;
      this.passengerCount := passengerCount;
      rowDescriptors := [];
      planeRows := [];
    }

    /**
     * The descriptors agree with the rows: one distinct descriptor per row,
     * seats taken plus seats left make the row width, no counter goes negative
     * (the window counter stays at its initial value when that is negative)
     * and each row's satisfaction is at most full for every occupant.
     */
    ghost predicate Valid()
      reads this`planeRows, this`rowDescriptors, rowDescriptors
    {
      && numSeatsInRow >= 1
      && |rowDescriptors| == |planeRows|
      && (forall i, j :: 0 <= i < j < |rowDescriptors| ==> rowDescriptors[i] != rowDescriptors[j])
      && forall r :: 0 <= r < |rowDescriptors| ==>
           && |planeRows[r]| + rowDescriptors[r].availableSeats == numSeatsInRow
           && rowDescriptors[r].availableSeats >= 0
           && (|| 0 <= rowDescriptors[r].availableWindowSeats <= numWindowsInPlane
               || rowDescriptors[r].availableWindowSeats == numWindowsInPlane)
           && 0 <= rowDescriptors[r].rowSatisfaction <= FULL_SATISFACTION * |planeRows[r]|
    }

    /** Row `r` has not been sat in yet. */
    ghost predicate Fresh(r: int)
      reads this`rowDescriptors, rowDescriptors
    {
      0 <= r < |rowDescriptors| && rowDescriptors[r].availableSeats == numSeatsInRow
    }

    /**
     * What is left to the scan bound `currentRow` before opening rows must
     * stop: two steps per row up to `bound`, and one more while row
     * `currentRow` is in use or missing. Every turn that opens a row
     * decreases it.
     */
    ghost function Slack(currentRow: int, bound: int): nat
      reads this`rowDescriptors, rowDescriptors
    {
      2 * (if bound > currentRow then bound - currentRow else 0) + (if Fresh(currentRow) then 0 else 1)
    }

    /**
     * Row `r` takes a group of `groupSize` with `numWindowPreferences` window
     * seekers when the scan goes up to `availableRows`: the group fits, and
     * either nobody wants a window, there are enough window seats, or the scan
     * bound has reached the number of rows of the plane.
     */
    ghost predicate Suits(r: int, availableRows: int, groupSize: int, numWindowPreferences: int)
      reads this`rowDescriptors, rowDescriptors
      requires 0 <= r < |rowDescriptors|
    {
      && groupSize <= rowDescriptors[r].availableSeats
      && (|| numWindowPreferences <= 0
          || numWindowPreferences <= rowDescriptors[r].availableWindowSeats
          || availableRows >= numRows)
    }

    /** `findSuitableRow`: the first row in `0..availableRows` that suits, or `NO_SUITABLE_ROW`. */
    method FindSuitableRow(availableRows: int, groupSize: int, numWindowPreferences: int) returns (r: int)
      requires availableRows < |rowDescriptors|
      ensures r == NO_SUITABLE_ROW || 0 <= r <= availableRows
      ensures r == NO_SUITABLE_ROW <==>
                forall k :: 0 <= k <= availableRows ==> !Suits(k, availableRows, groupSize, numWindowPreferences)
      ensures r != NO_SUITABLE_ROW ==>
                && Suits(r, availableRows, groupSize, numWindowPreferences)
                && forall k :: 0 <= k < r ==> !Suits(k, availableRows, groupSize, numWindowPreferences)
    {
      var currentRow := 0;
      while currentRow <= availableRows
        invariant 0 <= currentRow && (currentRow <= availableRows + 1 || currentRow == 0)
        invariant forall k :: 0 <= k < currentRow ==> !Suits(k, availableRows, groupSize, numWindowPreferences)
      {
        var seats := rowDescriptors[currentRow].GetAvailableSeats();
        if groupSize <= seats {
          if numWindowPreferences > 0 {
            var windows := rowDescriptors[currentRow].GetAvailableWindowSeats();
            if numWindowPreferences <= windows || availableRows >= numRows {
              assert Suits(currentRow, availableRows, groupSize, numWindowPreferences);
              return currentRow;
            }
          } else {
            assert Suits(currentRow, availableRows, groupSize, numWindowPreferences);
            return currentRow;
          }
        }
        currentRow := currentRow + 1;
      }
      return NO_SUITABLE_ROW;
    }

    /** `updateSatisfafction`: the same amount goes to the passenger and to the row. */
    method UpdateSatisfaction(r: nat, p: Passenger, amount: int)
      requires r < |rowDescriptors|
      modifies p`satisfaction, rowDescriptors[r]
      ensures p.satisfaction == old(p.satisfaction) + amount
      ensures rowDescriptors[r].rowSatisfaction == old(rowDescriptors[r].rowSatisfaction) + amount
      ensures rowDescriptors[r].availableSeats == old(rowDescriptors[r].availableSeats)
      ensures rowDescriptors[r].availableWindowSeats == old(rowDescriptors[r].availableWindowSeats)
    {
      p.UpdateSatisfaction(amount);
      rowDescriptors[r].UpdateRowSatisfaction(amount);
    }

    /**
     * `fitPassengerInCurrentRow`: takes a seat in row `r`, takes a window seat
     * when the passenger wants one and one is left, awards the same amount to
     * the passenger and the row, and appends the passenger to the row.
     * Nothing outside row `r` and the passenger changes.
     */
    method FitPassengerInCurrentRow(r: nat, p: Passenger)
      requires Valid() && r < |rowDescriptors| && rowDescriptors[r].availableSeats >= 1
      modifies this`planeRows, rowDescriptors[r], p`satisfaction
      ensures Valid()
      ensures planeRows == old(planeRows)[r := old(planeRows[r]) + [p]]
      ensures rowDescriptors[r].availableSeats == old(rowDescriptors[r].availableSeats) - 1
      ensures rowDescriptors[r].availableWindowSeats
           == old(rowDescriptors[r].availableWindowSeats)
              - (if p.wantsWindow && old(rowDescriptors[r].availableWindowSeats) > 0 then 1 else 0)
      ensures var a := Award(p.wantsWindow, old(rowDescriptors[r].availableWindowSeats) > 0,
                             p.inGroup, p.separatedFromGroup);
              && p.satisfaction == old(p.satisfaction) + a
              && rowDescriptors[r].rowSatisfaction == old(rowDescriptors[r].rowSatisfaction) + a
    {
      var d := rowDescriptors[r];
      ghost var windowFree := d.availableWindowSeats > 0;
      d.UpdateAvailableSeats(-1);
      // the branches without an award leave the amount at nothing
      var amount := NO_SATISFACTION;
      if p.wantsWindow {
        var windows := d.GetAvailableWindowSeats();
        if windows > 0 {
          d.UpdateAvailableWindowSeats(-1);
          amount := if p.separatedFromGroup then HALF_SATISFACTION else FULL_SATISFACTION;
        } else if p.inGroup && !p.separatedFromGroup {
          amount := HALF_SATISFACTION;
        }
      } else {
        amount := if p.separatedFromGroup then NO_SATISFACTION else FULL_SATISFACTION;
      }
      assert amount == Award(p.wantsWindow, windowFree, p.inGroup, p.separatedFromGroup);
      UpdateSatisfaction(r, p, amount);
      planeRows := planeRows[r := planeRows[r] + [p]];
    }

    /**
     * Opens an empty row at the end, with a fresh descriptor offering every
     * seat and every window seat and no satisfaction yet.
     */
    method OpenRow()
      requires Valid()
      modifies this`rowDescriptors, this`planeRows
      ensures Valid()
      ensures planeRows == old(planeRows) + [[]]
      ensures |rowDescriptors| == |old(rowDescriptors)| + 1
      ensures rowDescriptors[..|old(rowDescriptors)|] == old(rowDescriptors)
      ensures fresh(rowDescriptors[|old(rowDescriptors)|]) && Fresh(|old(rowDescriptors)|)
      ensures rowDescriptors[|old(rowDescriptors)|].availableWindowSeats == numWindowsInPlane
      ensures rowDescriptors[|old(rowDescriptors)|].rowSatisfaction == 0
    {
      var d := new RowDescriptor(numSeatsInRow, numWindowsInPlane);
      rowDescriptors := rowDescriptors + [d];
      planeRows := planeRows + [[]];
      assert rowDescriptors[..|old(rowDescriptors)|] == old(rowDescriptors);
    }

    /**
     * Seats the members of `g`, in order, in row `r`, which has room for all
     * of them. When `g` has no passenger twice, each member gains between
     * nothing and full satisfaction.
     */
    method SeatGroup(r: nat, g: seq<Passenger>)
      requires Valid() && r < |rowDescriptors| && |g| <= rowDescriptors[r].availableSeats
      modifies this`planeRows, rowDescriptors[r], g`satisfaction
      ensures Valid()
      ensures planeRows == old(planeRows)[r := old(planeRows[r]) + g]
      ensures NoDuplicates(g) ==>
                forall k :: 0 <= k < |g| ==>
                  old(g[k].satisfaction) <= g[k].satisfaction <= old(g[k].satisfaction) + FULL_SATISFACTION
    {
      var j := 0;
      assert old(planeRows[r]) + g[..0] == old(planeRows[r]);
      while j < |g|
        invariant 0 <= j <= |g|
        invariant Valid()
        invariant planeRows == old(planeRows)[r := old(planeRows[r]) + g[..j]]
        invariant rowDescriptors[r].availableSeats == old(rowDescriptors[r].availableSeats) - j
        invariant NoDuplicates(g) ==>
                    forall k :: 0 <= k < j ==>
                      old(g[k].satisfaction) <= g[k].satisfaction <= old(g[k].satisfaction) + FULL_SATISFACTION
        invariant NoDuplicates(g) ==> forall k :: j <= k < |g| ==> g[k].satisfaction == old(g[k].satisfaction)
      {
        if NoDuplicates(g) {
          NoDuplicatesAt(g, j);
        }
        FitPassengerInCurrentRow(r, g[j]);
        assert old(planeRows[r]) + g[..j + 1] == old(planeRows[r]) + g[..j] + [g[j]];
        j := j + 1;
      }
      assert g[..j] == g;
    }

    /**
     * What phase 1 keeps after taking the first `n` of the sorted groups `G`:
     * the descriptors agree with the rows, the scan bound is the last row,
     * `Phase1` relates rows, overflow list and placements to the groups, and,
     * when no passenger occurs twice, members of groups taken so far have
     * gained at most full satisfaction over `sat0` while members of groups not
     * yet taken or larger than a row have gained nothing.
     */
    ghost predicate Phase1Inv(G: seq<seq<Passenger>>, n: nat, currentRow: int, overflow: seq<Passenger>,
                              placements: seq<Placement>, sat0: map<Passenger, int>, distinct: bool)
      reads this`planeRows, this`rowDescriptors, rowDescriptors, Members(G)
    {
      && Valid() && 0 <= currentRow == |planeRows| - 1
      && Phase1(G, n, planeRows, overflow, placements, numSeatsInRow)
      && (distinct ==> GainedAtMost(G, n, sat0, FULL_SATISFACTION) && Untouched(G, n, numSeatsInRow, sat0))
    }

    /**
     * The branch of phase 1 that opens a row because none up to the last
     * suits a head group of `size` that fits a row. A fresh last row would
     * have suited once the bound reaches the plane's rows, so a row is opened
     * only while the bound is below them or the last row is in use.
     */
    method OpenRowInPhase1(ghost G: seq<seq<Passenger>>, n: nat, currentRow: int,
                           overflow: seq<Passenger>, ghost placements: seq<Placement>,
                           ghost sat0: map<Passenger, int>, ghost distinct: bool,
                           ghost size: int, ghost numWindowPreferences: int)
      returns (n': nat, currentRow': int, overflow': seq<Passenger>, ghost placements': seq<Placement>)
      requires Phase1Inv(G, n, currentRow, overflow, placements, sat0, distinct)
      requires size <= numSeatsInRow && !Suits(currentRow, currentRow, size, numWindowPreferences)
      modifies this`rowDescriptors, this`planeRows
      ensures n' == n && currentRow' == currentRow + 1 && overflow' == overflow && placements' == placements
      ensures Phase1Inv(G, n', currentRow', overflow', placements', sat0, distinct)
      ensures Slack(currentRow', numRows) < old(Slack(currentRow, numRows))
      ensures old(rowDescriptors) <= rowDescriptors
                && forall i :: |old(rowDescriptors)| <= i < |rowDescriptors| ==> fresh(rowDescriptors[i])
    {
      Phase1Open(G, n, planeRows, overflow, placements, numSeatsInRow);
      ghost var descriptors := rowDescriptors;
      OpenRow();
      assert rowDescriptors == descriptors + [rowDescriptors[|descriptors|]];
      n', currentRow', overflow', placements' := n, currentRow + 1, overflow, placements;
    }

    /** The branch of phase 1 that moves a head group larger than a row, unseated, to the overflow list. */
    method OverflowInPhase1(group: seq<Passenger>, ghost G: seq<seq<Passenger>>, n: nat, currentRow: int,
                            overflow: seq<Passenger>, ghost placements: seq<Placement>,
                            ghost sat0: map<Passenger, int>, ghost distinct: bool)
      returns (n': nat, currentRow': int, overflow': seq<Passenger>, ghost placements': seq<Placement>)
      requires Phase1Inv(G, n, currentRow, overflow, placements, sat0, distinct)
      requires n < |G| && group == G[n] && |group| > numSeatsInRow
      ensures n' == n + 1 && currentRow' == currentRow && overflow' == overflow + group
      ensures placements' == placements + [Overflowed]
      ensures Phase1Inv(G, n', currentRow', overflow', placements', sat0, distinct)
    {
      Phase1Overflow(G, n, planeRows, overflow, placements, numSeatsInRow);
      UntouchedOverflow(G, n, numSeatsInRow, sat0, distinct);
      n', currentRow', overflow', placements' := n + 1, currentRow, overflow + group, placements + [Overflowed];
    }

    /** The branch of phase 1 that seats the head group `G[n]` whole in row `r`. */
    method SeatGroupInPhase1(r: nat, group: seq<Passenger>, ghost G: seq<seq<Passenger>>, n: nat, currentRow: int,
                             overflow: seq<Passenger>, ghost placements: seq<Placement>,
                             ghost sat0: map<Passenger, int>, ghost distinct: bool)
      returns (n': nat, currentRow': int, overflow': seq<Passenger>, ghost placements': seq<Placement>)
      requires Phase1Inv(G, n, currentRow, overflow, placements, sat0, distinct)
      requires n < |G| && group == G[n] && |group| <= numSeatsInRow
      requires r < |rowDescriptors| && |group| <= rowDescriptors[r].availableSeats
      requires distinct == NoDuplicates(Flatten(G))
      modifies this`planeRows, rowDescriptors[r], group`satisfaction
      ensures n' == n + 1 && currentRow' == currentRow && overflow' == overflow
      ensures placements' == placements + [SeatedAt(r, |old(planeRows[r])|)]
      ensures Phase1Inv(G, n', currentRow', overflow', placements', sat0, distinct)
    {
      ghost var start := |planeRows[r]|;
      Phase1Seat(G, n, planeRows, overflow, placements, numSeatsInRow, r);
      GroupApart(G, n);
      SeatGroup(r, group);
      if distinct {
        forall i, j | 0 <= i < |G| && i != n && 0 <= j < |G[i]|
          ensures G[i][j].satisfaction == old(G[i][j].satisfaction)
        {
          assert G[i][j] !in group;
        }
        assert GainedAtMost(G, n + 1, sat0, FULL_SATISFACTION);
        assert Untouched(G, n + 1, numSeatsInRow, sat0);
      }
      n', currentRow', overflow', placements' := n + 1, currentRow, overflow, placements + [SeatedAt(r, start)];
    }

    /**
     * One turn of the phase 1 loop on the head group `G[n]`: it goes to the
     * overflow list when no row suits and it is larger than a row, a row is
     * opened when no row suits and it fits one, and otherwise it is seated
     * whole in the first suitable row. A turn either takes the group or opens
     * a row while the scan bound is below the plane's rows or the last row is
     * in use.
     */
    method Phase1Turn(group: seq<Passenger>, currentRow: int, overflow: seq<Passenger>,
                      ghost G: seq<seq<Passenger>>, n: nat, ghost placements: seq<Placement>,
                      ghost sat0: map<Passenger, int>, ghost distinct: bool)
      returns (n': nat, currentRow': int, overflow': seq<Passenger>, ghost placements': seq<Placement>)
      requires n < |G| && group == G[n] && distinct == NoDuplicates(Flatten(G))
      requires Phase1Inv(G, n, currentRow, overflow, placements, sat0, distinct)
      modifies this`planeRows, this`rowDescriptors, rowDescriptors, group`satisfaction
      ensures Phase1Inv(G, n', currentRow', overflow', placements', sat0, distinct)
      ensures || (n' == n + 1 && currentRow' == currentRow)
              || (n' == n && currentRow' == currentRow + 1 && Slack(currentRow', numRows) < old(Slack(currentRow, numRows)))
      ensures old(rowDescriptors) <= rowDescriptors
                && forall i :: |old(rowDescriptors)| <= i < |rowDescriptors| ==> fresh(rowDescriptors[i])
    {
      var numWindowPreferences := CountWindowPreferences(group);
      var suitableRow := FindSuitableRow(currentRow, |group|, numWindowPreferences);
      if suitableRow == NO_SUITABLE_ROW {
        if |group| > numSeatsInRow {
          n', currentRow', overflow', placements' := OverflowInPhase1(group, G, n, currentRow, overflow, placements, sat0, distinct);
        } else {
          n', currentRow', overflow', placements' :=
            OpenRowInPhase1(G, n, currentRow, overflow, placements, sat0, distinct, |group|, numWindowPreferences);
        }
      } else {
        n', currentRow', overflow', placements' :=
          SeatGroupInPhase1(suitableRow, group, G, n, currentRow, overflow, placements, sat0, distinct);
      }
    }

    /** The phase 1 loop, from the first group to the last, with its invariant made explicit. */
    method RunPhase1(G: seq<seq<Passenger>>, ghost sat0: map<Passenger, int>, ghost distinct: bool)
      returns (overflow: seq<Passenger>, ghost placements: seq<Placement>)
      requires distinct == NoDuplicates(Flatten(G))
      requires Phase1Inv(G, 0, 0, [], [], sat0, distinct)
      modifies this`planeRows, this`rowDescriptors, rowDescriptors, Members(G)`satisfaction
      ensures Valid() && |planeRows| >= 1
      ensures |old(rowDescriptors)| <= |rowDescriptors|
      ensures forall i :: 0 <= i < |rowDescriptors| ==>
                if i < |old(rowDescriptors)| then rowDescriptors[i] == old(rowDescriptors)[i] else fresh(rowDescriptors[i])
      ensures multiset(Flatten(planeRows)) + multiset(overflow) == multiset(Flatten(G))
      ensures overflow == Flatten(Oversized(G, numSeatsInRow))
      ensures Placed(G, placements, planeRows, numSeatsInRow)
      ensures distinct ==> GainedAtMost(G, |G|, sat0, FULL_SATISFACTION) && Untouched(G, |G|, numSeatsInRow, sat0)
    {
      var n := 0;
      var currentRow := 0;
      overflow := [];
      placements := [];
      MembersIndex(G);
      while n < |G|
        invariant 0 <= n <= |G|
        invariant Phase1Inv(G, n, currentRow, overflow, placements, sat0, distinct)
        invariant |old(rowDescriptors)| <= |rowDescriptors|
        invariant forall i :: 0 <= i < |rowDescriptors| ==>
                    if i < |old(rowDescriptors)| then rowDescriptors[i] == old(rowDescriptors)[i] else fresh(rowDescriptors[i])
        decreases |G| - n, Slack(currentRow, numRows)
      {
        ghost var descriptors := rowDescriptors;
        n, currentRow, overflow, placements :=
          Phase1Turn(G[n], currentRow, overflow, G, n, placements, sat0, distinct);
        forall i | 0 <= i < |rowDescriptors|
          ensures if i < |old(rowDescriptors)| then rowDescriptors[i] == old(rowDescriptors)[i] else fresh(rowDescriptors[i])
        {
          if i < |descriptors| {
            assert rowDescriptors[i] == descriptors[i];
          }
        }
      }
      assert n == |G|;
      Phase1End(G, |G|, planeRows, overflow, placements, numSeatsInRow);
    }

    /**
     * Phase 1 of `allocateSeats` on the sorted groups: each group goes whole,
     * in order, into the first suitable row among those opened so far, a new
     * row is opened when none suits and the group fits a row, and a group
     * larger than a row goes unchanged to the overflow list. The scan bound is
     * always the last row. With no passenger twice, every member gains at most
     * full satisfaction, and members of groups larger than a row gain nothing.
     */
    method SeatGroups(ghost sat0: map<Passenger, int>) returns (overflow: seq<Passenger>, ghost placements: seq<Placement>)
      requires Valid() && planeRows == [[]]
      requires forall p :: p in Members(passengerGroups) ==> p in sat0 && sat0[p] == p.satisfaction
      modifies this`planeRows, this`rowDescriptors, rowDescriptors
      modifies Members(passengerGroups)`satisfaction
      ensures Valid() && |planeRows| >= 1
      ensures |old(rowDescriptors)| <= |rowDescriptors|
      ensures forall i :: 0 <= i < |rowDescriptors| ==>
                if i < |old(rowDescriptors)| then rowDescriptors[i] == old(rowDescriptors)[i] else fresh(rowDescriptors[i])
      ensures multiset(Flatten(planeRows)) + multiset(overflow) == multiset(Flatten(old(passengerGroups)))
      ensures overflow == Flatten(Oversized(old(passengerGroups), numSeatsInRow))
      ensures Placed(old(passengerGroups), placements, planeRows, numSeatsInRow)
      ensures NoDuplicates(Flatten(passengerGroups)) ==>
                Phase1Gains(passengerGroups, numSeatsInRow, sat0, Satisfactions(Members(passengerGroups)))
    {
      var G: seq<seq<Passenger>> := passengerGroups;
      ghost var distinct := NoDuplicates(Flatten(G));
      Phase1Start(G, planeRows, numSeatsInRow);
      MembersIndex(G);
      overflow, placements := RunPhase1(G, sat0, distinct);
      if distinct {
        forall i, j | 0 <= i < |G| && 0 <= j < |G[i]|
          ensures G[i][j] in Satisfactions(Members(G)) && Satisfactions(Members(G))[G[i][j]] == G[i][j].satisfaction
        {
          assert G[i][j] in Members(G);
        }
      }
    }

    /**
     * What phase 2 keeps after seating the first `n` passengers of
     * `separated`, starting from rows `rows0` kept by `base` descriptors: the
     * descriptors agree with the rows, one row has been opened per step of
     * the scan bound, rows opened beyond the bound are still empty, `Phase2`
     * relates the rows to the passengers seated, those passengers are
     * flagged as separated and, when no passenger occurs twice, they have
     * gained at most half (window seekers) or nothing (the others) over
     * `sat0` while those still waiting have gained nothing.
     */
    ghost predicate Phase2Inv(rows0: seq<seq<Passenger>>, base: nat, separated: seq<Passenger>, n: nat,
                              currentRow: int, sat0: map<Passenger, int>, distinct: bool)
      reads this`planeRows, this`rowDescriptors, rowDescriptors, separated
    {
      && Valid() && base >= 1 && 0 <= currentRow && |rowDescriptors| == base + currentRow
      && (forall r :: currentRow < r < |rowDescriptors| && r >= base ==> Fresh(r))
      && Phase2(rows0, planeRows, separated, n)
      && (forall k :: 0 <= k < n ==> separated[k].separatedFromGroup)
      && (distinct ==> forall k :: 0 <= k < n ==>
            separated[k] in sat0
            && sat0[separated[k]] <= separated[k].satisfaction
               <= sat0[separated[k]] + (if separated[k].wantsWindow then HALF_SATISFACTION else NO_SATISFACTION))
      && (distinct ==> forall k :: n <= k < |separated| ==>
            separated[k] in sat0 && separated[k].satisfaction == sat0[separated[k]])
    }

    /** The branch of phase 2 that opens a row at the end because none up to the bound suits. */
    method OpenRowInPhase2(ghost rows0: seq<seq<Passenger>>, ghost base: nat, ghost separated: seq<Passenger>,
                           n: nat, currentRow: int, ghost sat0: map<Passenger, int>, ghost distinct: bool)
      returns (n': nat, currentRow': int)
      requires Phase2Inv(rows0, base, separated, n, currentRow, sat0, distinct)
      modifies this`rowDescriptors, this`planeRows
      ensures n' == n && currentRow' == currentRow + 1
      ensures Phase2Inv(rows0, base, separated, n', currentRow', sat0, distinct)
      ensures currentRow' >= base ==> Fresh(currentRow')
      ensures old(rowDescriptors) <= rowDescriptors
                && forall i :: |old(rowDescriptors)| <= i < |rowDescriptors| ==> fresh(rowDescriptors[i])
    {
      Phase2Open(rows0, planeRows, separated, n);
      ghost var descriptors := rowDescriptors;
      forall k | currentRow < k < |descriptors| && k >= base
        ensures descriptors[k].availableSeats == numSeatsInRow
      {
        assert Fresh(k);
      }
      OpenRow();
      forall r | currentRow < r < |rowDescriptors| && r >= base
        ensures Fresh(r)
      {
        if r < |descriptors| {
          assert rowDescriptors[r] == descriptors[r];
        }
      }
      assert rowDescriptors == descriptors + [rowDescriptors[|descriptors|]];
      n', currentRow' := n, currentRow + 1;
    }

    /** The branch of phase 2 that flags `separated[n]` and seats it in row `r`. */
    method SeatInPhase2(r: nat, p: Passenger, ghost rows0: seq<seq<Passenger>>, ghost base: nat,
                        ghost separated: seq<Passenger>, n: nat, currentRow: int,
                        ghost sat0: map<Passenger, int>, ghost distinct: bool)
      returns (n': nat, currentRow': int)
      requires Phase2Inv(rows0, base, separated, n, currentRow, sat0, distinct)
      requires n < |separated| && p == separated[n] && distinct == NoDuplicates(separated)
      requires r <= currentRow && rowDescriptors[r].availableSeats >= 1
      modifies this`planeRows, rowDescriptors[r], p`satisfaction, p`separatedFromGroup
      ensures n' == n + 1 && currentRow' == currentRow
      ensures Phase2Inv(rows0, base, separated, n', currentRow', sat0, distinct)
    {
      Phase2Seat(rows0, planeRows, separated, n, r);
      if distinct {
        NoDuplicatesAt(separated, n);
      }
      forall k | currentRow < k < |rowDescriptors| && k >= base
        ensures rowDescriptors[k] != rowDescriptors[r] && rowDescriptors[k].availableSeats == numSeatsInRow
      {
        assert Fresh(k);
      }
      p.SetSeparatedFromGroup(true);
      FitPassengerInCurrentRow(r, p);
      assert Phase2Inv(rows0, base, separated, n + 1, currentRow, sat0, distinct);
      n', currentRow' := n + 1, currentRow;
    }

    /**
     * One turn of the phase 2 loop on `separated[n]`: it is seated in the
     * first suitable row up to the bound, or else a row is opened at the end
     * and the bound grows by one. A row is opened only while the bound is
     * below the plane's rows or below the rows phase 1 left, or when the
     * bound row is in use and the next one is empty.
     */
    method Phase2Turn(p: Passenger, currentRow: int, ghost rows0: seq<seq<Passenger>>, ghost base: nat,
                      ghost separated: seq<Passenger>, n: nat,
                      ghost sat0: map<Passenger, int>, ghost distinct: bool, ghost bound: int)
      returns (n': nat, currentRow': int)
      requires n < |separated| && p == separated[n] && distinct == NoDuplicates(separated)
      requires bound == if numRows > base then numRows else base
      requires Phase2Inv(rows0, base, separated, n, currentRow, sat0, distinct)
      modifies this`planeRows, this`rowDescriptors, rowDescriptors, p`satisfaction, p`separatedFromGroup
      ensures Phase2Inv(rows0, base, separated, n', currentRow', sat0, distinct)
      ensures || (n' == n + 1 && currentRow' == currentRow)
              || (n' == n && currentRow' == currentRow + 1 && Slack(currentRow', bound) < old(Slack(currentRow, bound)))
      ensures old(rowDescriptors) <= rowDescriptors
                && forall i :: |old(rowDescriptors)| <= i < |rowDescriptors| ==> fresh(rowDescriptors[i])
    {
      var suitableRow := FindSuitableRow(currentRow, 1, if p.wantsWindow then 1 else 0);
      if suitableRow == NO_SUITABLE_ROW {
        // a fresh row at the bound would have suited once the bound reaches the plane's rows
        assert Fresh(currentRow) && currentRow >= numRows ==>
                 Suits(currentRow, currentRow, 1, if p.wantsWindow then 1 else 0);
        n', currentRow' := OpenRowInPhase2(rows0, base, separated, n, currentRow, sat0, distinct);
      } else {
        n', currentRow' := SeatInPhase2(suitableRow, p, rows0, base, separated, n, currentRow, sat0, distinct);
      }
    }

    /** The phase 2 loop, over the separated passengers in order, with its invariant made explicit. */
    method RunPhase2(separated: seq<Passenger>, ghost rows0: seq<seq<Passenger>>, ghost base: nat,
                     ghost sat0: map<Passenger, int>, ghost distinct: bool)
      requires distinct == NoDuplicates(separated)
      requires Phase2Inv(rows0, base, separated, 0, 0, sat0, distinct)
      modifies this`planeRows, this`rowDescriptors, rowDescriptors, separated`satisfaction, separated`separatedFromGroup
      ensures Phase2Inv(rows0, base, separated, |separated|, |rowDescriptors| - base, sat0, distinct)
    {
      ghost var bound := if numRows > base then numRows else base;
      var n := 0;
      var currentRow := 0;
      while n < |separated|
        invariant 0 <= n <= |separated|
        invariant Phase2Inv(rows0, base, separated, n, currentRow, sat0, distinct)
        invariant |old(rowDescriptors)| <= |rowDescriptors|
        invariant forall i :: 0 <= i < |rowDescriptors| ==>
                    if i < |old(rowDescriptors)| then rowDescriptors[i] == old(rowDescriptors)[i] else fresh(rowDescriptors[i])
        decreases |separated| - n, Slack(currentRow, bound)
      {
        ghost var descriptors := rowDescriptors;
        n, currentRow := Phase2Turn(separated[n], currentRow, rows0, base, separated, n, sat0, distinct, bound);
        forall i | 0 <= i < |rowDescriptors|
          ensures if i < |old(rowDescriptors)| then rowDescriptors[i] == old(rowDescriptors)[i] else fresh(rowDescriptors[i])
        {
          if i < |descriptors| {
            assert rowDescriptors[i] == descriptors[i];
          }
        }
      }
      assert n == |separated|;
    }

    /**
     * Phase 2 of `allocateSeats`: each passenger of `separated`, in order, is
     * flagged as separated and seated alone in the first suitable row up to the
     * scan bound, which starts again from row 0 and grows by one with every row
     * opened at the end. With no passenger twice, each gains at most half
     * satisfaction when seeking a window and nothing otherwise.
     */
    method SeatSeparatedPassengers(separated: seq<Passenger>)
      requires Valid() && |planeRows| >= 1
      modifies this`planeRows, this`rowDescriptors, rowDescriptors, separated`satisfaction, separated`separatedFromGroup
      ensures Valid()
      ensures RowsExtend(old(planeRows), planeRows)
      ensures multiset(Flatten(planeRows)) == multiset(Flatten(old(planeRows))) + multiset(separated)
      ensures forall k :: 0 <= k < |separated| ==> separated[k].separatedFromGroup
      ensures NoDuplicates(separated) ==>
                forall k :: 0 <= k < |separated| ==>
                  old(separated[k].satisfaction) <= separated[k].satisfaction
                  <= old(separated[k].satisfaction)
                     + (if separated[k].wantsWindow then HALF_SATISFACTION else NO_SATISFACTION)
    {
      ghost var rows0 := planeRows;
      ghost var base := |rowDescriptors|;
      ghost var sat0 := map p | p in separated :: p.satisfaction;
      ghost var distinct := NoDuplicates(separated);
      Phase2Start(rows0, separated);
      RunPhase2(separated, rows0, base, sat0, distinct);
      Phase2End(rows0, planeRows, separated, |separated|);
    }

    /**
     * The clean-up of `getSeatConfiguration`: rows beyond the plane's
     * `numRows` are dropped from the end, then every row kept is arranged for
     * the plane's window seats. Dropping from an empty list is the list
     * access that fails; that happens exactly when `numRows` is negative.
     */
    method GetSeatConfiguration() returns (r: Result<seq<seq<Passenger>>, AllocationError>)
      modifies this`planeRows
      ensures r.Failure? <==> numRows < 0
      ensures r.Failure? ==> planeRows == []
      ensures r.Success? ==> r.value == planeRows
      ensures r.Success? ==> |planeRows| == if |old(planeRows)| <= numRows then |old(planeRows)| else numRows
      ensures r.Success? ==> forall i :: 0 <= i < |planeRows| ==>
                Arranged(old(planeRows)[i], planeRows[i], numWindowsInPlane)
    {
      while |planeRows| > numRows
        invariant |planeRows| <= |old(planeRows)| && planeRows == old(planeRows)[..|planeRows|]
        invariant |planeRows| == |old(planeRows)| || |planeRows| >= numRows
      {
        if |planeRows| == 0 {
          return Failure(IndexOutOfBounds);
        }
        planeRows := planeRows[..|planeRows| - 1];
      }
      ghost var kept := planeRows;
      var i := 0;
      while i < |planeRows|
        invariant 0 <= i <= |planeRows| == |kept|
        invariant forall j :: 0 <= j < i ==> Arranged(kept[j], planeRows[j], numWindowsInPlane)
        invariant forall j :: i <= j < |planeRows| ==> planeRows[j] == kept[j]
      {
        var arranged := ArrangeRow(planeRows[i], numWindowsInPlane);
        planeRows := planeRows[i := arranged];
        i := i + 1;
      }
      r := Success(planeRows);
    }

    /**
     * The score of `getSatisfaction`: the row totals of the rows the loop
     * reads, as `RowsScored` counts them, scored over the passenger count.
     * Reading a row that was never opened is the list access that fails.
     */
    method GetSatisfaction() returns (r: Result<Satisfaction, AllocationError>)
      requires numSeatsInRow >= 1
      ensures var k := RowsScored(passengerCount, numSeatsInRow, numRows);
              && (r.Success? <==> k <= |rowDescriptors|)
              && (r.Success? ==> r.value == Score(Sum(Totals(rowDescriptors)[..k]), passengerCount))
    {
      ghost var k := RowsScored(passengerCount, numSeatsInRow, numRows);
      RowsScoredStops(passengerCount, numSeatsInRow, numRows);
      ghost var totals := Totals(rowDescriptors);
      var satisfaction := 0;
      var totalPassengers := passengerCount;
      var currentRow := 0;
      while currentRow < numRows
        invariant 0 <= currentRow <= k && currentRow <= |rowDescriptors|
        invariant totalPassengers == passengerCount - numSeatsInRow * currentRow
        invariant currentRow == 0 || totalPassengers > 0
        invariant satisfaction == Sum(totals[..currentRow])
      {
        RowsScoredNext(passengerCount, numSeatsInRow, numRows, currentRow);
        if currentRow >= |rowDescriptors| {
          return Failure(IndexOutOfBounds);
        }
        var rowSatisfaction := rowDescriptors[currentRow].GetRowSatisfaction();
        SumStep(totals, currentRow);
        MulStep(numSeatsInRow, currentRow);
        satisfaction := satisfaction + rowSatisfaction;
        totalPassengers := totalPassengers - numSeatsInRow;
        currentRow := currentRow + 1;
        if totalPassengers <= 0 {
          break;
        }
      }
      r := Success(Score(satisfaction, passengerCount));
    }

    /** The totals of the first `k` rows are at most full satisfaction for each of their occupants. */
    lemma {:induction false} TotalsBound(k: nat)
      requires Valid() && k <= |rowDescriptors|
      ensures 0 <= Sum(Totals(rowDescriptors)[..k]) <= FULL_SATISFACTION * |Flatten(planeRows[..k])|
    {
      if k > 0 {
        TotalsBound(k - 1);
        SumStep(Totals(rowDescriptors), k - 1);
        FlattenTake(planeRows, k - 1);
      }
    }

    /** The totals of the first `k` rows are at most full satisfaction for everybody seated. */
    lemma {:induction false} TotalsBoundAll(k: nat)
      requires Valid() && k <= |rowDescriptors|
      ensures 0 <= Sum(Totals(rowDescriptors)[..k]) <= FULL_SATISFACTION * |Flatten(planeRows)|
    {
      TotalsBound(k);
      FlattenSplit(planeRows, k);
      MulLess(FULL_SATISFACTION, |Flatten(planeRows[..k])|, |Flatten(planeRows)|);
    }

    /**
     * The seating part of `allocateSeats`, on an allocator fresh from its
     * constructor: the groups are sorted, then seated by `SeatSorted`.
     * Everybody given ends up in exactly one seat.
     */
    method SeatPassengers()
      requires planeRows == [] && rowDescriptors == [] && numSeatsInRow >= 1
      modifies this`passengerGroups, this`planeRows, this`rowDescriptors
      modifies Members(passengerGroups)`satisfaction, Members(passengerGroups)`separatedFromGroup
      ensures Valid() && |planeRows| >= 1
      ensures multiset(Flatten(planeRows)) == multiset(Flatten(old(passengerGroups)))
      ensures forall g, p :: g in old(passengerGroups) && p in g && |g| > numSeatsInRow ==> p.separatedFromGroup
      ensures NoDuplicates(Flatten(old(passengerGroups))) ==>
                forall g, p :: g in old(passengerGroups) && p in g ==>
                  && old(p.satisfaction) <= p.satisfaction
                     <= old(p.satisfaction) + MaxGain(p.wantsWindow, |g| > numSeatsInRow)
                  && (|g| <= numSeatsInRow ==> p.separatedFromGroup == old(p.separatedFromGroup))
    {
      ghost var G0 := passengerGroups;
      var sorted := SortGroups(passengerGroups);
      MembersPermutation(sorted, G0);
      passengerGroups := sorted;
      SeatSortedGroups(G0);
    }

    /**
     * `SeatSorted`, with what it states about the sorted groups restated
     * over `G0`, the same groups in their order before sorting.
     */
    method SeatSortedGroups(ghost G0: seq<seq<Passenger>>)
      requires planeRows == [] && rowDescriptors == [] && numSeatsInRow >= 1
      requires multiset(passengerGroups) == multiset(G0)
      modifies this`planeRows, this`rowDescriptors
      modifies Members(passengerGroups)`satisfaction, Members(passengerGroups)`separatedFromGroup
      ensures Valid() && |planeRows| >= 1
      ensures multiset(Flatten(planeRows)) == multiset(Flatten(G0))
      ensures forall g, p :: g in G0 && p in g && |g| > numSeatsInRow ==> p.separatedFromGroup
      ensures NoDuplicates(Flatten(G0)) ==>
                forall g, p :: g in G0 && p in g ==>
                  && old(p.satisfaction) <= p.satisfaction
                     <= old(p.satisfaction) + MaxGain(p.wantsWindow, |g| > numSeatsInRow)
                  && (|g| <= numSeatsInRow ==> p.separatedFromGroup == old(p.separatedFromGroup))
    {
      ghost var sorted := passengerGroups;
      ghost var sat0 := Satisfactions(Members(sorted));
      FlattenPermutation(sorted, G0);
      SeatSorted();
      GroupsPermutation(G0, sorted);
      if NoDuplicates(Flatten(G0)) {
        NoDuplicatesPermutation(Flatten(G0), Flatten(sorted));
        GainsPermutation(G0, sorted, numSeatsInRow, sat0, Satisfactions(Members(sorted)));
        MembersPermutation(sorted, G0);
        forall g, p | g in G0 && p in g
          ensures old(p.satisfaction) <= p.satisfaction <= old(p.satisfaction) + MaxGain(p.wantsWindow, |g| > numSeatsInRow)
        {
          assert p in Members(G0);
        }
      }
    }

    /**
     * The first row is opened, phase 1 seats the groups that fit a row and
     * phase 2 the members of the others, window seekers first. Members of
     * groups larger than a row end flagged as separated; with nobody twice,
     * each passenger gains at most what `MaxGain` allows, and members of the
     * other groups keep their flag.
     */
    method SeatSorted()
      requires planeRows == [] && rowDescriptors == [] && numSeatsInRow >= 1
      modifies this`planeRows, this`rowDescriptors
      modifies Members(passengerGroups)`satisfaction, Members(passengerGroups)`separatedFromGroup
      ensures Valid() && |planeRows| >= 1
      ensures multiset(Flatten(planeRows)) == multiset(Flatten(passengerGroups))
      ensures forall i, j :: 0 <= i < |passengerGroups| && 0 <= j < |passengerGroups[i]| ==>
                |passengerGroups[i]| > numSeatsInRow ==> passengerGroups[i][j].separatedFromGroup
      ensures NoDuplicates(Flatten(passengerGroups)) ==>
                SeatingGains(passengerGroups, numSeatsInRow,
                             old(Satisfactions(Members(passengerGroups))), Satisfactions(Members(passengerGroups)))
      ensures NoDuplicates(Flatten(passengerGroups)) ==>
                forall i, j :: 0 <= i < |passengerGroups| && 0 <= j < |passengerGroups[i]| ==>
                  |passengerGroups[i]| <= numSeatsInRow ==>
                    passengerGroups[i][j].separatedFromGroup == old(passengerGroups[i][j].separatedFromGroup)
    {
      ghost var G := passengerGroups;
      ghost var sat0 := Satisfactions(Members(G));
      var overflow := OpenAndSeatGroups(sat0);
      MembersIndex(G);
      SeatOverflow(overflow, G, sat0);
      assert passengerGroups == G;
    }

    /**
     * The start of `allocateSeats`: the first row is opened, then phase 1
     * runs. Every descriptor is new, and no passenger's flag has changed.
     */
    method OpenAndSeatGroups(ghost sat0: map<Passenger, int>) returns (overflow: seq<Passenger>)
      requires planeRows == [] && rowDescriptors == [] && numSeatsInRow >= 1
      requires forall p :: p in Members(passengerGroups) ==> p in sat0 && sat0[p] == p.satisfaction
      modifies this`planeRows, this`rowDescriptors, Members(passengerGroups)`satisfaction
      ensures Valid() && |planeRows| >= 1
      ensures forall i :: 0 <= i < |rowDescriptors| ==> fresh(rowDescriptors[i])
      ensures multiset(Flatten(planeRows)) + multiset(overflow) == multiset(Flatten(passengerGroups))
      ensures overflow == Flatten(Oversized(passengerGroups, numSeatsInRow))
      ensures NoDuplicates(Flatten(passengerGroups)) ==>
                Phase1Gains(passengerGroups, numSeatsInRow, sat0, Satisfactions(Members(passengerGroups)))
      ensures forall p: Passenger :: p in Members(passengerGroups) ==> p.separatedFromGroup == old(p.separatedFromGroup)
    {
      OpenRow();
      ghost var descriptors := rowDescriptors;
      ghost var placements;
      overflow, placements := SeatGroups(sat0);
      forall i | 0 <= i < |rowDescriptors|
        ensures fresh(rowDescriptors[i])
      {
        if i < |descriptors| {
          assert rowDescriptors[i] == descriptors[i];
        }
      }
    }

    /**
     * The end of phase 1 and phase 2: the overflow list is put window seekers
     * first and seated by `SeatSeparatedPassengers`. Of the passengers of
     * `S`, only those of the overflow list change.
     */
    method SeatWindowFirst(overflow: seq<Passenger>, ghost S: set<Passenger>) returns (ghost separated: seq<Passenger>)
      requires Valid() && |planeRows| >= 1
      requires forall x :: x in overflow ==> x in S
      modifies this`planeRows, this`rowDescriptors, rowDescriptors, S`satisfaction, S`separatedFromGroup
      ensures Valid() && |planeRows| >= 1
      ensures multiset(separated) == multiset(overflow)
      ensures multiset(Flatten(planeRows)) == multiset(Flatten(old(planeRows))) + multiset(overflow)
      ensures forall k :: 0 <= k < |separated| ==> separated[k] in S && separated[k].separatedFromGroup
      ensures NoDuplicates(overflow) ==> Phase2Gains(separated, old(Satisfactions(S)), Satisfactions(S))
      ensures forall p :: p in S && p !in overflow ==>
                p.satisfaction == old(p.satisfaction) && p.separatedFromGroup == old(p.separatedFromGroup)
    {
      var sorted := WindowFirstOrder(overflow);
      forall x | x in sorted
        ensures x in S
      {
        assert x in multiset(overflow);
      }
      ghost var sat1 := Satisfactions(S);
      SeatSeparatedPassengers(sorted);
      separated := sorted;
      forall p | p in S && p !in overflow
        ensures p !in separated
      {
        assert p !in multiset(overflow);
      }
      if NoDuplicates(overflow) {
        NoDuplicatesPermutation(overflow, separated);
        forall k | 0 <= k < |separated|
          ensures separated[k] in sat1 && separated[k] in Satisfactions(S)
          ensures sat1[separated[k]] <= Satisfactions(S)[separated[k]] <= sat1[separated[k]] + MaxGain(separated[k].wantsWindow, true)
        {
        }
      }
    }

    /**
     * Phase 2 on the overflow list of phase 1, which holds exactly the
     * members of the groups larger than a row: with nobody twice, each
     * passenger is awarded in one phase only.
     */
    method SeatOverflow(overflow: seq<Passenger>, ghost G: seq<seq<Passenger>>, ghost sat0: map<Passenger, int>)
      requires Valid() && |planeRows| >= 1
      requires multiset(Flatten(planeRows)) + multiset(overflow) == multiset(Flatten(G))
      requires overflow == Flatten(Oversized(G, numSeatsInRow))
      requires NoDuplicates(Flatten(G)) ==> Phase1Gains(G, numSeatsInRow, sat0, Satisfactions(Members(G)))
      modifies this`planeRows, this`rowDescriptors, rowDescriptors
      modifies Members(G)`satisfaction, Members(G)`separatedFromGroup
      ensures Valid() && |planeRows| >= 1
      ensures multiset(Flatten(planeRows)) == multiset(Flatten(G))
      ensures forall i, j :: 0 <= i < |G| && 0 <= j < |G[i]| && |G[i]| > numSeatsInRow ==> G[i][j].separatedFromGroup
      ensures NoDuplicates(Flatten(G)) ==> SeatingGains(G, numSeatsInRow, sat0, Satisfactions(Members(G)))
      ensures NoDuplicates(Flatten(G)) ==>
                forall i, j :: 0 <= i < |G| && 0 <= j < |G[i]| && |G[i]| <= numSeatsInRow ==>
                  G[i][j].separatedFromGroup == old(G[i][j].separatedFromGroup)
    {
      MultisetPart(multiset(Flatten(planeRows)), multiset(overflow), multiset(Flatten(G)));
      forall x | x in overflow
        ensures x in Members(G)
      {
        FlattenMembers(G, x);
      }
      ghost var sat1 := Satisfactions(Members(G));
      ghost var separated := SeatWindowFirst(overflow, Members(G));
      ghost var sat2 := Satisfactions(Members(G));
      OverflowMembers(G, numSeatsInRow);
      forall i, j | 0 <= i < |G| && 0 <= j < |G[i]| && |G[i]| > numSeatsInRow
        ensures G[i][j].separatedFromGroup
      {
        assert G[i][j] in multiset(separated);
      }
      if NoDuplicates(Flatten(G)) {
        NoDuplicatesPart(Flatten(G), overflow);
        forall p | p in Members(G) && p !in separated
          ensures p in sat2 && sat2[p] == sat1[p]
        {
          assert p !in multiset(separated);
        }
        ComposeGains(G, numSeatsInRow, separated, sat0, sat1, sat2);
      }
    }

    /**
     * The last line of `allocateSeats`: the clean-up, then the score. It
     * fails for a negative `numRows`, or when the rows the score reads were
     * never all opened; otherwise the rows kept are the first rows, each
     * arranged, and the score is over totals of at most full satisfaction
     * for each passenger seated.
     */
    method Conclude() returns (r: Result<SittingArrangement, AllocationError>)
      requires Valid()
      modifies this`planeRows
      ensures r.Failure? <==> numRows < 0 || RowsScored(passengerCount, numSeatsInRow, numRows) > |old(planeRows)|
      ensures r.Success? ==>
                var rows := r.value.seatConfiguration;
                && |rows| == (if |old(planeRows)| <= numRows then |old(planeRows)| else numRows)
                && forall i :: 0 <= i < |rows| ==> Arranged(old(planeRows)[i], rows[i], numWindowsInPlane)
      ensures r.Success? ==>
                var k := RowsScored(passengerCount, numSeatsInRow, numRows);
                && k <= |rowDescriptors|
                && var h := Sum(Totals(rowDescriptors)[..k]);
                   && 0 <= h <= FULL_SATISFACTION * |Flatten(old(planeRows))|
                   && r.value.satisfaction == Score(h, passengerCount)
    {
      ghost var k := RowsScored(passengerCount, numSeatsInRow, numRows);
      ghost var totals := Totals(rowDescriptors);
      ghost var bound := FULL_SATISFACTION * |Flatten(planeRows)|;
      ghost var h := if k <= |totals| then Sum(totals[..k]) else 0;
      if k <= |rowDescriptors| {
        TotalsBoundAll(k);
      }
      assert 0 <= h <= bound;
      var configuration := GetSeatConfiguration();
      if configuration.Failure? {
        r := Failure(configuration.error);
        return;
      }
      assert Totals(rowDescriptors) == totals;
      var satisfaction := GetSatisfaction();
      if satisfaction.Failure? {
        r := Failure(satisfaction.error);
        return;
      }
      assert Sum(Totals(rowDescriptors)[..k]) == h;
      r := Success(SittingArrangement(configuration.value, satisfaction.value));
    }

    /**
     * `allocateSeats` on an allocator fresh from its constructor: seating,
     * then the clean-up and the score. `seated` is the rows before the
     * clean-up. Everybody is seated and no row is over its width; the
     * clean-up keeps at most `numRows` rows and arranges each; the score is
     * taken over the rows `RowsScored` counts, at most full satisfaction for
     * everybody. It fails only for a negative `numRows` or when those rows
     * were never all opened, which cannot happen while the passenger count is
     * at most the passengers given. With a positive count at least the
     * passengers given, the score is a percentage in `[0, 100]`.
     */
    method AllocateSeats() returns (r: Result<SittingArrangement, AllocationError>, ghost seated: seq<seq<Passenger>>)
      requires planeRows == [] && rowDescriptors == [] && numSeatsInRow >= 1
      modifies this`passengerGroups, this`planeRows, this`rowDescriptors
      modifies Members(passengerGroups)`satisfaction, Members(passengerGroups)`separatedFromGroup
      ensures multiset(Flatten(seated)) == multiset(Flatten(old(passengerGroups)))
      ensures |seated| >= 1 && forall i :: 0 <= i < |seated| ==> |seated[i]| <= numSeatsInRow
      ensures r.Failure? <==> numRows < 0 || RowsScored(passengerCount, numSeatsInRow, numRows) > |seated|
      ensures numRows >= 0 && passengerCount <= |Flatten(old(passengerGroups))| ==> r.Success?
      ensures r.Success? ==>
                var rows := r.value.seatConfiguration;
                && |rows| == (if |seated| <= numRows then |seated| else numRows)
                && forall i :: 0 <= i < |rows| ==> Arranged(seated[i], rows[i], numWindowsInPlane)
      ensures r.Success? ==>
                var k := RowsScored(passengerCount, numSeatsInRow, numRows);
                && k <= |rowDescriptors|
                && var h := Sum(Totals(rowDescriptors)[..k]);
                   && 0 <= h <= FULL_SATISFACTION * |Flatten(old(passengerGroups))|
                   && r.value.satisfaction == Score(h, passengerCount)
      ensures r.Success? && 0 < passengerCount && |Flatten(old(passengerGroups))| <= passengerCount ==>
                r.value.satisfaction.Percentage? && 0.0 <= r.value.satisfaction.value <= 100.0
      ensures forall g, p :: g in old(passengerGroups) && p in g && |g| > numSeatsInRow ==> p.separatedFromGroup
      ensures NoDuplicates(Flatten(old(passengerGroups))) ==>
                forall g, p :: g in old(passengerGroups) && p in g ==>
                  && old(p.satisfaction) <= p.satisfaction
                     <= old(p.satisfaction) + MaxGain(p.wantsWindow, |g| > numSeatsInRow)
                  && (|g| <= numSeatsInRow ==> p.separatedFromGroup == old(p.separatedFromGroup))
    {
      ghost var G0 := passengerGroups;
      SeatPassengers();
      seated := planeRows;
      FlattenBound(seated, numSeatsInRow);
      assert |Flatten(seated)| == |Flatten(G0)| by {
        assert |multiset(Flatten(seated))| == |multiset(Flatten(G0))|;
      }
      if numRows >= 0 && passengerCount <= |Flatten(G0)| {
        RowsScoredInRange(passengerCount, numSeatsInRow, numRows, |seated|);
      }
      r := Conclude();
      if r.Success? && 0 < passengerCount && |Flatten(G0)| <= passengerCount {
        ScoreInRange(Sum(Totals(rowDescriptors)[..RowsScored(passengerCount, numSeatsInRow, numRows)]), passengerCount);
      }
    }
  }

  /**
   * What phase 1 has done after taking the first `n` groups: every member of
   * those groups is either in a row or in the overflow list, the overflow list
   * holds exactly the oversized groups, and each group sits where its placement
   * says.
   */
  ghost predicate Phase1(G: seq<seq<Passenger>>, n: nat, rows: seq<seq<Passenger>>, overflow: seq<Passenger>,
                         placements: seq<Placement>, seatsInRow: int)
  {
    && n <= |G|
    && multiset(Flatten(rows)) + multiset(overflow) == multiset(Flatten(G[..n]))
    && overflow == Flatten(Oversized(G[..n], seatsInRow))
    && Placed(G[..n], placements, rows, seatsInRow)
  }

  lemma {:induction false} Phase1Start(G: seq<seq<Passenger>>, rows: seq<seq<Passenger>>, seatsInRow: int)
    requires rows == [[]]
    ensures Phase1(G, 0, rows, [], [], seatsInRow)
  {
    assert G[..0] == [];
    assert rows[..0] == [];
  }

  lemma {:induction false} Phase1End(G: seq<seq<Passenger>>, n: nat, rows: seq<seq<Passenger>>, overflow: seq<Passenger>,
                  placements: seq<Placement>, seatsInRow: int)
    requires Phase1(G, n, rows, overflow, placements, seatsInRow) && G[n..] == []
    ensures multiset(Flatten(rows)) + multiset(overflow) == multiset(Flatten(G))
    ensures overflow == Flatten(Oversized(G, seatsInRow))
    ensures Placed(G, placements, rows, seatsInRow)
  {
    assert G[..n] == G;
  }

  lemma {:induction false} Phase1Open(G: seq<seq<Passenger>>, n: nat, rows: seq<seq<Passenger>>, overflow: seq<Passenger>,
                   placements: seq<Placement>, seatsInRow: int)
    requires Phase1(G, n, rows, overflow, placements, seatsInRow)
    ensures Phase1(G, n, rows + [[]], overflow, placements, seatsInRow)
  {
    assert (rows + [[]])[..|rows|] == rows;
    PlacedExtend(G[..n], placements, rows, rows + [[]], seatsInRow);
  }

  lemma {:induction false} Phase1Overflow(G: seq<seq<Passenger>>, n: nat, rows: seq<seq<Passenger>>, overflow: seq<Passenger>,
                       placements: seq<Placement>, seatsInRow: int)
    requires Phase1(G, n, rows, overflow, placements, seatsInRow) && n < |G| && |G[n]| > seatsInRow
    ensures Phase1(G, n + 1, rows, overflow + G[n], placements + [Overflowed], seatsInRow)
  {
    FlattenTake(G, n);
    OversizedStep(G, n, seatsInRow);
    PlacedStep(G, n, placements, Overflowed, rows, seatsInRow);
  }

  lemma {:induction false} Phase1Seat(G: seq<seq<Passenger>>, n: nat, rows: seq<seq<Passenger>>, overflow: seq<Passenger>,
                   placements: seq<Placement>, seatsInRow: int, r: nat)
    requires Phase1(G, n, rows, overflow, placements, seatsInRow) && n < |G| && |G[n]| <= seatsInRow
    requires r < |rows|
    ensures Phase1(G, n + 1, rows[r := rows[r] + G[n]], overflow,
                   placements + [SeatedAt(r, |rows[r]|)], seatsInRow)
  {
    SeatedCount(G, n, rows, overflow, r);
    OversizedStep(G, n, seatsInRow);
    SeatedPlaced(G, n, rows, placements, seatsInRow, r);
  }

  /** Seating group `G[n]` in row `r` keeps every member taken so far in a row or in the overflow list. */
  lemma {:induction false} SeatedCount(G: seq<seq<Passenger>>, n: nat, rows: seq<seq<Passenger>>, overflow: seq<Passenger>, r: nat)
    requires n < |G| && r < |rows|
    requires multiset(Flatten(rows)) + multiset(overflow) == multiset(Flatten(G[..n]))
    ensures multiset(Flatten(rows[r := rows[r] + G[n]])) + multiset(overflow) == multiset(Flatten(G[..n + 1]))
  {
    FlattenTake(G, n);
    FlattenAppendAt(rows, r, G[n]);
  }

  /** Seating group `G[n]` at the end of row `r` keeps the earlier placements and places `G[n]` there. */
  lemma {:induction false} SeatedPlaced(G: seq<seq<Passenger>>, n: nat, rows: seq<seq<Passenger>>, placements: seq<Placement>,
                     seatsInRow: int, r: nat)
    requires n < |G| && |G[n]| <= seatsInRow && r < |rows|
    requires Placed(G[..n], placements, rows, seatsInRow)
    ensures Placed(G[..n + 1], placements + [SeatedAt(r, |rows[r]|)], rows[r := rows[r] + G[n]], seatsInRow)
  {
    var rows2 := rows[r := rows[r] + G[n]];
    assert RowsExtend(rows, rows2);
    PlacedExtend(G[..n], placements, rows, rows2, seatsInRow);
    assert rows2[r][|rows[r]|..|rows[r]| + |G[n]|] == G[n];
    PlacedStep(G, n, placements, SeatedAt(r, |rows[r]|), rows2, seatsInRow);
  }

  lemma {:induction false} OversizedStep(G: seq<seq<Passenger>>, n: nat, seatsInRow: int)
    requires n < |G|
    ensures Flatten(Oversized(G[..n + 1], seatsInRow))
         == Flatten(Oversized(G[..n], seatsInRow)) + (if |G[n]| > seatsInRow then G[n] else [])
  {
    assert G[..n + 1][..n] == G[..n];
    if |G[n]| > seatsInRow {
      FlattenSnoc(Oversized(G[..n], seatsInRow), G[n]);
    } else {
      assert Oversized(G[..n], seatsInRow) + [] == Oversized(G[..n], seatsInRow);
      assert Flatten(Oversized(G[..n], seatsInRow)) + [] == Flatten(Oversized(G[..n], seatsInRow));
    }
  }

  lemma {:induction false} PlacedStep(G: seq<seq<Passenger>>, n: nat, placements: seq<Placement>, p: Placement,
                   rows: seq<seq<Passenger>>, seatsInRow: int)
    requires n < |G| && Placed(G[..n], placements, rows, seatsInRow) && PlacedAt(G[n], p, rows, seatsInRow)
    ensures Placed(G[..n + 1], placements + [p], rows, seatsInRow)
  {
    var ps := placements + [p];
    forall i | 0 <= i < n + 1 ensures PlacedAt(G[..n + 1][i], ps[i], rows, seatsInRow) {
      if i < n {
        assert G[..n + 1][i] == G[..n][i] && ps[i] == placements[i];
      }
    }
  }

  /**
   * Who is where when phase 1 takes group `n`: the members taken so far and
   * still to come split around it, and with no passenger twice the group is
   * duplicate-free and shares nobody with the other groups.
   */
  lemma {:induction false} GroupMembers(G: seq<seq<Passenger>>, n: nat)
    requires n < |G|
    ensures Members(G[..n + 1]) == Members(G[..n]) + (set p | p in G[n])
    ensures Members(G[n..]) == (set p | p in G[n]) + Members(G[n + 1..])
    ensures NoDuplicates(Flatten(G)) ==>
              && NoDuplicates(G[n])
              && forall p :: p in G[n] ==> p !in Members(G[..n]) && p !in Members(G[n + 1..])
  {
    MembersTake(G, n);
    MembersDrop(G, n);
    if NoDuplicates(Flatten(G)) {
      FlattenDrop(G, n);
      FlattenSplit(G, n);
      MembersFlatten(G[..n]);
      MembersFlatten(G[n + 1..]);
      assert Flatten(G) == Flatten(G[..n]) + G[n] + Flatten(G[n + 1..]);
      NoDuplicatesParts(Flatten(G[..n]), G[n], Flatten(G[n + 1..]));
    }
  }

  /**
   * With no passenger twice, the group at index `n` is duplicate-free and
   * shares nobody with any other group.
   */
  lemma {:induction false} GroupApart(G: seq<seq<Passenger>>, n: nat)
    requires n < |G|
    ensures NoDuplicates(Flatten(G)) ==>
              && NoDuplicates(G[n])
              && forall i, j, k :: 0 <= i < |G| && i != n && 0 <= j < |G[i]| && 0 <= k < |G[n]| ==>
                   G[i][j] != G[n][k]
  {
    if NoDuplicates(Flatten(G)) {
      FlattenDrop(G, n);
      FlattenSplit(G, n);
      assert Flatten(G) == Flatten(G[..n]) + G[n] + Flatten(G[n + 1..]);
      NoDuplicatesParts(Flatten(G[..n]), G[n], Flatten(G[n + 1..]));
      forall i, j, k | 0 <= i < |G| && i != n && 0 <= j < |G[i]| && 0 <= k < |G[n]|
        ensures G[i][j] != G[n][k]
      {
        assert G[n][k] in G[n];
        if i < n {
          FlattenMember(G[..n], i);
          assert G[..n][i] == G[i];
          assert G[i][j] in G[..n][i];
        } else {
          FlattenMember(G[n + 1..], i - n - 1);
          assert G[n + 1..][i - n - 1] == G[i];
          assert G[i][j] in G[n + 1..][i - n - 1];
        }
      }
    }
  }

  /** Every member of every group is in `Members`. */
  lemma {:induction false} MembersIndex(G: seq<seq<Passenger>>)
    ensures forall i, j :: 0 <= i < |G| && 0 <= j < |G[i]| ==> G[i][j] in Members(G)
  {
  }

  /** Members of the first `n` groups have gained at most `most` over their satisfaction in `sat0`. */
  ghost predicate GainedAtMost(G: seq<seq<Passenger>>, n: nat, sat0: map<Passenger, int>, most: int)
    reads Members(G)
  {
    forall i, j :: 0 <= i < n && i < |G| && 0 <= j < |G[i]| ==>
      G[i][j] in sat0 && sat0[G[i][j]] <= G[i][j].satisfaction <= sat0[G[i][j]] + most
  }

  /** Members of the groups from `n` on, and of groups larger than a row, still have their satisfaction in `sat0`. */
  ghost predicate Untouched(G: seq<seq<Passenger>>, n: nat, seatsInRow: int, sat0: map<Passenger, int>)
    reads Members(G)
  {
    forall i, j :: 0 <= i < |G| && (i >= n || |G[i]| > seatsInRow) && 0 <= j < |G[i]| ==>
      G[i][j] in sat0 && G[i][j].satisfaction == sat0[G[i][j]]
  }

  /** Taking an oversized group seats nobody, so its members have gained nothing. */
  lemma {:induction false} UntouchedOverflow(G: seq<seq<Passenger>>, n: nat, seatsInRow: int, sat0: map<Passenger, int>, distinct: bool)
    requires n < |G| && |G[n]| > seatsInRow
    requires distinct ==> GainedAtMost(G, n, sat0, FULL_SATISFACTION) && Untouched(G, n, seatsInRow, sat0)
    ensures distinct ==> GainedAtMost(G, n + 1, sat0, FULL_SATISFACTION) && Untouched(G, n + 1, seatsInRow, sat0)
  {
  }

  /**
   * The most one run can award a passenger: full satisfaction in a group
   * that fits a row; once separated, half to a window seeker and nothing to
   * anyone else.
   */
  function MaxGain(wantsWindow: bool, separated: bool): nat {
    if !separated then FULL_SATISFACTION
    else if wantsWindow then HALF_SATISFACTION
    else NO_SATISFACTION
  }

  /** No award exceeds what `MaxGain` allows a passenger, separated or not. */
  lemma {:induction false} AwardWithinMaxGain(wantsWindow: bool, windowFree: bool, inGroup: bool, separated: bool)
    ensures Award(wantsWindow, windowFree, inGroup, separated) <= MaxGain(wantsWindow, separated)
  {
  }

  /**
   * Who reaches phase 2: every member of a group larger than a row, and, when
   * nobody occurs twice, no member of a group that fits one.
   */
  lemma {:induction false} OverflowMembers(G: seq<seq<Passenger>>, seatsInRow: int)
    ensures forall i, j :: 0 <= i < |G| && 0 <= j < |G[i]| && |G[i]| > seatsInRow ==>
              G[i][j] in Flatten(Oversized(G, seatsInRow))
    ensures NoDuplicates(Flatten(G)) ==>
              forall i, j :: 0 <= i < |G| && 0 <= j < |G[i]| && |G[i]| <= seatsInRow ==>
                G[i][j] !in Flatten(Oversized(G, seatsInRow))
  {
    var O := Oversized(G, seatsInRow);
    OversizedFilter(G, seatsInRow);
    MembersFlatten(O);
    forall x | x in Flatten(O)
      ensures exists i, j :: 0 <= i < |G| && 0 <= j < |G[i]| && |G[i]| > seatsInRow && G[i][j] == x
    {
      assert x in Members(O);
      var a, b :| 0 <= a < |O| && 0 <= b < |O[a]| && O[a][b] == x;
      assert O[a] in O;
      var i :| 0 <= i < |G| && G[i] == O[a];
      assert G[i][b] == x;
    }
    forall i, j | 0 <= i < |G| && 0 <= j < |G[i]| && |G[i]| > seatsInRow
      ensures G[i][j] in Flatten(O)
    {
      assert G[i] in G;
      var k :| 0 <= k < |O| && O[k] == G[i];
      FlattenMember(O, k);
      assert G[i][j] in O[k];
    }
    if NoDuplicates(Flatten(G)) {
      forall i, j | 0 <= i < |G| && 0 <= j < |G[i]| && |G[i]| <= seatsInRow
        ensures G[i][j] !in Flatten(O)
      {
        GroupApart(G, i);
        forall x | x in Flatten(O) ensures x != G[i][j] {
          var i', j' :| 0 <= i' < |G| && 0 <= j' < |G[i']| && |G[i']| > seatsInRow && G[i'][j'] == x;
          assert i' != i;
        }
      }
    }
  }

  /** Part of a duplicate-free sequence, as a multiset, is duplicate-free. */
  lemma {:induction false} NoDuplicatesPart<T>(s: seq<T>, t: seq<T>)
    requires NoDuplicates(s) && multiset(t) <= multiset(s)
    ensures NoDuplicates(t)
  {
    forall k | 0 <= k < |t| ensures multiset(t)[t[k]] == 1 {
      assert t[k] in multiset(s);
      var i :| 0 <= i < |s| && s[i] == t[k];
    }
  }

  /** The satisfaction of each passenger of `S`, as it stands. */
  ghost function Satisfactions(S: set<Passenger>): map<Passenger, int>
    reads S
  {
    map p | p in S :: p.satisfaction
  }

  /**
   * Phase 1 has awarded members of groups that fit a row at most full
   * satisfaction over `sat0`, and members of larger groups nothing.
   */
  ghost predicate Phase1Gains(G: seq<seq<Passenger>>, seatsInRow: int, sat0: map<Passenger, int>, sat1: map<Passenger, int>) {
    forall i, j :: 0 <= i < |G| && 0 <= j < |G[i]| ==>
      && G[i][j] in sat0 && G[i][j] in sat1
      && sat0[G[i][j]] <= sat1[G[i][j]] <= sat0[G[i][j]] + FULL_SATISFACTION
      && (|G[i]| > seatsInRow ==> sat1[G[i][j]] == sat0[G[i][j]])
  }

  /** Phase 2 has awarded each separated passenger at most what `MaxGain` allows the separated. */
  ghost predicate Phase2Gains(separated: seq<Passenger>, sat1: map<Passenger, int>, sat2: map<Passenger, int>) {
    forall k :: 0 <= k < |separated| ==>
      && separated[k] in sat1 && separated[k] in sat2
      && sat1[separated[k]] <= sat2[separated[k]] <= sat1[separated[k]] + MaxGain(separated[k].wantsWindow, true)
  }

  /** Over the whole run, every member of every group has gained at most what `MaxGain` allows. */
  ghost predicate SeatingGains(G: seq<seq<Passenger>>, seatsInRow: int, sat0: map<Passenger, int>, sat2: map<Passenger, int>) {
    forall i, j :: 0 <= i < |G| && 0 <= j < |G[i]| ==>
      && G[i][j] in sat0 && G[i][j] in sat2
      && sat0[G[i][j]] <= sat2[G[i][j]] <= sat0[G[i][j]] + MaxGain(G[i][j].wantsWindow, |G[i]| > seatsInRow)
  }

  /**
   * The two phases together: with nobody twice, phase 2 seats exactly the
   * members of the groups larger than a row, so each passenger is awarded in
   * one phase only.
   */
  lemma {:induction false} ComposeGains(G: seq<seq<Passenger>>, seatsInRow: int, separated: seq<Passenger>,
                                        sat0: map<Passenger, int>, sat1: map<Passenger, int>, sat2: map<Passenger, int>)
    requires NoDuplicates(Flatten(G))
    requires multiset(separated) == multiset(Flatten(Oversized(G, seatsInRow)))
    requires Phase1Gains(G, seatsInRow, sat0, sat1) && Phase2Gains(separated, sat1, sat2)
    requires forall p :: p in Members(G) && p !in separated ==> p in sat2 && sat2[p] == sat1[p]
    ensures SeatingGains(G, seatsInRow, sat0, sat2)
  {
    OverflowMembers(G, seatsInRow);
    forall i, j | 0 <= i < |G| && 0 <= j < |G[i]|
      ensures G[i][j] in sat2
      ensures sat0[G[i][j]] <= sat2[G[i][j]] <= sat0[G[i][j]] + MaxGain(G[i][j].wantsWindow, |G[i]| > seatsInRow)
    {
      var p := G[i][j];
      if |G[i]| > seatsInRow {
        assert p in multiset(separated);
        var k :| 0 <= k < |separated| && separated[k] == p;
      } else {
        assert p !in multiset(separated);
      }
    }
  }

  /** Every group of `G`, and every member of one, is found at some index of a reordering `H`. */
  lemma {:induction false} GroupsPermutation(G: seq<seq<Passenger>>, H: seq<seq<Passenger>>)
    requires multiset(G) == multiset(H)
    ensures forall g, p :: g in G && p in g ==> exists i, j :: 0 <= i < |H| && 0 <= j < |H[i]| && H[i] == g && H[i][j] == p
  {
    forall g, p | g in G && p in g
      ensures exists i, j :: 0 <= i < |H| && 0 <= j < |H[i]| && H[i] == g && H[i][j] == p
    {
      assert g in multiset(H);
      var i :| 0 <= i < |H| && H[i] == g;
      var j :| 0 <= j < |g| && g[j] == p;
    }
  }

  /** The whole-run bound does not depend on the order of the groups. */
  lemma {:induction false} GainsPermutation(G: seq<seq<Passenger>>, H: seq<seq<Passenger>>, seatsInRow: int,
                                            sat0: map<Passenger, int>, sat2: map<Passenger, int>)
    requires multiset(G) == multiset(H)
    requires SeatingGains(H, seatsInRow, sat0, sat2)
    ensures forall g, p :: g in G && p in g ==>
              && p in sat0 && p in sat2
              && sat0[p] <= sat2[p] <= sat0[p] + MaxGain(p.wantsWindow, |g| > seatsInRow)
  {
    GroupsPermutation(G, H);
  }

  /** What phase 2 has done after seating the first `n` separated passengers. */
  ghost predicate Phase2(rows0: seq<seq<Passenger>>, rows: seq<seq<Passenger>>, separated: seq<Passenger>, n: nat) {
    && n <= |separated|
    && RowsExtend(rows0, rows)
    && multiset(Flatten(rows)) == multiset(Flatten(rows0)) + multiset(separated[..n])
  }

  lemma {:induction false} Phase2Start(rows0: seq<seq<Passenger>>, separated: seq<Passenger>)
    ensures Phase2(rows0, rows0, separated, 0)
  {
    assert separated[..0] == [];
  }

  lemma {:induction false} Phase2End(rows0: seq<seq<Passenger>>, rows: seq<seq<Passenger>>, separated: seq<Passenger>, n: nat)
    requires Phase2(rows0, rows, separated, n) && separated[n..] == []
    ensures RowsExtend(rows0, rows)
    ensures multiset(Flatten(rows)) == multiset(Flatten(rows0)) + multiset(separated)
  {
    assert separated[..n] == separated;
  }

  lemma {:induction false} Phase2Open(rows0: seq<seq<Passenger>>, rows: seq<seq<Passenger>>, separated: seq<Passenger>, n: nat)
    requires Phase2(rows0, rows, separated, n)
    ensures Phase2(rows0, rows + [[]], separated, n)
  {
    assert (rows + [[]])[..|rows|] == rows;
  }

  lemma {:induction false} Phase2Seat(rows0: seq<seq<Passenger>>, rows: seq<seq<Passenger>>, separated: seq<Passenger>, n: nat, r: nat)
    requires Phase2(rows0, rows, separated, n) && n < |separated| && r < |rows|
    ensures Phase2(rows0, rows[r := rows[r] + [separated[n]]], separated, n + 1)
  {
    FlattenAppendAt(rows, r, [separated[n]]);
    assert separated[..n + 1] == separated[..n] + [separated[n]];
  }
}

