/**
 * The clean-up of one row: passengers who want a window are swapped to the
 * ends of the row, the first one found to the front and the later ones to
 * the back, while window seats are left.
 */
module Arrangement {
  import opened Passengers

  /** `s` with the elements at `i` and `j` exchanged. */
  function Swap<T>(s: seq<T>, i: nat, j: nat): (r: seq<T>)
    requires i < |s| && j < |s|
    ensures |r| == |s| && r[i] == s[j] && r[j] == s[i]
    ensures forall k :: 0 <= k < |s| && k != i && k != j ==> r[k] == s[k]
  {
    s[i := s[j]][j := s[i]]
  }

  /** An exchange reorders the row without adding or losing anybody. */
  lemma {:induction false} SwapPermutes<T>(s: seq<T>, i: nat, j: nat)
    requires i < |s| && j < |s|
    ensures multiset(Swap(s, i, j)) == multiset(s)
  {
    var t := s[i := s[j]];
    assert multiset(t) == multiset(s) - multiset{s[i]} + multiset{s[j]};
    assert multiset(t[j := s[i]]) == multiset(t) - multiset{t[j]} + multiset{s[i]};
  }

  lemma {:induction false} WindowCountStep(s: seq<Passenger>, i: nat)
    requires i < |s|
    ensures WindowCount(s[..i + 1]) == WindowCount(s[..i]) + (if s[i].wantsWindow then 1 else 0)
  {
    assert s[..i + 1][..i] == s[..i];
  }

  /**
   * `r` is `row` after the clean-up with `windows` window seats: the same
   * passengers in some order; nothing moved when there is no window seat or
   * nobody wants one; otherwise a window seeker at the front, and with two
   * window seats and two seekers another one at the back.
   */
  predicate Arranged(row: seq<Passenger>, r: seq<Passenger>, windows: int) {
    && |r| == |row| && multiset(r) == multiset(row)
    && (windows <= 0 || WindowCount(row) == 0 ==> r == row)
    && (windows >= 1 && WindowCount(row) >= 1 ==> r[0].wantsWindow)
    && (windows >= 2 && WindowCount(row) >= 2 ==> r[|r| - 1].wantsWindow)
  }

  /** The swap loop of `getSeatConfiguration` on one row with `windows` window seats. */
  method ArrangeRow(row: seq<Passenger>, windows: int) returns (r: seq<Passenger>)
    ensures Arranged(row, r, windows)
  {
    r := row;
    var windowsAvailable := windows;
    var windowPosition := 0;
    var i := 0;
    while i < |r|
      invariant 0 <= i <= |r| == |row| && multiset(r) == multiset(row)
      invariant windowsAvailable <= windows
      invariant windowsAvailable < windows ==> windowsAvailable >= 0 && i >= 1 && WindowCount(row[..i]) >= 1
      invariant windowsAvailable == windows ==> r == row
      invariant windowsAvailable == windows - 1 ==> r[i..] == row[i..]
      invariant windows >= 1 && WindowCount(row[..i]) >= 1 ==> windowsAvailable < windows
      invariant windows >= 2 && WindowCount(row[..i]) >= 2 ==> windowsAvailable <= windows - 2
      invariant windowsAvailable < windows ==> r[0].wantsWindow
      invariant windowsAvailable <= windows - 2 ==> r[|r| - 1].wantsWindow
    {
      WindowCountStep(row, i);
      if r[i].wantsWindow && windowsAvailable > 0 {
        windowPosition := if windowsAvailable == windows then 0 else |r| - 1;
        SwapPermutes(r, windowPosition, i);
        r := Swap(r, windowPosition, i);
        windowsAvailable := windowsAvailable - 1;
      }
      i := i + 1;
    }
    assert row[..i] == row;
  }

  /** Arranging a row leaves its count of window seekers alone. */
  lemma {:induction false} ArrangedWindowCount(row: seq<Passenger>, r: seq<Passenger>)
    requires multiset(r) == multiset(row)
    ensures WindowCount(r) == WindowCount(row)
  {
    PermutationWindowCount(r, row);
  }
}
