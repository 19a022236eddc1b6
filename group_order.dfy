/**
 * The group ordering applied before seating: larger groups first and, among
 * groups of equal size, groups with more window seekers first. The library sort
 * is stable and the comparator is consistent, so groups that tie on both keys
 * keep their input order.
 */
module GroupOrder {
  import opened Passengers

  /** `a` may stand before `b`. */
  predicate Precedes(a: seq<Passenger>, b: seq<Passenger>) {
    |a| > |b| || (|a| == |b| && WindowCount(a) >= WindowCount(b))
  }

  predicate SortedGroups(gs: seq<seq<Passenger>>) {
    forall i, j :: 0 <= i < j < |gs| ==> Precedes(gs[i], gs[j])
  }

  /** `g` has size `size` and `windows` window seekers. */
  predicate HasKey(g: seq<Passenger>, size: int, windows: int) {
    |g| == size && WindowCount(g) == windows
  }

  /** The groups of `gs` with the given key, in their order in `gs`. */
  function WithKey(gs: seq<seq<Passenger>>, size: int, windows: int): (r: seq<seq<Passenger>>)
    ensures forall g :: g in r ==> g in gs && HasKey(g, size, windows)
  {
    if gs == [] then []
    else (if HasKey(gs[0], size, windows) then [gs[0]] else []) + WithKey(gs[1..], size, windows)
  }

  /** Inserts `g` before the first group it may precede. */
  function InsertGroup(g: seq<Passenger>, gs: seq<seq<Passenger>>): (r: seq<seq<Passenger>>)
    ensures multiset(r) == multiset(gs) + multiset{g} && |r| == |gs| + 1
  {
    if gs == [] then [g]
    else if Precedes(g, gs[0]) then
      assert gs == [gs[0]] + gs[1..];
      [g] + gs
    else
      assert gs == [gs[0]] + gs[1..];
      [gs[0]] + InsertGroup(g, gs[1..])
  }

  lemma {:induction false} InsertGroupSorted(g: seq<Passenger>, gs: seq<seq<Passenger>>)
    requires SortedGroups(gs)
    ensures SortedGroups(InsertGroup(g, gs))
  {
    if gs != [] && !Precedes(g, gs[0]) {
      var tail := InsertGroup(g, gs[1..]);
      InsertGroupSorted(g, gs[1..]);
      var r := [gs[0]] + tail;
      forall j | 0 <= j < |tail| ensures Precedes(gs[0], tail[j]) {
        assert tail[j] in multiset(tail);
        if tail[j] != g {
          assert tail[j] in multiset(gs[1..]);
          var k :| 0 <= k < |gs[1..]| && gs[1..][k] == tail[j];
          assert gs[k + 1] == tail[j];
        }
      }
      assert forall i, j :: 0 <= i < j < |r| ==> Precedes(r[i], r[j]) by {
        forall i, j | 0 <= i < j < |r| ensures Precedes(r[i], r[j]) {
          if i > 0 {
            assert r[i] == tail[i - 1] && r[j] == tail[j - 1];
          } else {
            assert r[j] == tail[j - 1];
          }
        }
      }
    }
  }

  /**
   * `sortPassengerList`: a stable sort by size, then by window seekers, both
   * descending.
   */
  function SortGroups(gs: seq<seq<Passenger>>): (r: seq<seq<Passenger>>)
    ensures multiset(r) == multiset(gs) && |r| == |gs|
    ensures SortedGroups(r)
  {
    if gs == [] then []
    else
      assert gs == [gs[0]] + gs[1..];
      InsertGroupSorted(gs[0], SortGroups(gs[1..]));
      InsertGroup(gs[0], SortGroups(gs[1..]))
  }

  lemma {:induction false} WithKeyCons(h: seq<Passenger>, t: seq<seq<Passenger>>, size: int, windows: int)
    ensures WithKey([h] + t, size, windows)
         == (if HasKey(h, size, windows) then [h] else []) + WithKey(t, size, windows)
  {
    assert ([h] + t)[1..] == t;
  }

  lemma {:induction false} InsertGroupWithKey(g: seq<Passenger>, gs: seq<seq<Passenger>>, size: int, windows: int)
    ensures WithKey(InsertGroup(g, gs), size, windows)
         == (if HasKey(g, size, windows) then [g] else []) + WithKey(gs, size, windows)
  {
    if gs == [] {
      WithKeyCons(g, [], size, windows);
      assert [g] + [] == [g];
    } else if Precedes(g, gs[0]) {
      WithKeyCons(g, gs, size, windows);
    } else {
      InsertGroupWithKey(g, gs[1..], size, windows);
      InsertGroupLater(g, gs, size, windows);
    }
  }

  /** The step of `InsertGroupWithKey` where `g` goes past the head of `gs`. */
  lemma {:induction false} InsertGroupLater(g: seq<Passenger>, gs: seq<seq<Passenger>>, size: int, windows: int)
    requires gs != [] && !Precedes(g, gs[0])
    requires WithKey(InsertGroup(g, gs[1..]), size, windows)
          == (if HasKey(g, size, windows) then [g] else []) + WithKey(gs[1..], size, windows)
    ensures WithKey(InsertGroup(g, gs), size, windows)
         == (if HasKey(g, size, windows) then [g] else []) + WithKey(gs, size, windows)
  {
    var mine := if HasKey(g, size, windows) then [g] else [];
    var theirs := if HasKey(gs[0], size, windows) then [gs[0]] else [];
    var rest := WithKey(gs[1..], size, windows);
    WithKeyCons(gs[0], InsertGroup(g, gs[1..]), size, windows);
    WithKeyCons(gs[0], gs[1..], size, windows);
    assert gs == [gs[0]] + gs[1..];
    // gs[0] strictly outranks g, so the two cannot share a key
    if mine == [] {
      assert mine + rest == rest && mine + (theirs + rest) == theirs + rest;
    } else {
      assert theirs == [];
      assert theirs + (mine + rest) == mine + rest && theirs + rest == rest;
    }
  }

  /** Groups that tie on both keys keep their input order. */
  lemma {:induction false} SortGroupsStable(gs: seq<seq<Passenger>>, size: int, windows: int)
    ensures WithKey(SortGroups(gs), size, windows) == WithKey(gs, size, windows)
  {
    if gs != [] {
      SortGroupsStable(gs[1..], size, windows);
      InsertGroupWithKey(gs[0], SortGroups(gs[1..]), size, windows);
    }
  }
}
