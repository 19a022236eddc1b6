/**
 * A passenger: identity and seating preferences fixed at construction, plus the
 * satisfaction score and the separated-from-group flag that the allocator updates.
 * Also the sequence functions over passengers that the allocator and the parser share.
 */
module Passengers {
  import opened Wrappers
  import opened Decimal

  /** Satisfaction is counted in half-units: the only awards are 1, 0.5 and 0. */
  const FULL_SATISFACTION: nat := 2
  const HALF_SATISFACTION: nat := 1
  const NO_SATISFACTION: nat := 0

  class Passenger {
    /** Identity and preferences have no setters: they never change after construction. */
    const id: int
    const wantsWindow: bool
    const inGroup: bool

    /** Accumulated satisfaction, in half-units. */
    var satisfaction: int
    var separatedFromGroup: bool

    constructor (id: int, wantsWindow: bool, inGroup: bool)
      ensures this.id == id && this.wantsWindow == wantsWindow && this.inGroup == inGroup
      ensures satisfaction == 0 && !separatedFromGroup
    {
      this.id := id;
      this.wantsWindow := wantsWindow;
      this.inGroup := inGroup;
      satisfaction := 0;
      separatedFromGroup := false;
    }

    method GetSatisfaction() returns (s: int)
      ensures s == satisfaction
    {
      s := satisfaction;
    }

    /** Adds `amount` half-units; the flag and the identity are left alone. */
    method UpdateSatisfaction(amount: int)
      modifies this`satisfaction
      ensures satisfaction == old(satisfaction) + amount
    {
      satisfaction := satisfaction + amount;
    }

    method IsSeparatedFromGroup() returns (b: bool)
      ensures b == separatedFromGroup
    {
      b := separatedFromGroup;
    }

    method SetSeparatedFromGroup(separated: bool)
      modifies this`separatedFromGroup
      ensures separatedFromGroup == separated
    {
      separatedFromGroup := separated;
    }

    /**
     * `String.valueOf(id)`: the decimal rendering of the id, in the only form
     * (`Canonical`) that parses back to the id.
     */
    function ToString(): (s: string)
      ensures s == IntToString(id)
      ensures Canonical(s) && ParseInt(s) == Some(id)
    {
      ParseIntOfIntToString(id);
      IntToString(id)
    }
  }

  /** Number of passengers in `s` who want a window seat. */
  function WindowCount(s: seq<Passenger>): (n: nat)
    ensures n <= |s|
  {
    if s == [] then 0
    else WindowCount(s[..|s| - 1]) + (if s[|s| - 1].wantsWindow then 1 else 0)
  }

  /** Every window seeker comes before every passenger who does not want a window. */
  predicate WindowFirst(s: seq<Passenger>) {
    forall i, j :: 0 <= i < j < |s| && s[j].wantsWindow ==> s[i].wantsWindow
  }

  /** Each element occurs at most once. */
  ghost predicate NoDuplicates<T>(s: seq<T>) {
    forall i :: 0 <= i < |s| ==> multiset(s)[s[i]] == 1
  }

  /** Reordering keeps a sequence free of duplicates. */
  lemma {:induction false} NoDuplicatesPermutation<T>(a: seq<T>, b: seq<T>)
    requires NoDuplicates(a) && multiset(a) == multiset(b)
    ensures NoDuplicates(b)
  {
    forall i | 0 <= i < |b| ensures multiset(b)[b[i]] == 1 {
      assert b[i] in multiset(a);
      var j :| 0 <= j < |a| && a[j] == b[i];
    }
  }

  /** The passengers of `s` who want a window, in their order in `s`. */
  function WindowSeekers(s: seq<Passenger>): (r: seq<Passenger>)
    ensures forall p :: p in r ==> p.wantsWindow
  {
    if s == [] then []
    else WindowSeekers(s[..|s| - 1]) + (if s[|s| - 1].wantsWindow then [s[|s| - 1]] else [])
  }

  /** The passengers of `s` who do not want a window, in their order in `s`. */
  function NonSeekers(s: seq<Passenger>): (r: seq<Passenger>)
    ensures forall p :: p in r ==> !p.wantsWindow
  {
    if s == [] then []
    else NonSeekers(s[..|s| - 1]) + (if s[|s| - 1].wantsWindow then [] else [s[|s| - 1]])
  }

  lemma {:induction false} PartitionIsPermutation(s: seq<Passenger>)
    ensures multiset(WindowSeekers(s)) + multiset(NonSeekers(s)) == multiset(s)
  {
    if s != [] {
      var init, x := s[..|s| - 1], s[|s| - 1];
      PartitionIsPermutation(init);
      assert s == init + [x];
      assert multiset(s) == multiset(init) + multiset{x};
      if x.wantsWindow {
        assert WindowSeekers(s) == WindowSeekers(init) + [x];
        assert NonSeekers(s) == NonSeekers(init);
      } else {
        assert WindowSeekers(s) == WindowSeekers(init);
        assert NonSeekers(s) == NonSeekers(init) + [x];
      }
    }
  }

  /**
   * The order the two window-first comparators of the source produce: a
   * permutation with every window seeker first. (The order inside each class
   * depends on the library sort and is not part of the contract.)
   */
  function WindowFirstOrder(s: seq<Passenger>): (r: seq<Passenger>)
    ensures multiset(r) == multiset(s) && |r| == |s|
    ensures WindowFirst(r)
  {
    PartitionIsPermutation(s);
    assert |multiset(WindowSeekers(s) + NonSeekers(s))| == |s|;
    WindowSeekers(s) + NonSeekers(s)
  }

  lemma {:induction false} WindowCountConcat(a: seq<Passenger>, b: seq<Passenger>)
    ensures WindowCount(a + b) == WindowCount(a) + WindowCount(b)
  {
    if b == [] {
      assert a + b == a;
    } else {
      var init := b[..|b| - 1];
      WindowCountConcat(a, init);
      assert (a + b)[..|a + b| - 1] == a + init;
      assert (a + b)[|a + b| - 1] == b[|b| - 1];
    }
  }

  /** Taking out the passenger at `k` takes out their window preference. */
  lemma {:induction false} WindowCountRemoveAt(b: seq<Passenger>, k: nat)
    requires k < |b|
    ensures WindowCount(b) == WindowCount(b[..k] + b[k + 1..]) + (if b[k].wantsWindow then 1 else 0)
  {
    var l, r := b[..k], b[k + 1..];
    assert b[k..] == [b[k]] + r;
    assert b == l + b[k..];
    WindowCountConcat(l, [b[k]] + r);
    WindowCountConcat([b[k]], r);
    WindowCountConcat(l, r);
    assert [b[k]][..0] == [];
  }

  /** Taking out the element at `k` takes it out of the multiset. */
  lemma {:induction false} MultisetRemoveAt<T>(b: seq<T>, k: nat)
    requires k < |b|
    ensures multiset(b[..k] + b[k + 1..]) == multiset(b) - multiset{b[k]}
  {
    assert b == b[..k] + [b[k]] + b[k + 1..];
    assert multiset(b) == multiset(b[..k]) + multiset{b[k]} + multiset(b[k + 1..]);
  }

  /** Reordering passengers does not change how many of them want a window. */
  lemma {:induction false} PermutationWindowCount(a: seq<Passenger>, b: seq<Passenger>)
    requires multiset(a) == multiset(b)
    ensures WindowCount(a) == WindowCount(b)
    decreases |a|
  {
    if a == [] {
      assert |b| == |multiset(b)| == 0;
    } else {
      var n := |a| - 1;
      assert a[n] in multiset(b);
      var k :| 0 <= k < |b| && b[k] == a[n];
      MultisetRemoveAt(a, n);
      MultisetRemoveAt(b, k);
      assert a[..n] + a[n + 1..] == a[..n];
      PermutationWindowCount(a[..n], b[..k] + b[k + 1..]);
      WindowCountRemoveAt(b, k);
    }
  }

  /** Concatenation of a sequence of sequences. */
  function Flatten<T>(gs: seq<seq<T>>): (r: seq<T>)
  {
    if gs == [] then [] else Flatten(gs[..|gs| - 1]) + gs[|gs| - 1]
  }

  lemma {:induction false} FlattenConcat<T>(a: seq<seq<T>>, b: seq<seq<T>>)
    ensures Flatten(a + b) == Flatten(a) + Flatten(b)
  {
    if b == [] {
      assert a + b == a;
    } else {
      var init := b[..|b| - 1];
      FlattenConcat(a, init);
      assert (a + b)[..|a + b| - 1] == a + init;
      assert (a + b)[|a + b| - 1] == b[|b| - 1];
    }
  }

  /** Taking out the group at index `k` takes out exactly its members. */
  lemma {:induction false} FlattenRemove<T>(b: seq<seq<T>>, k: nat)
    requires k < |b|
    ensures multiset(Flatten(b)) == multiset(Flatten(b[..k] + b[k + 1..])) + multiset(b[k])
  {
    var left, x, right := b[..k], b[k], b[k + 1..];
    FlattenSplit(b, k);
    FlattenDrop(b, k);
    FlattenConcat(left, right);
    MultisetMiddle(Flatten(left), x, Flatten(right));
  }

  lemma {:induction false} MultisetMiddle<T>(l: seq<T>, x: seq<T>, r: seq<T>)
    ensures multiset(l + x + r) == multiset(l + r) + multiset(x)
  {
  }

  /** Reordering whole groups keeps the multiset of their members. */
  lemma {:induction false} FlattenPermutation<T>(a: seq<seq<T>>, b: seq<seq<T>>)
    requires multiset(a) == multiset(b)
    ensures multiset(Flatten(a)) == multiset(Flatten(b))
    decreases |a|
  {
    if a == [] {
      assert |b| == |multiset(b)| == 0;
    } else {
      var x := a[|a| - 1];
      var init := a[..|a| - 1];
      assert a == init + [x];
      assert x in multiset(b);
      var k :| 0 <= k < |b| && b[k] == x;
      var rest := b[..k] + b[k + 1..];
      assert b == b[..k] + [x] + b[k + 1..];
      assert multiset(rest) == multiset(init) by {
        assert multiset(b) == multiset(b[..k]) + multiset{x} + multiset(b[k + 1..]);
        assert multiset(rest) == multiset(b[..k]) + multiset(b[k + 1..]);
        assert multiset(init) == multiset(a) - multiset{x};
        assert multiset(rest) == multiset(b) - multiset{x};
      }
      FlattenPermutation(init, rest);
      FlattenRemove(b, k);
      assert Flatten(a) == Flatten(init) + x;
    }
  }

  /** In a duplicate-free concatenation the middle part is duplicate-free and shares nothing with the rest. */
  lemma {:induction false} NoDuplicatesParts<T>(a: seq<T>, b: seq<T>, c: seq<T>)
    requires NoDuplicates(a + b + c)
    ensures NoDuplicates(b)
    ensures forall x :: x in b ==> x !in a && x !in c
  {
    var s := a + b + c;
    assert multiset(s) == multiset(a) + multiset(b) + multiset(c);
    forall i | 0 <= i < |b|
      ensures multiset(b)[b[i]] == 1 && b[i] !in a && b[i] !in c
    {
      assert s[|a| + i] == b[i];
    }
  }

  lemma {:induction false} FlattenSingle<T>(g: seq<T>)
    ensures Flatten([g]) == g
  {
    assert [g][..0] == [];
  }

  /** Splitting off the first group. */
  lemma {:induction false} FlattenCons<T>(g: seq<T>, gs: seq<seq<T>>)
    ensures Flatten([g] + gs) == g + Flatten(gs)
  {
    FlattenConcat([g], gs);
    FlattenSingle(g);
  }

  /** Appending `x` to the group at index `k` adds exactly `x` to the members. */
  lemma {:induction false} FlattenAppendAt<T>(b: seq<seq<T>>, k: nat, x: seq<T>)
    requires k < |b|
    ensures multiset(Flatten(b[k := b[k] + x])) == multiset(Flatten(b)) + multiset(x)
    ensures |Flatten(b[k := b[k] + x])| == |Flatten(b)| + |x|
  {
    var c := b[k := b[k] + x];
    assert b == b[..k] + [b[k]] + b[k + 1..];
    assert c == b[..k] + [b[k] + x] + b[k + 1..];
    FlattenConcat(b[..k] + [b[k]], b[k + 1..]);
    FlattenConcat(b[..k], [b[k]]);
    FlattenConcat(b[..k] + [b[k] + x], b[k + 1..]);
    FlattenConcat(b[..k], [b[k] + x]);
    FlattenSingle(b[k]);
    FlattenSingle(b[k] + x);
  }

  /** Every member of a group is a member of the flattening. */
  lemma {:induction false} FlattenMember<T>(b: seq<seq<T>>, k: nat)
    requires k < |b|
    ensures forall x :: x in b[k] ==> x in Flatten(b)
  {
    FlattenRemove(b, k);
    forall x | x in b[k] ensures x in Flatten(b) {
      assert x in multiset(b[k]);
      assert x in multiset(Flatten(b));
    }
  }

  lemma {:induction false} FlattenSnoc<T>(gs: seq<seq<T>>, g: seq<T>)
    ensures Flatten(gs + [g]) == Flatten(gs) + g
  {
    assert (gs + [g])[..|gs|] == gs;
  }

  /** The members of the first `n + 1` groups. */
  lemma {:induction false} FlattenTake<T>(gs: seq<seq<T>>, n: nat)
    requires n < |gs|
    ensures Flatten(gs[..n + 1]) == Flatten(gs[..n]) + gs[n]
  {
    assert gs[..n + 1][..n] == gs[..n];
  }

  /** The members of the groups from index `n` on. */
  lemma {:induction false} FlattenDrop<T>(gs: seq<seq<T>>, n: nat)
    requires n < |gs|
    ensures Flatten(gs[n..]) == gs[n] + Flatten(gs[n + 1..])
  {
    assert gs[n..] == [gs[n]] + gs[n + 1..];
    FlattenCons(gs[n], gs[n + 1..]);
  }

  lemma {:induction false} FlattenSplit<T>(gs: seq<seq<T>>, n: nat)
    requires n <= |gs|
    ensures Flatten(gs) == Flatten(gs[..n]) + Flatten(gs[n..])
  {
    assert gs == gs[..n] + gs[n..];
    FlattenConcat(gs[..n], gs[n..]);
  }

  /** The members of a list of groups, as a set. */
  ghost function Members<T>(gs: seq<seq<T>>): set<T> {
    set i, j | 0 <= i < |gs| && 0 <= j < |gs[i]| :: gs[i][j]
  }

  /** The members of the first `n + 1` groups. */
  lemma {:induction false} MembersTake<T>(gs: seq<seq<T>>, n: nat)
    requires n < |gs|
    ensures Members(gs[..n + 1]) == Members(gs[..n]) + (set x | x in gs[n])
  {
    var a, b := Members(gs[..n + 1]), Members(gs[..n]) + (set x | x in gs[n]);
    forall x | x in a ensures x in b {
      var i, j :| 0 <= i < n + 1 && 0 <= j < |gs[..n + 1][i]| && gs[..n + 1][i][j] == x;
      if i < n {
        assert gs[..n][i][j] == x;
      }
    }
    forall x | x in b ensures x in a {
      if x in gs[n] {
        var j :| 0 <= j < |gs[n]| && gs[n][j] == x;
        assert gs[..n + 1][n][j] == x;
      } else {
        var i, j :| 0 <= i < n && 0 <= j < |gs[..n][i]| && gs[..n][i][j] == x;
        assert gs[..n + 1][i][j] == x;
      }
    }
  }

  /** The members of the groups from index `n` on. */
  lemma {:induction false} MembersDrop<T>(gs: seq<seq<T>>, n: nat)
    requires n < |gs|
    ensures Members(gs[n..]) == (set x | x in gs[n]) + Members(gs[n + 1..])
  {
    var a, b := Members(gs[n..]), (set x | x in gs[n]) + Members(gs[n + 1..]);
    forall x | x in a ensures x in b {
      var i, j :| 0 <= i < |gs| - n && 0 <= j < |gs[n..][i]| && gs[n..][i][j] == x;
      if i > 0 {
        assert gs[n + 1..][i - 1][j] == x;
      }
    }
    forall x | x in b ensures x in a {
      if x in gs[n] {
        var j :| 0 <= j < |gs[n]| && gs[n][j] == x;
        assert gs[n..][0][j] == x;
      } else {
        var i, j :| 0 <= i < |gs| - n - 1 && 0 <= j < |gs[n + 1..][i]| && gs[n + 1..][i][j] == x;
        assert gs[n..][i + 1][j] == x;
      }
    }
  }

  /** The members of a list of groups are the elements of its flattening. */
  lemma {:induction false} MembersFlatten<T>(gs: seq<seq<T>>)
    ensures forall x :: x in Members(gs) <==> x in Flatten(gs)
    decreases |gs|
  {
    if gs != [] {
      var n := |gs| - 1;
      MembersFlatten(gs[..n]);
      MembersTake(gs, n);
      assert gs[..n + 1] == gs;
    }
  }

  /** One part of a sum of multisets is contained in the sum. */
  lemma {:induction false} MultisetPart<T>(a: multiset<T>, b: multiset<T>, c: multiset<T>)
    requires a + b == c
    ensures b <= c
  {
  }

  /** Whoever is in the concatenation is a member of some group. */
  lemma {:induction false} FlattenMembers<T>(gs: seq<seq<T>>, x: T)
    requires x in multiset(Flatten(gs))
    ensures x in Members(gs)
  {
    MembersFlatten(gs);
  }

  /** Reordering the groups keeps their members. */
  lemma {:induction false} MembersPermutation<T>(a: seq<seq<T>>, b: seq<seq<T>>)
    requires multiset(a) == multiset(b)
    ensures Members(a) == Members(b)
  {
    FlattenPermutation(a, b);
    MembersFlatten(a);
    MembersFlatten(b);
    forall x ensures x in Members(a) <==> x in Members(b) {
      assert x in Flatten(a) <==> x in multiset(Flatten(a));
      assert x in Flatten(b) <==> x in multiset(Flatten(b));
    }
  }

  /** Groups of at most `width` each hold at most `width` per group. */
  lemma {:induction false} FlattenBound<T>(gs: seq<seq<T>>, width: int)
    requires forall i :: 0 <= i < |gs| ==> |gs[i]| <= width
    ensures |Flatten(gs)| <= width * |gs|
    decreases |gs|
  {
    if gs != [] {
      var n := |gs| - 1;
      FlattenBound(gs[..n], width);
      assert width * (n + 1) == width * n + width;
    }
  }

  /** In a duplicate-free sequence no other position holds the element at index `j`. */
  lemma {:induction false} NoDuplicatesAt<T>(s: seq<T>, j: nat)
    requires NoDuplicates(s) && j < |s|
    ensures forall k :: 0 <= k < |s| && k != j ==> s[k] != s[j]
  {
    forall k | 0 <= k < |s| && k != j ensures s[k] != s[j] {
      var a, b := if k < j then k else j, if k < j then j else k;
      assert s == s[..a] + [s[a]] + s[a + 1..];
      NoDuplicatesParts(s[..a], [s[a]], s[a + 1..]);
      assert s[a + 1..][b - a - 1] == s[b];
    }
  }
}
