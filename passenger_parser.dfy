/**
 * The reading of an input: a dimension line with the number of rows and the
 * number of seats per row, then one line per group of passengers travelling
 * together. The file itself is a sequence of lines here.
 */
module Parser {
  import opened Wrappers
  import opened Decimal
  import opened Tokens
  import opened Passengers

  /** Every row has a window seat at either end. */
  const NUM_WINDOWS_IN_PLANE: int := 2

  /** The kinds of the `IllegalArgumentException`s the parser throws. */
  datatype ParseError =
    | EmptyInput              // "Input file is empty"
    | InvalidDimensions       // "Please provide valid plane dimensions"
    | NonNumericDimensions    // "... plane dimensions must be in numeric format"
    | DimensionsBelowOne      // "Plane dimensions must be >= 1"
    | NoPassengers            // "Input must have at least one passenger"
    | InvalidPassengerFormat  // "... Invalid passenger format."

  /** The three things the parser records of a passenger. */
  datatype Entry = Entry(id: int, wantsWindow: bool, inGroup: bool)

  function EntryOf(p: Passenger): Entry {
    Entry(p.id, p.wantsWindow, p.inGroup)
  }

  function Entries(g: seq<Passenger>): (r: seq<Entry>)
    ensures |r| == |g| && forall i :: 0 <= i < |g| ==> r[i] == EntryOf(g[i])
  {
    if g == [] then [] else Entries(g[..|g| - 1]) + [EntryOf(g[|g| - 1])]
  }

  /** What a successful parse yields. */
  datatype Plane = Plane(numRows: int, numSeatsInRow: int, groups: seq<seq<Entry>>)

  /**
   * The dimension line: exactly two tokens, both integers, both at least 1;
   * the checks are made in that order.
   */
  function Dimensions(line: string): (r: Result<(int, int), ParseError>)
    ensures r.Failure? ==> r.error in {InvalidDimensions, NonNumericDimensions, DimensionsBelowOne}
    ensures r.Success? <==>
              && |Split(line)| == 2
              && ParseInt(Split(line)[0]).Some? && ParseInt(Split(line)[1]).Some?
              && ParseInt(Split(line)[0]).value >= 1 && ParseInt(Split(line)[1]).value >= 1
    ensures r.Success? ==> r.value == (ParseInt(Split(line)[0]).value, ParseInt(Split(line)[1]).value)
    ensures |Split(line)| != 2 ==> r == Failure(InvalidDimensions)
    ensures |Split(line)| == 2 && (ParseInt(Split(line)[0]).None? || ParseInt(Split(line)[1]).None?) ==>
              r == Failure(NonNumericDimensions)
    ensures && |Split(line)| == 2
            && ParseInt(Split(line)[0]).Some? && ParseInt(Split(line)[1]).Some?
            && (ParseInt(Split(line)[0]).value < 1 || ParseInt(Split(line)[1]).value < 1) ==>
              r == Failure(DimensionsBelowOne)
  {
    var ds := Split(line);
    if |ds| != 2 then Failure(InvalidDimensions)
    else
      var rows, seats := ParseInt(ds[0]), ParseInt(ds[1]);
      if rows.None? || seats.None? then Failure(NonNumericDimensions)
      else if seats.value < 1 || rows.value < 1 then Failure(DimensionsBelowOne)
      else Success((rows.value, seats.value))
  }

  /**
   * The passengers of the first tokens of a line, in token order, each
   * `inGroup` as given; None as soon as one token is not a passenger.
   */
  function EntriesOf(tokens: seq<string>, inGroup: bool): (r: Option<seq<Entry>>)
    ensures r.Some? ==> |r.value| == |tokens|
  {
    if tokens == [] then Some([])
    else
      var init := EntriesOf(tokens[..|tokens| - 1], inGroup);
      var c := Classify(tokens[|tokens| - 1]);
      if init.None? || c.None? then None
      else Some(init.value + [Entry(c.value.id, c.value.wantsWindow, inGroup)])
  }

  /**
   * A passenger line: every token is a passenger, who is in a group exactly
   * when the line does not have a single token.
   */
  function LineEntries(line: string): Option<seq<Entry>> {
    var tokens := Split(line);
    EntriesOf(tokens, |tokens| != 1)
  }

  /** The groups of the passenger lines: one per line that has a passenger; None if a line is malformed. */
  function GroupsOf(lines: seq<string>): (r: Option<seq<seq<Entry>>>)
    ensures r.Some? ==> |r.value| <= |lines|
  {
    if lines == [] then Some([])
    else
      var init := GroupsOf(lines[..|lines| - 1]);
      var g := LineEntries(lines[|lines| - 1]);
      if init.None? || g.None? then None
      else if g.value == [] then init
      else Some(init.value + [g.value])
  }

  /**
   * The whole parse: an empty input, a bad dimension line, no passenger
   * line and a malformed passenger line are the errors, checked in that
   * order.
   */
  function Parse(lines: seq<string>): (r: Result<Plane, ParseError>)
  {
    if lines == [] then Failure(EmptyInput)
    else
      var dims := Dimensions(lines[0]);
      if dims.Failure? then Failure(dims.error)
      else if |lines| == 1 then Failure(NoPassengers)
      else
        var groups := GroupsOf(lines[1..]);
        if groups.None? then Failure(InvalidPassengerFormat)
        else Success(Plane(dims.value.0, dims.value.1, groups.value))
  }

  /** Total number of passengers in a list of groups. */
  function Count(gs: seq<seq<Entry>>): nat {
    |Flatten(gs)|
  }

  /**
   * The groups `gs` read so far agree with `entries`, the groups the lines
   * give: one per group, the same passengers reordered window seekers
   * first; nobody twice.
   */
  ghost predicate Collected(gs: seq<seq<Passenger>>, entries: seq<seq<Entry>>) {
    && |gs| == |entries|
    && (forall i :: 0 <= i < |gs| ==>
          && multiset(Entries(gs[i])) == multiset(entries[i])
          && WindowFirst(gs[i]))
    && NoDuplicates(Flatten(gs))
  }

  /** Adding a group of new passengers to the groups read so far. */
  lemma {:induction false} CollectedSnoc(gs: seq<seq<Passenger>>, entries: seq<seq<Entry>>,
                                          g: seq<Passenger>, e: seq<Entry>)
    requires Collected(gs, entries)
    requires multiset(Entries(g)) == multiset(e) && WindowFirst(g) && NoDuplicates(g)
    requires forall i, j :: 0 <= i < |Flatten(gs)| && 0 <= j < |g| ==> Flatten(gs)[i] != g[j]
    ensures Collected(gs + [g], entries + [e])
  {
    FlattenSnoc(gs, g);
    NoDuplicatesAppend(Flatten(gs), g);
  }

  /**
   * The first `i` tokens of a line have been read into `group`: their
   * passengers in token order, nobody twice and nobody from `known`.
   */
  ghost predicate TokensRead(tokens: seq<string>, i: int, inGroup: bool, group: seq<Passenger>, known: set<Passenger>) {
    && 0 <= i <= |tokens|
    && EntriesOf(tokens[..i], inGroup) == Some(Entries(group))
    && NoDuplicates(group)
    && (forall p :: p in group ==> p !in known)
  }

  class PassengerParser {
    var numRows: int
    var numSeatsInRow: int
    var passengerCount: int
    var passengerGroups: seq<seq<Passenger>>

    /** The implicit constructor: every counter 0, no groups yet. */
    constructor ()
      ensures numRows == 0 && numSeatsInRow == 0 && passengerCount == 0 && passengerGroups == []
    {
      numRows := 0;
      numSeatsInRow := 0;
      passengerCount := 0;
      passengerGroups := [];
    }

    /**
     * The passenger a token stands for, new, in a group as `inGroup` says;
     * None for a token that is neither digits nor digits followed by `W`.
     */
    static method NewPassenger(token: string, inGroup: bool) returns (r: Option<Passenger>)
      ensures r.Some? <==> Classify(token).Some?
      ensures r.Some? ==> fresh(r.value)
      ensures r.Some? ==> EntryOf(r.value) == Entry(Classify(token).value.id, Classify(token).value.wantsWindow, inGroup)
    {
      var c := Classify(token);
      if c.None? {
        return None;
      }
      var p := new Passenger(c.value.id, c.value.wantsWindow, inGroup);
      r := Some(p);
    }

    /**
     * Reads the passengers of the tokens of one line, one new passenger per
     * token in token order, counting each, in a group exactly when the line
     * does not have a single token; None at the first token that is not a
     * passenger, with the passengers before it counted.
     */
    method ReadGroup(tokens: seq<string>, ghost known: set<Passenger>) returns (r: Option<seq<Passenger>>)
      modifies this`passengerCount
      ensures r.Some? <==> EntriesOf(tokens, |tokens| != 1).Some?
      ensures r.Some? ==> Entries(r.value) == EntriesOf(tokens, |tokens| != 1).value
      ensures r.Some? ==> passengerCount == old(passengerCount) + |r.value|
      ensures r.Some? ==> NoDuplicates(r.value)
      ensures r.Some? ==> forall p :: p in r.value ==> p !in known
    {
      var inGroup := |tokens| != 1;
      var group: seq<Passenger> := [];
      var i := 0;
      while i < |tokens|
        invariant TokensRead(tokens, i, inGroup, group, known)
        invariant passengerCount == old(passengerCount) + |group|
      {
        var ok;
        ok, group := ReadToken(tokens, i, inGroup, group, known);
        if !ok {
          return None;
        }
        i := i + 1;
      }
      assert tokens[..i] == tokens;
      r := Some(group);
    }

    /**
     * One turn of the token loop: the passenger of token `i` joins the
     * group and is counted; a token that is not a passenger refuses the line.
     */
    method ReadToken(tokens: seq<string>, i: nat, inGroup: bool, group: seq<Passenger>, ghost known: set<Passenger>)
      returns (ok: bool, group': seq<Passenger>)
      requires i < |tokens| && TokensRead(tokens, i, inGroup, group, known)
      modifies this`passengerCount
      ensures !ok ==> EntriesOf(tokens, inGroup).None?
      ensures ok ==> TokensRead(tokens, i + 1, inGroup, group', known)
      ensures ok ==> |group'| == |group| + 1 && passengerCount == old(passengerCount) + 1
    {
      EntriesOfStep(tokens, i, inGroup);
      var next := NewPassenger(tokens[i], inGroup);
      if next.None? {
        EntriesOfExtends(tokens, i, inGroup);
        return false, group;
      }
      var p := next.value;
      NoDuplicatesSnoc(group, p);
      EntriesSnoc(group, p);
      group' := group + [p];
      passengerCount := passengerCount + 1;
      ok := true;
    }

    /**
     * `parseInputFile` from the reading of the dimension line on. On
     * success the dimensions are those of the first line and the groups are
     * those of the passenger lines, each reordered window seekers first;
     * nobody occurs twice and the count grows by the passengers read.
     */
    method ParseInputFile(lines: seq<string>) returns (r: Outcome<ParseError>)
      modifies this
      ensures r.Fail? <==> Parse(lines).Failure?
      ensures r.Fail? ==> r.error == Parse(lines).error
      ensures r.Pass? ==>
                var plane := Parse(lines).value;
                && numRows == plane.numRows && numSeatsInRow == plane.numSeatsInRow
                && Collected(passengerGroups, plane.groups)
                && passengerCount == old(passengerCount) + Count(plane.groups)
    {
      if |lines| == 0 {
        return Fail(EmptyInput);
      }
      var dims := Split(lines[0]);
      if |dims| != 2 {
        return Fail(InvalidDimensions);
      }
      var rows := ParseInt(dims[0]);
      if rows.None? {
        return Fail(NonNumericDimensions);
      }
      numRows := rows.value;
      var seats := ParseInt(dims[1]);
      if seats.None? {
        return Fail(NonNumericDimensions);
      }
      numSeatsInRow := seats.value;
      if numSeatsInRow < 1 || numRows < 1 {
        return Fail(DimensionsBelowOne);
      }
      if |lines| == 1 {
        return Fail(NoPassengers);
      }
      r := ReadGroups(lines[1..]);
    }

    /**
     * The passenger loop over the lines after the dimension line: each line
     * read as a group, reordered window seekers first and kept when not
     * empty.
     */
    method ReadGroups(lines: seq<string>) returns (r: Outcome<ParseError>)
      modifies this`passengerCount, this`passengerGroups
      ensures r.Fail? <==> GroupsOf(lines).None?
      ensures r.Fail? ==> r.error == InvalidPassengerFormat
      ensures r.Pass? ==> Collected(passengerGroups, GroupsOf(lines).value)
      ensures r.Pass? ==> passengerCount == old(passengerCount) + Count(GroupsOf(lines).value)
    {
      passengerGroups := [];
      ghost var entries: seq<seq<Entry>> := [];
      var n := 0;
      while n < |lines|
        invariant 0 <= n <= |lines|
        invariant GroupsOf(lines[..n]) == Some(entries)
        invariant Collected(passengerGroups, entries)
        invariant passengerCount == old(passengerCount) + Count(entries)
      {
        var ok;
        ok, entries := ReadLine(lines, n, entries);
        if !ok {
          return Fail(InvalidPassengerFormat);
        }
        n := n + 1;
      }
      assert lines[..n] == lines;
      r := Pass;
    }

    /**
     * One turn of the passenger loop, on line `n`: the line's group,
     * reordered, is kept when it is not empty; a malformed line refuses
     * the input.
     */
    method ReadLine(lines: seq<string>, n: nat, ghost entries: seq<seq<Entry>>)
      returns (ok: bool, ghost entries': seq<seq<Entry>>)
      requires n < |lines| && GroupsOf(lines[..n]) == Some(entries)
      requires Collected(passengerGroups, entries)
      modifies this`passengerCount, this`passengerGroups
      ensures !ok ==> GroupsOf(lines).None?
      ensures ok ==> GroupsOf(lines[..n + 1]) == Some(entries')
      ensures ok ==> Collected(passengerGroups, entries')
      ensures ok ==> passengerCount - Count(entries') == old(passengerCount) - Count(entries)
    {
      GroupsOfStep(lines, n);
      var tokens := Split(lines[n]);
      var group := ReadGroup(tokens, Members(passengerGroups));
      if group.None? {
        GroupsOfNone(lines, n + 1);
        return false, entries;
      }
      entries' := AddGroup(group.value, entries);
      ok := true;
    }

    /**
     * The end of a turn of the passenger loop: the group read is reordered
     * window seekers first and kept when it is not empty.
     */
    method AddGroup(g: seq<Passenger>, ghost entries: seq<seq<Entry>>) returns (ghost entries': seq<seq<Entry>>)
      requires Collected(passengerGroups, entries) && NoDuplicates(g)
      requires forall p :: p in g ==> p !in Members(passengerGroups)
      modifies this`passengerGroups
      ensures entries' == if g == [] then entries else entries + [Entries(g)]
      ensures Collected(passengerGroups, entries')
      ensures Count(entries') == Count(entries) + |g|
    {
      var sorted := WindowFirstOrder(g);
      if |sorted| > 0 {
        ghost var before := Flatten(passengerGroups);
        EntriesPermutation(sorted, g);
        NoDuplicatesPermutation(g, sorted);
        MembersFlatten(passengerGroups);
        forall i, j | 0 <= i < |before| && 0 <= j < |sorted| ensures before[i] != sorted[j] {
          assert sorted[j] in multiset(g);
          assert sorted[j] in g;
          assert sorted[j] !in Members(passengerGroups);
          assert sorted[j] !in Flatten(passengerGroups);
        }
        CollectedSnoc(passengerGroups, entries, sorted, Entries(g));
        FlattenSnoc(entries, Entries(g));
        passengerGroups := passengerGroups + [sorted];
        entries' := entries + [Entries(g)];
      } else {
        entries' := entries;
      }
    }

    function GetNumSeatsInRow(): (n: int)
      reads this`numSeatsInRow
      ensures n == numSeatsInRow
    {
      numSeatsInRow
    }

    function GetNumRows(): (n: int)
      reads this`numRows
      ensures n == numRows
    {
      numRows
    }

    function GetPassengerCount(): (n: int)
      reads this`passengerCount
      ensures n == passengerCount
    {
      passengerCount
    }

    function GetPassengerGroups(): (gs: seq<seq<Passenger>>)
      reads this`passengerGroups
      ensures gs == passengerGroups
    {
      passengerGroups
    }

    function GetNumWindowsInPlane(): (n: int)
      ensures n == 2
    {
      NUM_WINDOWS_IN_PLANE
    }
  }

  /** One more token of a line. */
  lemma {:induction false} EntriesOfStep(tokens: seq<string>, i: nat, inGroup: bool)
    requires i < |tokens|
    ensures var init, c := EntriesOf(tokens[..i], inGroup), Classify(tokens[i]);
            EntriesOf(tokens[..i + 1], inGroup) ==
              if init.None? || c.None? then None
              else Some(init.value + [Entry(c.value.id, c.value.wantsWindow, inGroup)])
  {
    assert tokens[..i + 1][..i] == tokens[..i];
  }

  lemma {:induction false} EntriesSnoc(g: seq<Passenger>, p: Passenger)
    ensures Entries(g + [p]) == Entries(g) + [EntryOf(p)]
  {
    assert (g + [p])[..|g|] == g;
  }

  /** A line whose token at `i` is not a passenger is refused as a whole. */
  lemma {:induction false} EntriesOfExtends(tokens: seq<string>, i: nat, inGroup: bool)
    requires i < |tokens| && Classify(tokens[i]).None?
    ensures EntriesOf(tokens, inGroup).None?
    decreases |tokens|
  {
    if i < |tokens| - 1 {
      EntriesOfExtends(tokens[..|tokens| - 1], i, inGroup);
    }
  }

  /** One more passenger line: its group is added when it has a passenger. */
  lemma {:induction false} GroupsOfStep(lines: seq<string>, n: nat)
    requires n < |lines|
    ensures var init, g := GroupsOf(lines[..n]), LineEntries(lines[n]);
            GroupsOf(lines[..n + 1]) ==
              if init.None? || g.None? then None
              else if g.value == [] then init
              else Some(init.value + [g.value])
  {
    assert lines[..n + 1][..n] == lines[..n];
  }

  /** A malformed line refuses the whole input, whatever follows it. */
  lemma {:induction false} GroupsOfNone(lines: seq<string>, n: nat)
    requires 1 <= n <= |lines| && GroupsOf(lines[..n]).None?
    ensures GroupsOf(lines).None?
    decreases |lines| - n
  {
    if n == |lines| {
      assert lines[..n] == lines;
    } else {
      GroupsOfStep(lines, n);
      GroupsOfNone(lines, n + 1);
    }
  }

  lemma {:induction false} NoDuplicatesSnoc<T>(s: seq<T>, x: T)
    requires NoDuplicates(s) && x !in s
    ensures NoDuplicates(s + [x])
  {
    NoDuplicatesAppend(s, [x]);
  }

  /** Joining two duplicate-free sequences with nothing in common. */
  lemma {:induction false} NoDuplicatesAppend<T>(a: seq<T>, b: seq<T>)
    requires NoDuplicates(a) && NoDuplicates(b)
    requires forall i, j :: 0 <= i < |a| && 0 <= j < |b| ==> a[i] != b[j]
    ensures NoDuplicates(a + b)
  {
    var s := a + b;
    assert multiset(s) == multiset(a) + multiset(b);
    forall i | 0 <= i < |s| ensures multiset(s)[s[i]] == 1 {
      if i < |a| {
        assert s[i] == a[i] && multiset(a)[a[i]] == 1;
        assert a[i] !in b;
      } else {
        var j := i - |a|;
        assert s[i] == b[j] && multiset(b)[b[j]] == 1;
        assert b[j] !in a;
      }
    }
  }

  /** Reordering passengers reorders what was recorded of them. */
  lemma {:induction false} EntriesPermutation(a: seq<Passenger>, b: seq<Passenger>)
    requires multiset(a) == multiset(b)
    ensures multiset(Entries(a)) == multiset(Entries(b))
    decreases |a|
  {
    if a == [] {
      assert |b| == |multiset(b)| == 0;
    } else {
      var n := |a| - 1;
      assert a[n] in multiset(b);
      var k :| 0 <= k < |b| && b[k] == a[n];
      MultisetRemoveAt(a, n);
      MultisetRemoveAt(b, k);
      assert a[..n] + a[n + 1..] == a[..n];
      EntriesPermutation(a[..n], b[..k] + b[k + 1..]);
      EntriesRemoveAt(b, k);
      assert Entries(a) == Entries(a[..n]) + [EntryOf(a[n])];
    }
  }

  lemma {:induction false} EntriesRemoveAt(b: seq<Passenger>, k: nat)
    requires k < |b|
    ensures multiset(Entries(b)) == multiset(Entries(b[..k] + b[k + 1..])) + multiset{EntryOf(b[k])}
  {
    var e, rest := Entries(b), Entries(b[..k] + b[k + 1..]);
    assert e == e[..k] + [e[k]] + e[k + 1..];
    assert rest == e[..k] + e[k + 1..];
  }

  /**
   * A line's tokens are read exactly when every one of them is a
   * passenger, and then each entry is what its token says, with the line's
   * in-group flag.
   */
  lemma {:induction false} EntriesOfTokens(tokens: seq<string>, inGroup: bool)
    ensures EntriesOf(tokens, inGroup).Some? <==> forall k :: 0 <= k < |tokens| ==> Classify(tokens[k]).Some?
    ensures EntriesOf(tokens, inGroup).Some? ==>
              forall k :: 0 <= k < |tokens| ==>
                EntriesOf(tokens, inGroup).value[k] ==
                  Entry(Classify(tokens[k]).value.id, Classify(tokens[k]).value.wantsWindow, inGroup)
    decreases |tokens|
  {
    if tokens != [] {
      var n := |tokens| - 1;
      var init := tokens[..n];
      EntriesOfTokens(init, inGroup);
      assert forall k :: 0 <= k < n ==> init[k] == tokens[k];
      if !(forall k :: 0 <= k < |tokens| ==> Classify(tokens[k]).Some?) {
        var k :| 0 <= k < |tokens| && Classify(tokens[k]).None?;
        EntriesOfExtends(tokens, k, inGroup);
      }
    }
  }

  /**
   * Every stored group has a passenger, every id is a natural number, and a
   * passenger is marked as in a group exactly when the group has two or
   * more members.
   */
  lemma {:induction false} GroupsOfShape(lines: seq<string>)
    ensures GroupsOf(lines).Some? ==>
              forall i :: 0 <= i < |GroupsOf(lines).value| ==>
                var g := GroupsOf(lines).value[i];
                && g != []
                && forall k :: 0 <= k < |g| ==> g[k].id >= 0 && (g[k].inGroup <==> |g| >= 2)
    decreases |lines|
  {
    if lines != [] {
      var n := |lines| - 1;
      GroupsOfShape(lines[..n]);
      var line := lines[n];
      var tokens := Split(line);
      EntriesOfTokens(tokens, |tokens| != 1);
    }
  }

  /**
   * A successful parse has dimensions of at least 1 and groups shaped as
   * `GroupsOfShape` says.
   */
  lemma {:induction false} ParsedShape(lines: seq<string>)
    ensures Parse(lines).Success? ==>
              var plane := Parse(lines).value;
              && plane.numRows >= 1 && plane.numSeatsInRow >= 1
              && forall i :: 0 <= i < |plane.groups| ==>
                   var g := plane.groups[i];
                   && g != []
                   && forall k :: 0 <= k < |g| ==> g[k].id >= 0 && (g[k].inGroup <==> |g| >= 2)
  {
    if lines != [] && |lines| >= 2 {
      GroupsOfShape(lines[1..]);
    }
  }

  /**
   * The errors in the order they are checked: the empty input first, then
   * the dimension line, then the missing passenger line, and only then a
   * malformed passenger line anywhere after the first line.
   */
  lemma {:induction false} ParseErrors(lines: seq<string>)
    ensures Parse(lines) == Failure(EmptyInput) <==> lines == []
    ensures lines != [] && Dimensions(lines[0]).Failure? ==> Parse(lines) == Failure(Dimensions(lines[0]).error)
    ensures Parse(lines) == Failure(NoPassengers) <==> |lines| == 1 && Dimensions(lines[0]).Success?
    ensures Parse(lines) == Failure(InvalidPassengerFormat) <==>
              |lines| >= 2 && Dimensions(lines[0]).Success? && SomeMalformed(lines[1..])
  {
    if |lines| >= 2 {
      GroupsOfNoneIff(lines[1..]);
    }
  }

  /** Some line of `lines` is not a line of passengers. */
  ghost predicate SomeMalformed(lines: seq<string>) {
    exists k :: 0 <= k < |lines| && LineEntries(lines[k]).None?
  }

  lemma {:induction false} SomeMalformedSnoc(init: seq<string>, line: string)
    ensures SomeMalformed(init + [line]) <==> SomeMalformed(init) || LineEntries(line).None?
  {
    var lines := init + [line];
    if SomeMalformed(init) {
      var k :| 0 <= k < |init| && LineEntries(init[k]).None?;
      assert lines[k] == init[k];
    }
    if SomeMalformed(lines) {
      var k :| 0 <= k < |lines| && LineEntries(lines[k]).None?;
      if k < |init| {
        assert init[k] == lines[k];
      }
    }
    assert lines[|init|] == line;
  }

  /** The passenger lines are refused exactly when one of them is malformed. */
  lemma {:induction false} GroupsOfNoneIff(lines: seq<string>)
    ensures GroupsOf(lines).None? <==> SomeMalformed(lines)
    decreases |lines|
  {
    if lines != [] {
      var n := |lines| - 1;
      var init := lines[..n];
      GroupsOfNoneIff(init);
      assert lines == init + [lines[n]];
      SomeMalformedSnoc(init, lines[n]);
    }
  }

  /** An empty line among the passenger lines is one empty token, and so malformed. */
  lemma {:induction false} EmptyLineRefused()
    ensures LineEntries("") == None
  {
    SplitEmptyLine();
    ClassifyEmpty();
    EntriesOfExtends([""], 0, false);
  }

  /** A line of separators only has no token, so it adds no group. */
  lemma {:induction false} BlankLineSkipped(line: string)
    requires |line| >= 1 && forall i :: 0 <= i < |line| ==> IsSeparator(line[i])
    ensures LineEntries(line) == Some([])
  {
    SplitBlankLine(line);
  }

  /**
   * Two separators in a row, or one before the first token, give an empty
   * token, so the line is malformed.
   */
  lemma {:induction false} EmptyTokenRefused(line: string)
    requires exists k :: 0 <= k < |Split(line)| && Split(line)[k] == ""
    ensures LineEntries(line) == None
  {
    var tokens := Split(line);
    var k :| 0 <= k < |tokens| && tokens[k] == "";
    ClassifyEmpty();
    EntriesOfExtends(tokens, k, |tokens| != 1);
  }

  /** The rendering of a line of passengers: their tokens, separated by single spaces. */
  function RenderGroup(g: seq<Token>): (line: string)
    requires forall k :: 0 <= k < |g| ==> g[k].id >= 0
  {
    JoinTokens(RenderTokens(g))
  }

  function RenderTokens(g: seq<Token>): (ts: seq<string>)
    requires forall k :: 0 <= k < |g| ==> g[k].id >= 0
    ensures |ts| == |g| && forall k :: 0 <= k < |g| ==> ts[k] == Render(g[k])
  {
    if g == [] then [] else RenderTokens(g[..|g| - 1]) + [Render(g[|g| - 1])]
  }

  /** What the parser records of a line of passengers. */
  function Expected(g: seq<Token>): (es: seq<Entry>)
    ensures |es| == |g| && forall k :: 0 <= k < |g| ==> es[k] == Entry(g[k].id, g[k].wantsWindow, |g| != 1)
  {
    seq(|g|, k requires 0 <= k < |g| => Entry(g[k].id, g[k].wantsWindow, |g| != 1))
  }

  predicate WellFormedGroups(groups: seq<seq<Token>>) {
    forall i :: 0 <= i < |groups| ==> groups[i] != [] && forall k :: 0 <= k < |groups[i]| ==> groups[i][k].id >= 0
  }

  function RenderLines(groups: seq<seq<Token>>): (lines: seq<string>)
    requires WellFormedGroups(groups)
    ensures |lines| == |groups|
  {
    if groups == [] then [] else RenderLines(groups[..|groups| - 1]) + [RenderGroup(groups[|groups| - 1])]
  }

  function ExpectedGroups(groups: seq<seq<Token>>): (es: seq<seq<Entry>>)
    ensures |es| == |groups| && forall i :: 0 <= i < |groups| ==> es[i] == Expected(groups[i])
  {
    if groups == [] then [] else ExpectedGroups(groups[..|groups| - 1]) + [Expected(groups[|groups| - 1])]
  }

  /** An input file: the dimension line, then one line per group. */
  function RenderInput(numRows: nat, numSeatsInRow: nat, groups: seq<seq<Token>>): (lines: seq<string>)
    requires WellFormedGroups(groups)
  {
    [NatToString(numRows) + " " + NatToString(numSeatsInRow)] + RenderLines(groups)
  }

  /** A rendered line of passengers is read back as those passengers. */
  lemma {:induction false} LineEntriesRender(g: seq<Token>)
    requires g != [] && forall k :: 0 <= k < |g| ==> g[k].id >= 0
    ensures LineEntries(RenderGroup(g)) == Some(Expected(g))
  {
    var ts := RenderTokens(g);
    SplitJoin(ts);
    forall k | 0 <= k < |ts| ensures Classify(ts[k]) == Some(g[k]) {
      ClassifyRender(g[k]);
    }
    EntriesOfTokens(ts, |ts| != 1);
    assert EntriesOf(ts, |ts| != 1).value == Expected(g);
  }

  lemma {:induction false} GroupsOfRender(groups: seq<seq<Token>>)
    requires WellFormedGroups(groups)
    ensures GroupsOf(RenderLines(groups)) == Some(ExpectedGroups(groups))
    decreases |groups|
  {
    if groups != [] {
      var n := |groups| - 1;
      var lines := RenderLines(groups);
      GroupsOfRender(groups[..n]);
      LineEntriesRender(groups[n]);
      assert lines[..n] == RenderLines(groups[..n]);
    }
  }

  /**
   * Parsing a rendered input gives back its dimensions and its groups, each
   * passenger in a group exactly when the group has more than one member.
   */
  lemma {:induction false} ParseRender(numRows: nat, numSeatsInRow: nat, groups: seq<seq<Token>>)
    requires numRows >= 1 && numSeatsInRow >= 1 && groups != [] && WellFormedGroups(groups)
    ensures Parse(RenderInput(numRows, numSeatsInRow, groups)) ==
              Success(Plane(numRows, numSeatsInRow, ExpectedGroups(groups)))
  {
    var lines := RenderInput(numRows, numSeatsInRow, groups);
    var a, b := NatToString(numRows), NatToString(numSeatsInRow);
    assert JoinTokens([a, b]) == a + " " + b by {
      assert [a, b][1..] == [b];
    }
    SplitJoin([a, b]);
    ParseIntOfIntToString(numRows);
    ParseIntOfIntToString(numSeatsInRow);
    GroupsOfRender(groups);
    assert lines[1..] == RenderLines(groups);
  }
}
